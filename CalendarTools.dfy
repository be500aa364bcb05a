/**
 * The decisions of the calendar route handlers (app/calendar_tools.py).
 *
 * Each handler obtains a service, issues one or two provider requests and
 * maps the provider's errors to HTTP statuses. Provider requests are
 * oracle outcomes; a handler returns its reply together with the requests
 * it issued, in order.
 */
module CalendarTools {
  import opened Wrappers
  import opened Json
  import Auth

  /** The `detail` of an `HTTPException`. */
  datatype Detail = AuthenticationFailed | ServiceInitFailed | EventNotFound | ErrorOccurred | TimesRequired

  /**
   * How a handler ends: a value, an `HTTPException` with a status, or some
   * other exception that escapes the handler (answered by the framework).
   */
  datatype Reply<T> = Ok(value: T) | Raised(status: int, detail: Detail) | Uncaught

  /** How one provider request (`.execute()`) ends. */
  datatype CallOutcome<T> = Returned(value: T) | HttpError(status: int) | OtherError

  /** The provider requests a handler issues on the primary calendar. */
  datatype Call =
    | ListCall(maxResults: int)
    | InsertCall(body: map<string, Json>)
    | GetCall(eventId: string)
    | UpdateCall(eventId: string, body: map<string, Json>)
    | DeleteCall(eventId: string)

  datatype Handled<T> = Handled(reply: Reply<T>, calls: seq<Call>)

  // ---------------------------------------------------------------------
  // Obtaining the service

  /** `except Exception`: every exception raised in the guarded block becomes a 500. */
  function CatchAll<T>(r: Reply<T>): Reply<T> {
    if r.Ok? then r else Raised(500, ServiceInitFailed)
  }

  /**
   * `get_calendar_service()` given what `create_service` returned. The 401
   * raised for a missing service is inside the `try`, so the handler's own
   * `except Exception` turns it into a 500.
   */
  function CalendarService(service: Option<Auth.Service>): (r: Reply<Auth.Service>)
    ensures r.Ok? <==> service.Some?
    ensures r.Ok? ==> r.value == service.value
    // the 401 for a missing service never leaves: every failure is a 500
    ensures !r.Ok? ==> r == Raised(500, ServiceInitFailed)
  {
    var attempt: Reply<Auth.Service> :=
      if service.None? then Raised(401, AuthenticationFailed) else Ok(service.value);
    CatchAll(attempt)
  }

  // ---------------------------------------------------------------------
  // Error mapping

  /** `except HttpError` in update and delete: 404 stays 404, anything else is 500. */
  function NotFoundOr500(status: int): (r: Reply<map<string, Json>>)
    ensures r.Raised?
    ensures status == 404 <==> r.status == 404
    ensures r.status == 404 ==> r.detail == EventNotFound
    ensures r.status != 404 ==> r.status == 500 && r.detail == ErrorOccurred
  {
    if status == 404 then Raised(404, EventNotFound) else Raised(500, ErrorOccurred)
  }

  /** A provider request's outcome as the update handler replies with it. */
  function UpdateReply(outcome: CallOutcome<map<string, Json>>): Reply<map<string, Json>> {
    match outcome
    case Returned(v) => Ok(v)
    case HttpError(s) => NotFoundOr500(s)
    case OtherError => Uncaught
  }

  // ---------------------------------------------------------------------
  // Listing events

  const DefaultMaxResults := 10

  /**
   * `list_events(max_results)`: one list request, replying with the `items`
   * of the result, or an empty list when it has none; any `HttpError` is a 500.
   */
  function ListEvents(maxResults: Option<int>, service: Option<Auth.Service>,
                      listed: CallOutcome<map<string, Json>>): (h: Handled<Json>)
    ensures service.None? ==> h == Handled(Raised(500, ServiceInitFailed), [])
    ensures service.Some? ==>
      h.calls == [ListCall(if maxResults.None? then DefaultMaxResults else maxResults.value)]
    ensures h.reply.Ok? <==> service.Some? && listed.Returned?
    ensures h.reply.Ok? && "items" in listed.value ==> h.reply.value == listed.value["items"]
    ensures h.reply.Ok? && "items" !in listed.value ==> h.reply.value == JArray([])
    ensures service.Some? && listed.HttpError? ==> h.reply == Raised(500, ErrorOccurred)
    // only `HttpError` is caught: any other exception escapes the handler
    ensures service.Some? && listed.OtherError? ==> h.reply == Uncaught
  {
    var svc := CalendarService(service);
    if !svc.Ok? then Handled(Raised(svc.status, svc.detail), [])
    else
      var calls := [ListCall(if maxResults.None? then DefaultMaxResults else maxResults.value)];
      match listed
      case Returned(result) =>
        Handled(Ok(if "items" in result then result["items"] else JArray([])), calls)
      case HttpError(_) => Handled(Raised(500, ErrorOccurred), calls)
      case OtherError => Handled(Uncaught, calls)
  }

  // ---------------------------------------------------------------------
  // The request body

  /** A field the request may leave out (`exclude_unset` drops it). */
  datatype Given<T> = Unset | Given(value: T)

  /** The `CalendarEvent` request model; `summary`, `start` and `end` are required. */
  datatype CalendarEvent = CalendarEvent(
    summary: string,
    start: string,
    end: string,
    description: Given<Option<string>>,
    timezone: Given<string>,
    attendees: Given<Option<seq<string>>>)

  function OptionalString(x: Option<string>): Json {
    if x.None? then JNull else JString(x.value)
  }

  function Strings(xs: seq<string>): (js: seq<Json>)
    ensures |js| == |xs| && forall i :: 0 <= i < |xs| ==> js[i] == JString(xs[i])
  {
    if xs == [] then [] else [JString(xs[0])] + Strings(xs[1..])
  }

  function OptionalStrings(x: Option<seq<string>>): Json {
    if x.None? then JNull else JArray(Strings(x.value))
  }

  function Or<T>(g: Given<T>, default: T): T {
    if g.Given? then g.value else default
  }

  /** The fields that are always present in a request. */
  function RequiredFields(e: CalendarEvent): map<string, Json> {
    map["summary" := JString(e.summary), "start" := JString(e.start), "end" := JString(e.end)]
  }

  /** `event.dict()`: every field, defaults filled in. */
  function EventDict(e: CalendarEvent): (d: map<string, Json>)
    ensures d.Keys == {"summary", "description", "start", "end", "timezone", "attendees"}
    ensures d["summary"] == JString(e.summary)
    ensures d["start"] == JString(e.start) && d["end"] == JString(e.end)
    ensures d["description"] == (if e.description.Given? && e.description.value.Some?
                                 then JString(e.description.value.value) else JNull)
    ensures d["attendees"] == (if e.attendees.Given? && e.attendees.value.Some?
                               then JArray(Strings(e.attendees.value.value)) else JNull)
    ensures d["timezone"] == JString(if e.timezone.Given? then e.timezone.value else "UTC")
  {
    RequiredFields(e)["description" := OptionalString(Or(e.description, None))]
      ["timezone" := JString(Or(e.timezone, "UTC"))]
      ["attendees" := OptionalStrings(Or(e.attendees, None))]
  }

  /** `event.dict(exclude_unset=True)`: the required fields and the optional ones the request set. */
  function SetFields(e: CalendarEvent): (d: map<string, Json>)
    ensures d.Keys == {"summary", "start", "end"} +
      (if e.description.Given? then {"description"} else {}) +
      (if e.timezone.Given? then {"timezone"} else {}) +
      (if e.attendees.Given? then {"attendees"} else {})
    ensures forall k :: k in d ==> d[k] == EventDict(e)[k]
  {
    var d0 := RequiredFields(e);
    var d1 := if e.description.Given? then d0["description" := OptionalString(e.description.value)] else d0;
    var d2 := if e.timezone.Given? then d1["timezone" := JString(e.timezone.value)] else d1;
    if e.attendees.Given? then d2["attendees" := OptionalStrings(e.attendees.value)] else d2
  }

  /** `{**existing, **changes}`: every key of both, the changes winning. */
  function Merge(existing: map<string, Json>, changes: map<string, Json>): (m: map<string, Json>)
    ensures m.Keys == existing.Keys + changes.Keys
    ensures forall k :: k in changes ==> m[k] == changes[k]
    ensures forall k :: k in existing && k !in changes ==> m[k] == existing[k]
  {
    existing + changes
  }

  // ---------------------------------------------------------------------
  // Creating, updating and deleting events

  /**
   * `create_event_route(event)`: one insert request with `event.dict()`.
   * The 400 "Start and end times are required" branch cannot be taken,
   * since the request model makes both fields required.
   */
  function CreateEvent(event: CalendarEvent, service: Option<Auth.Service>,
                       inserted: CallOutcome<map<string, Json>>): (h: Handled<map<string, Json>>)
    ensures h.reply.Raised? ==> h.reply.status == 500
    ensures service.None? ==> h == Handled(Raised(500, ServiceInitFailed), [])
    ensures service.Some? ==> h.calls == [InsertCall(EventDict(event))]
    ensures h.reply.Ok? <==> service.Some? && inserted.Returned?
    ensures h.reply.Ok? ==> h.reply.value == inserted.value
    ensures service.Some? && inserted.HttpError? ==> h.reply == Raised(500, ErrorOccurred)
    // only `HttpError` is caught: any other exception escapes the handler
    ensures service.Some? && inserted.OtherError? ==> h.reply == Uncaught
  {
    var svc := CalendarService(service);
    if !svc.Ok? then Handled(Raised(svc.status, svc.detail), [])
    else
      var body := EventDict(event);
      if "start" !in body || "end" !in body then Handled(Raised(400, TimesRequired), [])
      else
        var calls := [InsertCall(body)];
        match inserted
        case Returned(created) => Handled(Ok(created), calls)
        case HttpError(_) => Handled(Raised(500, ErrorOccurred), calls)
        case OtherError => Handled(Uncaught, calls)
  }

  /**
   * `update_event_route(event_id, event)`: fetch the event, refuse an empty
   * one with 404, then update it with the existing fields overlaid by the
   * fields the request set.
   */
  function UpdateEvent(eventId: string, event: CalendarEvent, service: Option<Auth.Service>,
                       fetched: CallOutcome<map<string, Json>>, updated: CallOutcome<map<string, Json>>)
    : (h: Handled<map<string, Json>>)
    ensures service.None? ==> h == Handled(Raised(500, ServiceInitFailed), [])
    // the fetch comes first; the update is issued only for a non-empty existing event
    ensures service.Some? ==> |h.calls| >= 1 && h.calls[0] == GetCall(eventId)
    ensures |h.calls| == 2 <==> service.Some? && fetched.Returned? && fetched.value != map[]
    ensures service.Some? && fetched.Returned? && fetched.value == map[] ==>
      h == Handled(Raised(404, EventNotFound), [GetCall(eventId)])
    // the update body keeps every existing key; fields the request set win, the others keep their value
    ensures |h.calls| == 2 ==>
      h.calls[1].UpdateCall? && h.calls[1].eventId == eventId &&
      h.calls[1].body.Keys == fetched.value.Keys + SetFields(event).Keys &&
      (forall k :: k in SetFields(event) ==> h.calls[1].body[k] == SetFields(event)[k]) &&
      (forall k :: k in fetched.value && k !in SetFields(event) ==> h.calls[1].body[k] == fetched.value[k])
    // HttpError 404 from either request is a 404; any other HttpError is a 500
    ensures service.Some? && fetched.HttpError? ==>
      h == Handled(NotFoundOr500(fetched.status), [GetCall(eventId)])
    ensures service.Some? && !fetched.Returned? ==> h.calls == [GetCall(eventId)]
    ensures |h.calls| == 2 && updated.HttpError? ==> h.reply == NotFoundOr500(updated.status)
    ensures h.reply.Ok? <==> |h.calls| == 2 && updated.Returned?
    ensures h.reply.Ok? ==> h.reply.value == updated.value
    // only `HttpError` is caught: any other exception from either request escapes the handler
    ensures service.Some? && fetched.OtherError? ==> h.reply == Uncaught
    ensures service.Some? && fetched.Returned? && fetched.value != map[] && updated.OtherError? ==>
      h.reply == Uncaught
  {
    var svc := CalendarService(service);
    if !svc.Ok? then Handled(Raised(svc.status, svc.detail), [])
    else
      match fetched
      case HttpError(s) => Handled(NotFoundOr500(s), [GetCall(eventId)])
      case OtherError => Handled(Uncaught, [GetCall(eventId)])
      case Returned(existing) =>
        if existing == map[] then Handled(Raised(404, EventNotFound), [GetCall(eventId)])
        else
          var body := Merge(existing, SetFields(event));
          Handled(UpdateReply(updated), [GetCall(eventId), UpdateCall(eventId, body)])
  }

  const DeletedReply: map<string, string> := map["status" := "Event deleted successfully"]

  /**
   * `delete_event_route(event_id)`: fetch the event, then delete it; an
   * unknown id fails at the fetch, before any delete is issued.
   */
  function DeleteEvent(eventId: string, service: Option<Auth.Service>,
                       fetched: CallOutcome<map<string, Json>>, deleted: CallOutcome<()>)
    : (h: Handled<map<string, string>>)
    ensures service.None? ==> h == Handled(Raised(500, ServiceInitFailed), [])
    // a delete is always preceded by a fetch of the same event that succeeded
    ensures DeleteCall(eventId) in h.calls <==> service.Some? && fetched.Returned?
    ensures DeleteCall(eventId) in h.calls ==> h.calls == [GetCall(eventId), DeleteCall(eventId)]
    ensures service.Some? && !fetched.Returned? ==> h.calls == [GetCall(eventId)]
    // success is exactly the fixed status message
    ensures h.reply.Ok? <==> service.Some? && fetched.Returned? && deleted.Returned?
    ensures h.reply.Ok? ==> h.reply.value == map["status" := "Event deleted successfully"]
    // HttpError 404 from either request is a 404; any other HttpError is a 500
    ensures h.reply.Raised? ==> h.reply.status == 404 || h.reply.status == 500
    ensures service.Some? && fetched.HttpError? ==>
      h.reply == Raised(if fetched.status == 404 then 404 else 500,
                        if fetched.status == 404 then EventNotFound else ErrorOccurred)
    ensures service.Some? && fetched.Returned? && deleted.HttpError? ==>
      h.reply == Raised(if deleted.status == 404 then 404 else 500,
                        if deleted.status == 404 then EventNotFound else ErrorOccurred)
    // only `HttpError` is caught: any other exception from either request escapes the handler
    ensures service.Some? && (fetched.OtherError? || (fetched.Returned? && deleted.OtherError?)) ==>
      h.reply == Uncaught
  {
    var svc := CalendarService(service);
    if !svc.Ok? then Handled(Raised(svc.status, svc.detail), [])
    else
      match fetched
      case HttpError(s) =>
        var r := NotFoundOr500(s);
        Handled(Raised(r.status, r.detail), [GetCall(eventId)])
      case OtherError => Handled(Uncaught, [GetCall(eventId)])
      case Returned(_) =>
        var calls := [GetCall(eventId), DeleteCall(eventId)];
        match deleted
        case Returned(_) => Handled(Ok(DeletedReply), calls)
        case HttpError(s) =>
          var r := NotFoundOr500(s);
          Handled(Raised(r.status, r.detail), calls)
        case OtherError => Handled(Uncaught, calls)
  }
}
