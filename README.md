# Calendar server credentials and handlers, modelled in Dafny

This project models the core of a small Google Calendar server: the
credential cascade that runs in front of every calendar request
(`app/auth.py`), the standalone OAuth setup script (`setup_oauth.py`), and
the decision logic of the calendar route handlers (`app/calendar_tools.py`).

- `Wrappers.dfy`: `Option`.
- `Json.dfy`: JSON values, and Python's `key in container` and `container[key]` on them.
- `Credentials.dfy`: the user credential (`UserToken`), the token file contents
  (`TokenRecord`: a loadable credential or unreadable content), the outcome of a
  write (`SaveOutcome`), and `TokenFile`, a class whose `record` field is the
  token file on disk.
- `Auth.dfy`: `get_credentials` and `create_service`. `Resolve` states the
  cascade's policy as a function. `GetCredentials` is the step-by-step
  procedure over a `TokenFile`, proved equal to `Resolve`. `Serve` chains
  calls, one per request, and lemmas prove what holds across a session.
- `Setup.dfy`: the setup script's `main`. `Setup` is its policy and `SetupMain`
  the procedure. It also holds the redirect-URI registration, the masked token
  line, and lemmas comparing the script's policy with the server's.
- `CalendarTools.dfy`: `get_calendar_service` and the list, create, update and
  delete handlers. Each is a function of what `create_service` returned and of
  the provider's answers. It yields the reply and the provider requests issued,
  in order.

Every Google library call is an oracle outcome in an environment value
(`AuthEnv`, `SetupEnv`), or a `CallOutcome` argument of a handler:
constructing a credential, refreshing it, the browser flow, `build` and the
calendar requests. `None`, `HttpError` and `OtherError` stand for a call that
raises. Environment variables and file existence are inputs too.

Notable behaviour of the code:
- a refresh that raises ends `get_credentials` with `None`; it does not fall
  through to the browser flow;
- a cached token is not checked against the requested scopes;
- the token file is written with a plain `open(path, "w")`. A write that fails
  after the open leaves a truncated, unreadable file (`WriteFailed`), and the
  next call then signs in again (`Auth.FailedWriteForcesSignIn`);
- `CREDENTIALS_CONFIG` never yields a credential: the call passes `scopes`
  positionally and raises (see "## Findings");
- no 401 retry happens. The 401 raised in `get_calendar_service` is turned into a 500.

A refreshed credential is reported with source `RefreshedUserToken` rather
than `CachedUserToken`, so that refreshes can be told apart from cache hits.

## Model

| member | source | states |
|---|---|---|
| Credentials.Parse | app/auth.py:77-83 | an absent or unreadable token file yields no credential; a stored one yields exactly its credential |
| Credentials.AfterSave | app/auth.py:108-113 | a successful write stores a credential that loads back as itself when it has a refresh token, and an unloadable record when it has none (`to_json` drops a missing refresh token and the loader requires it); a failed open leaves the file unchanged; a failed write leaves it unreadable |
| Credentials.TokenFile.Exists | app/auth.py:77 | true exactly when the token file exists |
| Credentials.TokenFile.Load | app/auth.py:78-80 | reading the file gives the parsed credential, or none |
| Credentials.TokenFile.Save | app/auth.py:108-113 | the file becomes the result of the write attempt; success is reported only for a completed write |
| Credentials.TokenFile.Remove | setup_oauth.py:26 | the token file no longer exists |
| Auth.Resolve | app/auth.py:50-118 | priority order: a working embedded config, then a working service-account file, each returned with no other effect. Every credential carries the requested scopes. A valid cached token is returned unchanged with no refresh, flow or write. A refresh happens iff the loaded token is invalid, expired and has a refresh token. The flow runs iff nothing is cached or refreshable and the client secret exists and loads. A failed refresh yields none and never reaches the flow. A successful refresh or flow returns exactly the new credential, with the token file the result of writing it. The file changes only then. A completed save loads back as the returned credential iff it has a refresh token. The exact failure condition is stated |
| Auth.GetCredentials | app/auth.py:35-118 | result, effects and new token file are those of `Resolve` for the given scopes, or for the default calendar scope when none are passed |
| Auth.ServiceFor | app/auth.py:135-146 | a service exists iff a credential was obtained and `build` succeeded, and it is built on that credential |
| Auth.CreateService | app/auth.py:120-146 | returns `ServiceFor` applied to what `Resolve` yields for the given or default scopes; the token file changes as in `Resolve` |
| Auth.Serve | app/calendar_tools.py:39-48 | one outcome per request; each call resolves against the token file the previous call left |
| Auth.EmbeddedConfigIgnored | app/auth.py:56-64 | when constructing the key from `CREDENTIALS_CONFIG` raises, as the call written at lines 59-60 always does, the cascade behaves exactly as if the variable were unset and never returns an embedded-config credential |
| Auth.ValidCacheServesEveryCall | app/auth.py:77-118 | once the token file holds a valid credential, every later call that reaches the user stages returns it with no refresh, flow or write, and leaves the file as it was |
| Auth.FileChangesOnlyByWrites | app/auth.py:107-113 | across any session, a call changes the token file only if it writes it |
| Auth.ServiceAccountSessionsKeepTokenFile | app/auth.py:55-74 | a session served entirely by service-account sources never touches the token file and performs no refresh or flow |
| Auth.AuthorizedOnceThenCached | app/auth.py:86-111 | a valid credential with a refresh token from a flow that is saved makes the next call a cache hit, with no second sign-in |
| Auth.SignInWithoutRefreshTokenRepeats | app/auth.py:78-111 | a flow credential without a refresh token is returned and saved, but the next call cannot load it and runs the flow again |
| Auth.FailedWriteForcesSignIn | app/auth.py:108-113 | a failed write after truncation still returns the credential, but the next call must run the flow again |
| Json.Contains | setup_oauth.py:52-53 | `in` is a key test on a dict, an element test on a list and a substring test on a string, and raises on any other value |
| Json.Lookup | setup_oauth.py:53-54 | a subscript by string succeeds only on a dict holding the key, and yields its value |
| SetupOAuth.WithUriList | setup_oauth.py:54 | replaces only `web.redirect_uris`; every other key at both levels is unchanged |
| SetupOAuth.AddRedirectUri | setup_oauth.py:51-54 | with a `web.redirect_uris` list, the redirect URI is a member afterwards. It is appended only if absent, the existing entries are kept in order, and nothing else changes. A missing `web` or `redirect_uris` leaves the configuration untouched |
| SetupOAuth.AddRedirectUriIdempotent | setup_oauth.py:52-54 | registering the redirect URI a second time changes nothing |
| SetupOAuth.SignIn | setup_oauth.py:39-73 | the flow is built from the registered configuration iff the client configuration loads and the registration succeeds; the sign-in runs iff that build also succeeds. The token is written iff the flow succeeds. Token information is printed iff the write completed, and it is the flow's credential |
| SetupOAuth.Setup | setup_oauth.py:16-75 | an unreadable token file is deleted and treated as absent. Without a loadable token file the script signs in whenever the client secret loads, registers and builds a flow. A valid credential causes no refresh, flow or write. A refresh happens iff the loaded token is invalid, expired and has a refresh token. A refreshed token is not written back. A failed refresh falls through to sign-in. Only a completed sign-in writes the file; the file is then the result of writing the flow's credential, which is printed iff the write completed. A missing client secret prevents both the flow and the write. The flow gets the configuration with the redirect URI registered. Token information is printed exactly for a loaded credential that is not refreshed, a successful refresh or a completed save; every early return prints nothing |
| SetupOAuth.SetupMain | setup_oauth.py:16-78 | the printed credential, the effects, the configuration given to the flow and the new token file are those of `Setup` |
| SetupOAuth.LastChars | setup_oauth.py:80 | Python's `s[-n:]`: a suffix of length `min(n, len(s))` |
| SetupOAuth.TokenLine | setup_oauth.py:80 | `None` without a token, otherwise `...` followed by exactly the last `min(10, len)` characters of the token |
| SetupOAuth.StaleTokenSkipsSignIn | setup_oauth.py:29-44 | as written, a loaded credential that is invalid and not refreshable causes no refresh and no sign-in, and is printed as is |
| SetupOAuth.SetupIntended | setup_oauth.py:28-44 | with the line-39 check corrected, any credential printed without a sign-in is valid, and every stale loaded credential leads to sign-in |
| SetupOAuth.IntendedAgreesOffTheStalePath | setup_oauth.py:29-39 | the corrected script behaves like the original wherever the stale-credential path is not taken |
| SetupOAuth.RefreshFailurePolicies | setup_oauth.py:29-39 | after a failed refresh the server's cascade fails without a flow, while the setup script goes on to sign in |
| SetupOAuth.RefreshSuccessPolicies | setup_oauth.py:29-33 | after a successful refresh the server writes the token file, while the setup script leaves it unchanged |
| CalendarTools.CalendarService | app/calendar_tools.py:39-54 | a service is returned iff `create_service` produced one. Every failure is a 500, so the 401 for a missing service never reaches the client |
| CalendarTools.NotFoundOr500 | app/calendar_tools.py:142-148 | an `HttpError` 404 becomes 404 "Event not found"; any other status becomes 500 |
| CalendarTools.ListEvents | app/calendar_tools.py:57-72 | one list request with `max_results`, defaulting to 10. The reply is the result's `items`, or an empty list when it has none. An `HttpError` is a 500; any other exception escapes unmapped |
| CalendarTools.Strings | app/calendar_tools.py:36 | attendee names become JSON strings, in order |
| CalendarTools.EventDict | app/calendar_tools.py:30-36 | `event.dict()` has exactly the six fields: the request's summary, start and end, and description, timezone and attendees with their defaults (`null`, `UTC`, `null`) when unset |
| CalendarTools.SetFields | app/calendar_tools.py:137 | `exclude_unset` keeps the required fields and exactly the optional fields the request set, with the values of `event.dict()` |
| CalendarTools.Merge | app/calendar_tools.py:135-138 | the merged body has every key of both maps; keys in the request win and the other keys keep their existing values |
| CalendarTools.CreateEvent | app/calendar_tools.py:85-109 | one insert request with `event.dict()`. The 400 branch is never taken. The reply is the created event; an `HttpError` is a 500 and any other exception escapes unmapped |
| CalendarTools.UpdateEvent | app/calendar_tools.py:113-148 | the fetch comes first. An empty event is a 404, and a fetch that fails in any way issues no further request. The update body keeps every existing key, with fields set in the request overriding. A 404 `HttpError` from either request is a 404 and any other is a 500; any other exception escapes unmapped |
| CalendarTools.DeleteEvent | app/calendar_tools.py:152-177 | a delete is issued only after a successful fetch of the same event. Success is exactly `{"status": "Event deleted successfully"}`. A 404 `HttpError` from either request is a 404 and any other is a 500; any other exception escapes unmapped |

## Findings

| source | as written | input that shows it | evidently intended | confidence | as-written member | corrected member |
|---|---|---|---|---|---|---|
| setup_oauth.py:39 | `if not creds:`. A loaded credential object is always truthy, so an invalid credential that was not refreshed skips sign-in | a `token.json` whose access token has expired and whose `refresh_token` is present but null or empty | sign in whenever no valid credential is available (`if not creds or not creds.valid:`), as the comment on line 28 says | medium (assumes the library's credential class defines no truth value); not executed | SetupOAuth.StaleTokenSkipsSignIn | SetupOAuth.SetupIntended |
| app/auth.py:59-60 | `from_service_account_info(json.loads(...), scopes)`. The method takes the key info and keyword arguments only, so the positional `scopes` raises `TypeError`, which line 63 catches; `CREDENTIALS_CONFIG` is never used | any valid base64-encoded service-account key in `CREDENTIALS_CONFIG` | `from_service_account_info(info, scopes=scopes)`, as the file variant at line 70 is called | medium (rests on the library's signature, which is outside the repository); not executed | Auth.EmbeddedConfigIgnored | Auth.Resolve |

## Left out

- `main.py` and `test_import.py`: these hold the application setup, CORS, the tool-protocol bridge, the keep-alive streaming endpoints and server startup. They are plumbing with no credential or calendar decision in them.
- The Google client library: credential construction from the embedded config and the service-account file, `valid`/`expired`, refresh, the browser flow, `build` and the calendar requests. Each is an oracle outcome, and their internals are foreign code. The token file's round trip (`to_json`, then `from_authorized_user_info`) is modelled by `Credentials.AfterSave`.
- Credentials.AfterSave: a refresh token that is the empty string is treated like a missing one. `to_json` would keep it and the file would load back; the boolean `hasRefreshToken` cannot tell the two apart.
- Time: whether a credential is valid or expired is a boolean stored with it. The passage of time between calls is not modelled, so the session lemmas assume the stored token keeps its status.
- Base64 and JSON decoding of `CREDENTIALS_CONFIG`, and the service-account key file: each is a single "loads" boolean. Only success or failure affects the cascade.
- File paths and the `TOKEN_PATH`/`CREDENTIALS_PATH`/`SERVICE_ACCOUNT_PATH` variables: each `TokenFile` object stands for one path.
- Arguments passed only to library calls: the scopes given to the setup script's flow, the redirect URI `http://localhost:8080`, the ports 8080 and 3000, and the list request's `timeMin`, `calendarId`, `singleEvents` and `orderBy`. They do not affect any decision modelled here.
- Logging, the script's other printed lines (expiry, scopes, refresh token), `init_oauth_flow` and the command-line entry points: these are user messaging only.
- `SetupMain`: the in-place `append` to the `redirect_uris` list is modelled as computing the updated configuration value and reassigning the local. JSON values share no structure, so no aliasing is lost.
- Building the flow (`from_client_secrets_file`, `from_client_config`) is a separate "builds" boolean (`flowBuilds`); `flowStarted` means the browser sign-in was run.
- `SetupMain`: `os.remove` is assumed to succeed. If it fails, the exception escapes `main`.
- The duplicate `GET /events` registration (`list_events_route`) is a routing concern: it only calls `list_events`.
- Handler error details are kinds (`EventNotFound`, `ErrorOccurred`, ...). The message text, which embeds the exception, is not modelled.
- The `Event` and `EventTime` request models: no handler uses them.
- Concurrency: the code has no locking, no single-flight sign-in and no atomic write. It also has no scope check on cached tokens, no 401 retry and no timeouts, so none of these is modelled.
