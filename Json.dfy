/**
 * JSON documents as Python's `json.load` returns them, and the two Python
 * operations the configuration code applies to them: the membership test
 * `key in container` and the subscript `container[key]`.
 */
module Json {
  import opened Wrappers

  datatype Json =
    | JNull
    | JBool(b: bool)
    | JNumber(n: int)
    | JString(s: string)
    | JArray(items: seq<Json>)
    | JObject(fields: map<string, Json>)

  /** `p` occurs as a contiguous piece of `s` (Python's `p in s` on two strings). */
  predicate IsSubstring(p: string, s: string)
    decreases |s|
  {
    p <= s || (s != [] && IsSubstring(p, s[1..]))
  }

  /**
   * Python's `key in container` for a string key: a key lookup on a dict,
   * an element test on a list, a substring test on a string, and a
   * `TypeError` (None here) on anything else.
   */
  function Contains(container: Json, key: string): (r: Option<bool>)
    ensures r.None? <==> !(container.JObject? || container.JArray? || container.JString?)
    ensures container.JObject? ==> r == Some(key in container.fields)
    ensures container.JArray? ==> r == Some(JString(key) in container.items)
    ensures container.JString? ==> r == Some(IsSubstring(key, container.s))
  {
    match container
    case JObject(m) => Some(key in m)
    case JArray(xs) => Some(JString(key) in xs)
    case JString(s) => Some(IsSubstring(key, s))
    case _ => None
  }

  /**
   * Python's `container[key]` for a string key: only a dict holding the key
   * answers; a missing key (`KeyError`) and every other container
   * (`TypeError`) raise, which is None here.
   */
  function Lookup(container: Json, key: string): (r: Option<Json>)
    ensures r.Some? <==> container.JObject? && key in container.fields
    ensures r.Some? ==> r.value == container.fields[key]
  {
    if container.JObject? && key in container.fields then Some(container.fields[key]) else None
  }
}
