/**
 * The loosely typed JSON document of `serde_json::Value`, and the accessors
 * the response extractor chains together: `get`, `as_str`, `as_array`.
 * Numbers play no role in the core and are kept as integers.
 */
module JsonValue {
  import opened Wrappers

  datatype Json =
    | JNull
    | JBool(b: bool)
    | JNum(n: int)
    | JStr(s: string)
    | JArr(items: seq<Json>)
    | JObj(fields: map<string, Json>)

  /** `v.get(key)`: the member `key` of an object; nothing for a missing key or a non-object. */
  function Get(v: Json, key: string): (r: Option<Json>)
    ensures r.Some? <==> v.JObj? && key in v.fields
    ensures r.Some? ==> r.value == v.fields[key]
  {
    if v.JObj? && key in v.fields then Some(v.fields[key]) else None
  }

  /** `v.get(key).and_then(|x| x.as_str())`. */
  function GetStr(v: Json, key: string): (r: Option<string>)
    ensures r.Some? <==> Get(v, key).Some? && Get(v, key).value.JStr?
    ensures r.Some? ==> Get(v, key) == Some(JStr(r.value))
  {
    match Get(v, key)
    case Some(JStr(s)) => Some(s)
    case _ => None
  }

  /** `v.get(key).and_then(|x| x.as_array())`. */
  function GetArr(v: Json, key: string): (r: Option<seq<Json>>)
    ensures r.Some? <==> Get(v, key).Some? && Get(v, key).value.JArr?
    ensures r.Some? ==> Get(v, key) == Some(JArr(r.value))
  {
    match Get(v, key)
    case Some(JArr(items)) => Some(items)
    case _ => None
  }
}
