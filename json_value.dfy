/**
 * A parsed JSON document, as `serde_json::Value` holds it. Parsing and
 * serialising belong to serde_json; only the accessors the components use
 * are modelled.
 */
module JsonValue {
  import opened Optional

  datatype Json =
    | Null
    | Bool(b: bool)
    | Number(literal: string)
    | Str(s: string)
    | Array(items: seq<Json>)
    | Object(members: map<string, Json>)

  /** `value.get(key)`: a member of an object; nothing for any other value. */
  function Get(value: Json, key: string): (r: Option<Json>)
    ensures r.Some? <==> value.Object? && key in value.members
    ensures r.Some? ==> r.value == value.members[key]
  {
    if value.Object? && key in value.members then Some(value.members[key]) else None
  }

  /** `value.as_str()`. */
  function AsStr(value: Json): (r: Option<string>)
    ensures r.Some? <==> value.Str?
    ensures r.Some? ==> r.value == value.s
  {
    if value.Str? then Some(value.s) else None
  }

  /** `value.as_bool()`. */
  function AsBool(value: Json): (r: Option<bool>)
    ensures r.Some? <==> value.Bool?
    ensures r.Some? ==> r.value == value.b
  {
    if value.Bool? then Some(value.b) else None
  }

  /** `value.as_array()`. */
  function AsArray(value: Json): (r: Option<seq<Json>>)
    ensures r.Some? <==> value.Array?
    ensures r.Some? ==> r.value == value.items
  {
    if value.Array? then Some(value.items) else None
  }
}
