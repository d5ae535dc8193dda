/** JavaScript values as they appear in the plain objects this system passes around. */
module Json {
  import opened Wrappers

  /** A JSON value; numbers are integers in this model. */
  datatype Json =
    | JNull
    | JBool(b: bool)
    | JNumber(n: int)
    | JString(s: string)
    | JArray(items: seq<Json>)
    | JObject(fields: map<string, Json>)

  /** JavaScript truthiness: `null`, `false`, `0` and `""` are falsy (as is `undefined`). */
  predicate Truthy(v: Json) {
    match v
    case JNull => false
    case JBool(b) => b
    case JNumber(n) => n != 0
    case JString(s) => s != ""
    case _ => true
  }

  /** The falsy values are exactly `null`, `false`, `0` and the empty string. */
  lemma FalsyValues(v: Json)
    ensures !Truthy(v) <==> v == JNull || v == JBool(false) || v == JNumber(0) || v == JString("")
  {
  }

  /** `v[key]`: a property of an object, or `undefined` (`None`) for a missing key or a non-object. */
  function Prop(v: Json, key: string): (r: Option<Json>)
    ensures r.Some? <==> v.JObject? && key in v.fields
  {
    if v.JObject? && key in v.fields then Some(v.fields[key]) else None
  }

  /** `a ?? b` when `b` is defined: `b` when `a` is `null` or `undefined`. */
  function Coalesce(a: Option<Json>, b: Json): (r: Json)
    ensures a.None? || a == Some(JNull) ==> r == b
    ensures a.Some? && a != Some(JNull) ==> r == a.value
  {
    if a.None? || a == Some(JNull) then b else a.value
  }
}
