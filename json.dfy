/** A parsed JSON document, as `json.loads` returns it, and Python's
    subscript `value[key]` on it. */
module Json {
  import opened Wrappers

  /** `null`, booleans, numbers, strings, arrays (Python lists) and objects
      (Python dicts). */
  datatype Json =
    | JNull
    | JBool(b: bool)
    | JNumber(n: real)
    | JString(s: string)
    | JArray(items: seq<Json>)
    | JObject(members: map<string, Json>)

  /** `value[key]`: the member of a dict; a `KeyError` when the dict lacks
      it; a `TypeError` when the value is not a dict (a list needs an integer
      index, and the other values cannot be subscripted by a string). */
  function Member(value: Json, key: string): (r: Result<Json>)
    ensures r.Success? <==> value.JObject? && key in value.members
    ensures r.Success? ==> r.value == value.members[key]
    ensures r.Failure? ==> r.error == (if value.JObject? then KeyError(key) else TypeError)
  {
    match value
    case JObject(members) => if key in members then Success(members[key]) else Failure(KeyError(key))
    case _ => Failure(TypeError)
  }
}
