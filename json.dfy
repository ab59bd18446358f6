/**
 * The values `json.loads` returns, as a tree, with the two Python operations
 * the resolver applies to them: truthiness (`if not x`) and `dict.get`.
 */
module JsonTree {

  /**
   * A parsed JSON document. Numbers are exact rationals: Python's `int` 400
   * and `float` 400.0 compare equal, and so do these.
   */
  datatype Json =
    | JNull
    | JBool(b: bool)
    | JNumber(n: real)
    | JString(s: string)
    | JArray(items: seq<Json>)
    | JObject(fields: map<string, Json>)

  /** Python truthiness: `None`, `False`, zero and empty containers are false. */
  predicate Truthy(j: Json)
  {
    match j
    case JNull => false
    case JBool(b) => b
    case JNumber(n) => n != 0.0
    case JString(s) => s != ""
    case JArray(items) => items != []
    case JObject(fields) => fields != map[]
  }

  /**
   * `d.get(key)` on a dict: the value, or `None` when the key is absent.
   * JSON `null` and a missing key both come back as `None`.
   */
  function Get(fields: map<string, Json>, key: string): (v: Json)
    ensures key in fields ==> v == fields[key]
    ensures key !in fields ==> v == JNull
  {
    if key in fields then fields[key] else JNull
  }
}
