/**
 * The decoded JSON value the task server hands to the view unchanged: whatever
 * `request.json()` produced for the body of POST /tasks.
 */
module Json {

  datatype Json =
    | JNull
    | JBool(b: bool)
    | JNum(n: int)
    | JStr(s: string)
    | JArray(items: seq<Json>)
    | JObject(fields: map<string, Json>)

  /** Python truthiness of the value `json.loads` builds for `j` (`if x:` / `if not x:`). */
  predicate Truthy(j: Json)
    ensures Truthy(j) <==>
      j != JNull && j != JBool(false) && j != JNum(0) && j != JStr("")
      && j != JArray([]) && j != JObject(map[])
  {
    match j
    case JNull => false
    case JBool(b) => b
    case JNum(n) => n != 0
    case JStr(s) => s != ""
    case JArray(a) => a != []
    case JObject(m) => m != map[]
  }
}
