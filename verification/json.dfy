/** The JSON values a request body can carry once `express.json()` has parsed
    it. Numbers are integers here. */
module Json {
  import opened Wrappers

  datatype Json =
    | JNull
    | JBool(b: bool)
    | JNumber(n: int)
    | JString(s: string)
    | JArray(items: seq<Json>)
    | JObject(fields: map<string, Json>)

  /** `body[key]`: the member's value, `None` standing for `undefined`.
      Only objects have named members. */
  function Member(body: Json, key: string): (r: Option<Json>)
    ensures r.Some? <==> body.JObject? && key in body.fields
  {
    if body.JObject? && key in body.fields then Some(body.fields[key]) else None
  }

  /** JavaScript truthiness of a JSON value: `null`, `false`, `0` and `""`
      are falsy; every array and object is truthy. */
  predicate Truthy(v: Json) {
    match v
    case JNull => false
    case JBool(b) => b
    case JNumber(n) => n != 0
    case JString(s) => s != ""
    case _ => true
  }

  /** Truthiness of a possibly `undefined` member. */
  predicate TruthyMember(v: Option<Json>) {
    v.Some? && Truthy(v.value)
  }
}
