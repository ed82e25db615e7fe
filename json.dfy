/**
 * The JSON values a route handler receives from `request.json()`, and the two
 * JavaScript operations the handlers apply to them: object destructuring
 * (`const { a, b } = body`) and truthiness (`if (!a)`).
 */
module Json {
  import opened Wrappers

  /** A parsed JSON value. The contents of arrays are not needed by the model. */
  datatype JsonValue =
    | JNull
    | JBool(b: bool)
    | JNum(n: real)
    | JStr(s: string)
    | JArray
    | JObject(fields: map<string, JsonValue>)

  /** A request body: either text that `request.json()` rejects, or a JSON value. */
  datatype Body = Unparseable | Parsed(value: JsonValue)

  /**
   * Destructuring reads properties of any value except `null` (which throws a
   * TypeError); `request.json()` itself throws on unparseable text.
   */
  predicate Destructurable(body: Body) {
    body.Parsed? && !body.value.JNull?
  }

  /**
   * The value a destructured property takes; `None` stands for `undefined`.
   * Only an object has own properties named like the route's fields.
   */
  function Property(v: JsonValue, name: string): Option<JsonValue>
  {
    if v.JObject? && name in v.fields then Some(v.fields[name]) else None
  }

  /** JavaScript truthiness of a property value: `undefined`, `null`, `false`, `0` and `""` are falsy. */
  predicate Truthy(p: Option<JsonValue>) {
    match p
    case None => false
    case Some(JNull) => false
    case Some(JBool(b)) => b
    case Some(JNum(n)) => n != 0.0
    case Some(JStr(s)) => s != ""
    case Some(JArray) => true
    case Some(JObject(_)) => true
  }
}
