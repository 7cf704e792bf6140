/**
  What the route handlers see of a request: its method, its `Cookie` header
  and the outcome of `request.json()`, plus JavaScript truthiness of the
  values read from the parsed body.
*/
module Http {

  import opened Wrappers
  import opened Text

  /** A value read from the parsed JSON body with `body.name` or destructuring. */
  datatype JsValue =
    | Undefined
    | Null
    | Boolean(b: bool)
    | Number(n: int)
    | String(s: Str)
    | Structured  // an object or an array

  /** `!!v` in JavaScript. */
  predicate Truthy(v: JsValue) {
    match v
    case Undefined => false
    case Null => false
    case Boolean(b) => b
    case Number(n) => n != 0
    case String(s) => s != []
    case Structured => true
  }

  /**
    The outcome of `await request.json()`. A body that is not JSON rejects
    with a `SyntaxError` carrying `message`; a body that is the JSON `null`
    throws as soon as a property is read from it; any other JSON value is
    seen through its own properties (none, for a number, a string, a boolean
    or an array, among the names the routes read).
  */
  datatype Body =
    | Unparsable(message: Str)
    | NullRoot
    | Fields(fields: map<Str, JsValue>)

  /** `body.name` on a body that is neither unparsable nor `null`. */
  function Get(fields: map<Str, JsValue>, name: Str): JsValue {
    if name in fields then fields[name] else Undefined
  }

  datatype Request = Request(httpMethod: Str, cookie: Option<Str>, body: Body)

  const Post: Str := Lit("POST")
}
