/**
 * The values a JSON request body can hold once JavaScript has parsed it, with
 * the two operations the route handlers apply to them: truthiness (`!x`) and
 * property read through object destructuring (`const { k } = body`).
 */
module JsValues {
  import opened Wrappers
  import opened JsText

  /** Numbers are written as reals: JSON has no NaN, and only zero is falsy. */
  datatype JsValue =
    | Undefined
    | Null
    | Bool(b: bool)
    | Number(n: real)
    | Str(s: string)
    | Array(elems: seq<JsValue>)
    | Object(props: map<string, JsValue>)

  /** JavaScript's ToBoolean: `undefined`, `null`, `false`, `0` and `''` are falsy. */
  predicate Truthy(v: JsValue) {
    match v
    case Undefined => false
    case Null => false
    case Bool(b) => b
    case Number(n) => n != 0.0
    case Str(s) => s != []
    case Array(_) => true
    case Object(_) => true
  }

  /**
   * The property names the route handlers read: `text`, `name` and `words` of
   * a request body, and `audio` of the backend's answer. None of them exists on
   * a primitive, an array or `Object.prototype`.
   */
  const RouteKeys: set<string> := {"text", "name", "words", "audio"}

  /**
   * Reading property `key` of `v`, as `const { key } = v` or `v.key` does.
   * Reading a property of `null` or `undefined` throws a TypeError (None); an
   * object yields its own property or `undefined`, and so, for the names in
   * `RouteKeys`, does every other value.
   */
  function Property(v: JsValue, key: string): (r: Option<JsValue>)
    requires key in RouteKeys
    ensures r.None? <==> (v.Null? || v.Undefined?)
    ensures v.Object? && key in v.props ==> r == Some(v.props[key])
    ensures v.Object? && key !in v.props ==> r == Some(Undefined)
    ensures !v.Object? && r.Some? ==> r == Some(Undefined)
  {
    match v
    case Undefined => None
    case Null => None
    case Object(props) => if key in props then Some(props[key]) else Some(Undefined)
    case _ => Some(Undefined)
  }

  /** `Array.isArray(v) && v.length > 0`, the same as `!(!v || !Array.isArray(v) || v.length === 0)`. */
  predicate IsNonEmptyArray(v: JsValue) {
    v.Array? && |v.elems| > 0
  }

  /**
   * The check `!(!v || typeof v !== 'string' || v.trim() === '')`: a string with
   * at least one character that is not white space. Falsy values fail the first
   * test, non-strings the second, blank strings the third.
   */
  predicate IsNonBlankString(v: JsValue)
    ensures IsNonBlankString(v) <==> v.Str? && !AllSpace(v.s)
  {
    !(!Truthy(v) || !v.Str? || Trim(v.s) == [])
  }

  /** The `{ error: message }` body every route sends on failure. */
  function ErrorBody(message: string): JsValue {
    Object(map["error" := Str(message)])
  }

  /** What a `catch (error)` clause receives. */
  datatype Thrown = ErrorObject(message: string) | NonError

  /** `error instanceof Error ? error.message : fallback`. */
  function MessageOf(e: Thrown, fallback: string): (m: string)
    ensures e.ErrorObject? ==> m == e.message
    ensures e.NonError? ==> m == fallback
  {
    match e
    case ErrorObject(msg) => msg
    case NonError => fallback
  }

  /**
   * The TypeError that destructuring `null` or `undefined` throws; its message
   * is the engine's own wording, which is not modelled.
   */
  const DestructureTypeError: Thrown := ErrorObject("Cannot destructure property of null or undefined")

  /**
   * The TypeError that reading a property of `null` or `undefined` throws; its
   * message is the engine's own wording, which is not modelled either.
   */
  const PropertyReadTypeError: Thrown := ErrorObject("Cannot read properties of null or undefined")

  /** The body of an incoming request: `await request.json()` either parses or throws. */
  datatype RequestBody = Parsed(value: JsValue) | Unparsable(error: Thrown)

  /** The outcome of `axios.post(url, body)`: the response's `data`, or a thrown error. */
  datatype BackendReply = Data(data: JsValue) | Failed(error: Thrown)

  /**
   * What a route handler does: the body it forwards to the backend, if it gets
   * that far, and the HTTP status and JSON body it answers with.
   */
  datatype Handled = Handled(forwarded: Option<JsValue>, status: nat, body: JsValue)
}
