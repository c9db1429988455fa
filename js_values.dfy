/**
 * The JavaScript values that reach the request validator (parsed JSON) and
 * the exception filter (thrown values and exception payloads).
 */
module JsValues {
  import opened Wrappers

  /** A JavaScript value; numbers are restricted to integers. */
  datatype JsValue =
    | Undefined
    | Null
    | Bool(b: bool)
    | Num(n: int)
    | Str(s: string)
    | Arr(elems: seq<JsValue>)
    | Obj(props: map<string, JsValue>)

  /** JavaScript truthiness: `undefined`, `null`, `false`, `0` and `""` are falsy. */
  predicate Truthy(v: JsValue) {
    match v
    case Undefined => false
    case Null => false
    case Bool(b) => b
    case Num(n) => n != 0
    case Str(s) => s != ""
    case Arr(_) => true
    case Obj(_) => true
  }

  /** `v === null || v === undefined`: the values whose properties cannot be read. */
  predicate IsNullish(v: JsValue) {
    v.Undefined? || v.Null?
  }

  /** `typeof v === 'object'`, which holds for `null` as well as for arrays and objects. */
  predicate IsObjectType(v: JsValue) {
    v.Null? || v.Arr? || v.Obj?
  }

  /**
   * The property read `v.message`. `None` is the TypeError that reading a
   * property of `null` or `undefined` throws; primitives and arrays have no
   * `message` property and read as `undefined`.
   */
  function ReadMessage(v: JsValue): (r: Option<JsValue>)
    ensures r.None? <==> IsNullish(v)
    ensures v.Obj? && "message" in v.props ==> r == Some(v.props["message"])
    ensures !(v.Obj? && "message" in v.props) && r.Some? ==> r == Some(Undefined)
  {
    match v
    case Undefined => None
    case Null => None
    case Obj(props) => Some(if "message" in props then props["message"] else Undefined)
    case _ => Some(Undefined)
  }
}
