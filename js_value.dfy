/** Values of the JavaScript language as far as TaskAssist.js observes them. */
module JsValue {

  datatype Option<+T> = None | Some(value: T)

  /** A JavaScript value. Objects are plain key-value records, arrays are ordered
      sequences, and `undefined` and `null` are distinct. */
  datatype Value =
    | Undefined
    | Null
    | Bool(b: bool)
    | Num(n: int)
    | Str(s: string)
    | Arr(elems: seq<Value>)
    | Obj(fields: map<string, Value>)

  /** The `typeof` operator. Its well-known quirk is that `typeof null` is "object". */
  function TypeOf(v: Value): (r: string)
    ensures r == "object" <==> v.Null? || v.Arr? || v.Obj?
    ensures r == "undefined" <==> v.Undefined?
  {
    match v
    case Undefined => "undefined"
    case Null => "object"
    case Bool(_) => "boolean"
    case Num(_) => "number"
    case Str(_) => "string"
    case Arr(_) => "object"
    case Obj(_) => "object"
  }

  /** `Array.isArray`. */
  predicate IsArray(v: Value) {
    v.Arr?
  }

  /** One side of the test objectMerge makes before it recurses: `typeof v === 'object'`
      and `!Array.isArray(v)`. Plain objects pass it, and so does `null`. */
  predicate IsNonArrayObject(v: Value) {
    TypeOf(v) == "object" && !IsArray(v)
  }

  /** Reading property `k` of a record: `undefined` when the key is absent. */
  function Get(m: map<string, Value>, k: string): (r: Value)
    ensures k !in m ==> r.Undefined?
  {
    if k in m then m[k] else Undefined
  }
}
