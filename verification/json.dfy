/**
 * The untyped values that reach the schema-coercion boundary: whatever
 * `json.loads` can hand back (objects, arrays, strings, numbers, booleans and
 * `null`), with Python's truthiness and Python's `float()` on them.
 */
module Json {
  import opened Wrappers

  datatype Value =
    | Null
    | Bool(b: bool)
    | Num(x: real)
    | Str(s: string)
    | Array(items: seq<Value>)
    | Object(fields: map<string, Value>)

  /** Python's `bool(v)`: `None`, `False`, zero and empty containers are false. */
  predicate Truthy(v: Value) {
    match v
    case Null => false
    case Bool(b) => b
    case Num(x) => x != 0.0
    case Str(s) => s != []
    case Array(items) => items != []
    case Object(fields) => fields != map[]
  }

  /** `d.get(key, default)` on a dictionary. */
  function Get(d: map<string, Value>, key: string, default: Value): Value {
    if key in d then d[key] else default
  }

  /**
   * Python's `float(v)`, `None` where it raises. `parseFloat` stands for
   * `float()` applied to a string, which this model leaves uninterpreted.
   * `float(True)` is 1.0 and `float(False)` is 0.0; `None`, lists and
   * dictionaries raise `TypeError`.
   */
  function FloatOf(v: Value, parseFloat: string -> Option<real>): (r: Option<real>)
    ensures v.Num? ==> r == Some(v.x)
    ensures v.Str? ==> r == parseFloat(v.s)
    ensures (v.Null? || v.Array? || v.Object?) ==> r == None
  {
    match v
    case Num(x) => Some(x)
    case Bool(b) => Some(if b then 1.0 else 0.0)
    case Str(s) => parseFloat(s)
    case _ => None
  }
}
