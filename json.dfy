/** JSON documents as Python's `json` module hands them to the pipeline. */
module Json {

  /** A decoded JSON value. Numbers are integers; objects map string keys to values. */
  datatype Value =
    | Null
    | Bool(b: bool)
    | Num(n: int)
    | Str(s: string)
    | Arr(items: seq<Value>)
    | Obj(fields: map<string, Value>)

  /** Python truthiness of the decoded value (`if x:`). */
  predicate Truthy(v: Value)
  {
    match v
    case Null => false
    case Bool(b) => b
    case Num(n) => n != 0
    case Str(s) => s != ""
    case Arr(a) => |a| > 0
    case Obj(m) => |m| > 0
  }

  /** `d.get(key)` on a decoded object: the value, or `None` when the key is absent. */
  function Get(m: map<string, Value>, key: string): Value
  {
    if key in m then m[key] else Null
  }
}
