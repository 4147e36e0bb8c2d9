/** Decoded JSON values and the handful of Python operations the script
    applies to them: truthiness, `or`, `dict.get`, `int()` and `str()`.
    Floating-point numbers are not part of this value model. */
module Json {
  import opened Results
  import opened Numerals

  datatype Value =
    | Null
    | Bool(b: bool)
    | Int(n: int)
    | Str(s: string)
    | Arr(items: seq<Value>)
    | Obj(fields: map<string, Value>)

  /** Python truthiness: `None`, `False`, `0` and empty strings, lists and dicts are false. */
  predicate Truthy(v: Value) {
    match v
    case Null => false
    case Bool(b) => b
    case Int(n) => n != 0
    case Str(s) => s != ""
    case Arr(xs) => |xs| > 0
    case Obj(m) => |m| > 0
  }

  /** Python's `a or b`. */
  function Or(a: Value, b: Value): Value {
    if Truthy(a) then a else b
  }

  /** `d.get(key, default)` on a dict. */
  function GetOr(m: map<string, Value>, key: string, default: Value): Value {
    if key in m then m[key] else default
  }

  /** `int(v)`; `None` where Python raises (`None`, lists and dicts raise
      `TypeError`, a malformed string raises `ValueError`). */
  function ToInt(v: Value): Option<int> {
    match v
    case Int(n) => Some(n)
    case Bool(b) => Some(if b then 1 else 0)
    case Str(s) => ParseInt(s)
    case _ => None
  }

  /** The text `str(v)` produces. For a list or a dict it is Python's
      `repr`, which this model keeps symbolic. */
  datatype Text = Literal(s: string) | ReprOf(v: Value)

  function ToText(v: Value): Text {
    match v
    case Null => Literal("None")
    case Bool(b) => Literal(if b then "True" else "False")
    case Int(n) => Literal(IntToString(n))
    case Str(s) => Literal(s)
    case _ => ReprOf(v)
  }
}
