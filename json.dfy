/**
 * The loosely typed values that the client and the server exchange: JSON
 * scalars as JavaScript and Python see them, and objects as maps from keys
 * to such values.  A key that is absent from an object is `undefined` in
 * JavaScript and `None` for Python's `dict.get`; both read as `Null` through
 * `Get`.
 */
module Json {
  import Text

  datatype Value = Null | Str(s: string) | Num(n: int) | Bool(b: bool)

  type Object = map<string, Value>

  /** Truthiness; JavaScript and Python agree on every value of this type. */
  predicate Truthy(v: Value) {
    match v
    case Null => false
    case Str(s) => s != ""
    case Num(n) => n != 0
    case Bool(b) => b
  }

  /** JavaScript's `a || b`: the left operand when it is truthy, else the right one. */
  function Or(a: Value, b: Value): (r: Value)
    ensures Truthy(a) ==> r == a
    ensures !Truthy(a) ==> r == b
  {
    if Truthy(a) then a else b
  }

  /** Property read: `o.k` in JavaScript, `o.get(k)` in Python. */
  function Get(o: Object, k: string): (r: Value)
    ensures k in o ==> r == o[k]
    ensures k !in o ==> r == Null
  {
    if k in o then o[k] else Null
  }

  /** Python's `str(v)`, as `str.format` renders a value. */
  function PyStr(v: Value): string {
    match v
    case Null => "None"
    case Str(s) => s
    case Num(n) => Text.IntToDecimal(n)
    case Bool(b) => if b then "True" else "False"
  }
}
