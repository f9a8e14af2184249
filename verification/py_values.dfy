/** Dynamically typed Python values, for the helpers that inspect the types of their
    arguments (`is_valid_run`, `is_valid_dict`, `possessify`). */
module PyValues {

  datatype Value =
    | NoneV
    | BoolV(b: bool)
    | IntV(i: int)
    | StrV(s: string)
    | TupleV(items: seq<Value>)
    | DictV(entries: map<Value, Value>)
    | OtherV

  /** `isinstance(v, int)`: in Python a `bool` is an `int` too. */
  predicate IsInt(v: Value) {
    v.IntV? || v.BoolV?
  }

  /** The integer an `int` (or `bool`) value stands for. */
  function IntOf(v: Value): int
    requires IsInt(v)
  {
    match v
    case IntV(i) => i
    case BoolV(b) => if b then 1 else 0
  }
}
