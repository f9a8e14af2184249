/** Failure-carrying result types shared by every module of the Connect-N model. */
module Wrappers {

  /** Python's `None` or a present value. */
  datatype Option<+T> = None | Some(value: T)

  /** The exceptions the modelled code raises; each one ends the operation that raised it. */
  datatype Fault =
    | AssertionError
    | IndexError
    | TypeError
    | ValueError
    | RuntimeError(message: string)
    | SystemExit

  /** The outcome of an operation that may raise. */
  datatype Result<+T> = Ok(value: T) | Fail(fault: Fault) {
    predicate IsFailure() {
      Fail?
    }

    function PropagateFailure<U>(): Result<U>
      requires Fail?
    {
      Fail(fault)
    }

    function Extract(): T
      requires Ok?
    {
      value
    }
  }

  function Min(a: int, b: int): int {
    if a <= b then a else b
  }

  function Max(a: int, b: int): int {
    if a >= b then a else b
  }
}
