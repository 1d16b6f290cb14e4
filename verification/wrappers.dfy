/** Failure-compatible result types shared by the lexer, parser and evaluator. */
module Wrappers {

  /** Something or nothing; stands for a Go pointer that may be nil. */
  datatype Option<+T> = None | Some(value: T)

  /** A value or the error that stopped the computation (Go's `(T, error)` pair). */
  datatype Result<+T, +E> = Success(value: T) | Failure(error: E) {

    predicate IsFailure() {
      Failure?
    }

    function PropagateFailure<U>(): Result<U, E>
      requires Failure?
    {
      Failure(error)
    }

    function Extract(): T
      requires Success?
    {
      value
    }
  }
}
