/** Failure-compatible wrappers: `Option` for nullable values and `Result` for
    operations that can throw. A thrown exception is a `Failure`, and an
    operation that fails leaves every store unchanged. */
module Wrappers {

  /** A value that may be absent (Java `null`, JavaScript `undefined`/`null`). */
  datatype Option<+T> = None | Some(value: T) {

    /** The carried value, or `default` when absent. */
    function GetOr(default: T): T {
      match this
      case Some(v) => v
      case None => default
    }
  }

  /** Either the value an operation returns or the error it throws. */
  datatype Result<+T, +E> = Success(value: T) | Failure(error: E) {

    predicate IsFailure() {
      Failure?
    }

    function PropagateFailure<U>(): Result<U, E>
      requires Failure?
    {
      Failure(error)
    }

    function Extract(): T
      requires Success?
    {
      value
    }
  }
}
