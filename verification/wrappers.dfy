/** Failure-compatible wrappers standing in for Java's null results and
    thrown exceptions. Both can be used with `:-`. */
module Wrappers {

  /** A possibly-null reference. */
  datatype Option<+T> = None | Some(value: T)

  /** Either a value or the exception that replaced it. */
  datatype Result<+T, +E> = Success(value: T) | Failure(error: E) {

    predicate IsFailure() {
      Failure?
    }

    function PropagateFailure<U>(): Result<U, E>
      requires Failure?
    {
      Failure(error)
    }

    function Extract(): T
      requires Success?
    {
      value
    }
  }
}
