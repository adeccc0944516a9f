/** Failure-compatible result types shared by every module of the model. */
module Wrappers {

  datatype Option<+T> = None | Some(value: T)

  /** An operation that either yields a value or fails with an error. */
  datatype Result<+T, +E> = Success(value: T) | Failure(error: E) {
    predicate IsFailure() { Failure? }
    function PropagateFailure<U>(): Result<U, E>
      requires Failure?
    {
      Failure(error)
    }
    function Extract(): T
      requires Success?
    {
      value
    }
  }

  /** An operation that either passes or fails with an error, carrying no value. */
  datatype Outcome<+E> = Pass | Fail(error: E)
}
