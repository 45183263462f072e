/** Failure-compatible datatypes standing for the sources' optional values and thrown errors. */
module Wrappers {

  datatype Option<+T> = None | Some(value: T)

  /** Success or Failure; usable with `:-`, which propagates a failure the way a throw does. */
  datatype Result<+T, +E> = Success(value: T) | Failure(error: E) {
    predicate IsFailure() {
      Failure?
    }

    function PropagateFailure<U>(): Result<U, E>
      requires Failure?
    {
      Failure(error)
    }

    function Extract(): T
      requires Success?
    {
      value
    }
  }
}
