/** The two failure-compatible wrappers of the model: `Option` for a value
    that may be absent (Python's `None`, a parse that did not succeed) and
    `Result` for a computation that either returns or raises. Both can be
    used with `:-`, which plays the part of an exception propagating. */
module Fallible {

  datatype Option<+T> = None | Some(value: T)

  datatype Result<+T, +E> = Success(value: T) | Failure(error: E) {

    predicate IsFailure() {
      Failure?
    }

    function PropagateFailure<U>(): Result<U, E>
      requires Failure?
    {
      Failure(error)
    }

    function Extract(): T
      requires Success?
    {
      value
    }
  }
}
