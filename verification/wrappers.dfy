/** Failure-compatible wrappers used across the model: an optional value and
    a success-or-error result. */
module Wrappers {

  /** A value that may be absent; Python's `None` in the modelled code. */
  datatype Option<+T> = None | Some(value: T)

  /** The outcome of an operation that either produces a value or fails with
      a named error (the modelled code raises an HTTP exception instead). */
  datatype Result<+R, +E> = Success(value: R) | Failure(error: E)
}
