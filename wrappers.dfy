/** Failure-carrying result types used for the library's error paths. */
module Wrappers {

  /** A value that may be absent: the model's stand-in for Python's `None`. */
  datatype Option<+T> = None | Some(value: T)

  /** Either a value or the error that the source raises instead. */
  datatype Result<+R, +E> = Success(value: R) | Failure(error: E)

  /** The outcome of an operation that returns nothing but may raise. */
  datatype Outcome<+E> = Pass | Fail(error: E)
}
