/** Failure-carrying values used in place of the source's `None` and its exceptions. */
module Wrappers {

  /** A value that may be absent (Python's `Optional`). */
  datatype Option<+T> = None | Some(value: T)

  /** Either a value or the reason it could not be produced. */
  datatype Result<+R, +E> = Success(value: R) | Failure(error: E)

  /** Success or a failure reason, for operations that return nothing. */
  datatype Outcome<+E> = Pass | Fail(error: E)
}
