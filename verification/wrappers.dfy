/** Failure-compatible wrappers used throughout the model. */
module Wrappers {

  /** A value that may be absent: a pandas NA / NaT, or a failed parse. */
  datatype Option<+T> = None | Some(value: T)

  /** The outcome of an operation that raises in the source. */
  datatype Result<+R, +E> = Success(value: R) | Failure(error: E)

  /** The outcome of a check that either passes or raises with an error. */
  datatype Outcome<+E> = Pass | Fail(error: E)
}
