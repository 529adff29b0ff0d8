/** Option and Result, the failure-carrying values used throughout the model. */
module Wrappers {

  /** A value that may be absent: Python's `None` or a found object. */
  datatype Option<+T> = None | Some(value: T)

  /** The outcome of an operation that may raise: its value or the exception it raises. */
  datatype Result<+T, +E> = Success(value: T) | Failure(error: E)
}
