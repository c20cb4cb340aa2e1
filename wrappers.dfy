/** Option and Result, the failure-carrying values used across the model. */
module Wrappers {

  /** A value that may be absent: a vocabulary file that does not exist is `None`. */
  datatype Option<+T> = None | Some(value: T)

  /** The outcome of a step that can fail with an error value. */
  datatype Result<+T, +E> = Success(value: T) | Failure(error: E)
}
