/** Failure-carrying result types shared by the screening model. */
module Wrappers {

  /** A value that may be absent (Python's `None`). */
  datatype Option<+T> = None | Some(value: T)

  /** Either a value or the error that aborted the computation (a raised exception). */
  datatype Result<+T, +E> = Ok(value: T) | Err(error: E)
}
