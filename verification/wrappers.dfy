/** Failure-carrying results shared by every module of the model. */
module Wrappers {

  /** A value that may be absent: an unread port, a missing configuration key. */
  datatype Option<+T> = None | Some(value: T)

  /** The outcome of an operation that can raise: a value or an error description. */
  datatype Result<+T, +E> = Ok(value: T) | Err(error: E)
}
