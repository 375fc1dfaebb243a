/** Option and Result, the failure-compatible wrappers used by the rest of the model. */
module Wrappers {

  datatype Option<+T> = None | Some(value: T)

  /** The outcome of an operation that either returns a value or stops with an error. */
  datatype Result<+T, +E> = Ok(value: T) | Err(error: E)
}
