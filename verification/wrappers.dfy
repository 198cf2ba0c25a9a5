/** Option and Result datatypes shared by the whole model. */
module Wrappers {

  datatype Option<+T> = None | Some(value: T)

  /** The `(value, error)` pair of a Go call that either succeeds or fails. */
  datatype Result<+T, +E> = Ok(value: T) | Err(error: E)
}
