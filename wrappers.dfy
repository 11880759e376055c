/** Option and Result, the two failure-carrying datatypes the model uses. */
module Wrappers {

  /** An absent value (Python's None, JavaScript's null/undefined) or a present one. */
  datatype Option<+T> = None | Some(value: T)

  /** A computation that either succeeds or raises the given error. */
  datatype Result<+T, +E> = Ok(value: T) | Err(error: E)
}
