/** Optional values and error-carrying results. */
module Wrappers {

  /** Ruby's `nil` or a value. */
  datatype Option<+T> = None | Some(value: T)

  /** A value, or the reason the program stopped instead. */
  datatype Result<+T, +E> = Ok(value: T) | Err(error: E)
}
