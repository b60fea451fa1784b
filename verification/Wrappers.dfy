/** The two wrapper types used throughout the model. */
module Wrappers {

  /** Python's `T | None`. */
  datatype Option<+T> = None | Some(value: T)

  /** A call that returns a value or raises. */
  datatype Result<+R, +E> = Ok(value: R) | Err(error: E)
}
