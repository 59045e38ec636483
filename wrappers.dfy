/** Failure-carrying wrappers used throughout the model. */
module Wrappers {

  /** An optional value: an absent query parameter or upload is `None`. */
  datatype Option<+T> = None | Some(value: T)

  /** Either a value or a typed error. */
  datatype Result<+T, +E> = Ok(value: T) | Err(error: E)
}
