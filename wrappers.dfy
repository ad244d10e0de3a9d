/** Option and Result values used across the model for Python's None and error returns. */
module Wrappers {

  datatype Option<+T> = None | Some(value: T)

  /** Ok carries a value; Err carries the reason the operation gave up. */
  datatype Result<+T, +E> = Ok(value: T) | Err(error: E)
}
