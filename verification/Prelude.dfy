// Shared value types.
module Prelude {

  datatype Option<+T> = None | Some(value: T)

  datatype Result<+T, +E> = Ok(value: T) | Err(error: E)

  // A byte of a stream or of a stored file.
  newtype Byte = b: int | 0 <= b < 256
}
