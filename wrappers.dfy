/** Option and Result values used in place of Go's nil and (value, error) pairs. */
module Wrappers {

  datatype Option<+T> = None | Some(value: T)

  datatype Result<+T, +E> = Ok(value: T) | Err(error: E)

  /** A Go byte. */
  newtype byte = b: int | 0 <= b < 256

  /** Go's uint32. */
  newtype uint32 = x: int | 0 <= x < 0x1_0000_0000
}
