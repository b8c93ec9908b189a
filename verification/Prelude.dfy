/** Shared result types and machine limits. */
module Prelude {

  datatype Option<+T> = None | Some(value: T)

  /** One past the largest unsigned 64-bit value. */
  const U64 := 0x1_0000_0000_0000_0000

  datatype Result<+T, +E> = Success(value: T) | Failure(error: E)
}
