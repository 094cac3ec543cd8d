/**
 * The handful of Rust standard-library shapes the client is written against:
 * bytes, fixed-width unsigned integers, `Option`, `Result`, and the possibility
 * of a panic (an `unwrap` on `None`/`Err`, an out-of-range slice, an overflow
 * in a debug build), which the model makes an explicit outcome.
 */
module RustTypes {

  /** A Rust `u8`. */
  type byte = x: int | 0 <= x < 256

  type Bytes = seq<byte>

  const U16_LIMIT: nat := 0x1_0000
  const U32_LIMIT: nat := 0x1_0000_0000
  const U32_MAX: nat := 0xFFFF_FFFF

  /** `usize` on a 64-bit target. */
  const USIZE_MAX: nat := 0xFFFF_FFFF_FFFF_FFFF

  const I32_MIN: int := -0x8000_0000
  const I32_MAX: int := 0x7FFF_FFFF

  type u16 = x: nat | x < 0x1_0000
  type u32 = x: nat | x < 0x1_0000_0000
  type i32 = x: int | -0x8000_0000 <= x <= 0x7FFF_FFFF

  datatype Option<+T> = None | Some(value: T)

  datatype Result<+T, +E> = Ok(value: T) | Err(error: E)

  /** What a Rust expression that may panic evaluates to. */
  datatype Outcome<+T> = Value(value: T) | Panic

  /** `std::str::from_utf8` and friends are not modelled: the caller supplies the validity test. */
  type Utf8Check = Bytes -> bool
}
