/**
 * Rust's fixed-width integers as the on-chain programs use them: the types
 * u8, u64 and i64, the `checked_*` operations that report overflow as
 * `None`, `saturating_sub` on i64, and the `as u64` cast from i64 (which
 * reinterprets the two's-complement bits, so a negative value wraps).
 */
module RustInt {

  const U8_MAX: int := 0xFF
  const U64_MAX: int := 0xFFFF_FFFF_FFFF_FFFF
  const I64_MIN: int := -0x8000_0000_0000_0000
  const I64_MAX: int := 0x7FFF_FFFF_FFFF_FFFF

  type u8 = x: int | 0 <= x <= 0xFF
  type u64 = x: int | 0 <= x <= 0xFFFF_FFFF_FFFF_FFFF
  type i64 = x: int | -0x8000_0000_0000_0000 <= x <= 0x7FFF_FFFF_FFFF_FFFF

  datatype Option<+T> = None | Some(value: T)

  /** `u64::checked_add`: `None` exactly when the sum leaves the u64 range. */
  function CheckedAdd(a: u64, b: u64): Option<u64>
  {
    if a + b <= U64_MAX then Some(a + b) else None
  }

  /** `u64::checked_sub`: `None` exactly when the difference is negative. */
  function CheckedSub(a: u64, b: u64): Option<u64>
  {
    if b <= a then Some(a - b) else None
  }

  /** `u64::checked_mul`: `None` exactly when the product leaves the u64 range. */
  function CheckedMul(a: u64, b: u64): Option<u64>
  {
    if a * b <= U64_MAX then Some(a * b) else None
  }

  /** `i64::saturating_sub`: the difference clamped to the i64 range. */
  function SaturatingSub(a: i64, b: i64): i64
  {
    if a - b > I64_MAX then I64_MAX
    else if a - b < I64_MIN then I64_MIN
    else a - b
  }

  /** The `as u64` cast of an i64: negative values wrap modulo 2^64. */
  function AsU64(x: i64): u64
  {
    if x < 0 then x + U64_MAX + 1 else x
  }

  function Min(a: int, b: int): int
  {
    if a <= b then a else b
  }
}
