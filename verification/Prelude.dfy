/** Values shared by every part of the model: optional values, results, bytes,
    and the saturating and checked arithmetic of a 64-bit unsigned integer. */
module Prelude {

  datatype Option<+T> = None | Some(value: T) {
    function GetOr(default: T): T { if Some? then value else default }
  }

  datatype Result<+T, +E> = Ok(value: T) | Err(error: E)

  type Byte = b: int | 0 <= b < 256

  type Bytes = seq<Byte>

  const U64_MAX: nat := 0xFFFF_FFFF_FFFF_FFFF

  type U64 = n: int | 0 <= n <= U64_MAX

  /** `u64::saturating_add` */
  function SaturatingAdd(a: U64, b: U64): U64 {
    if a + b > U64_MAX then U64_MAX else a + b
  }

  /** `u64::saturating_sub` */
  function SaturatingSub(a: U64, b: U64): U64 {
    if a < b then 0 else a - b
  }

  /** `+` on `u64` in a release build */
  function WrappingAdd(a: U64, b: U64): U64 {
    (a + b) % (U64_MAX + 1)
  }

  /** `u64::checked_add` */
  function CheckedAdd(a: U64, b: U64): Option<U64> {
    if a + b > U64_MAX then None else Some(a + b)
  }
}
