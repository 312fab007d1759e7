/**
 The fixed-width integers of the original program, and the operations on them
 whose edge behaviour the models depend on.
 */
module Machine {

  const U32_LIMIT: int := 0x1_0000_0000
  const U64_LIMIT: int := 0x1_0000_0000_0000_0000
  const U64_MAX: int := U64_LIMIT - 1

  type U32 = x: int | 0 <= x < 0x1_0000_0000
  type U64 = x: int | 0 <= x < 0x1_0000_0000_0000_0000
  type Byte = x: int | 0 <= x < 256
  type Bytes = seq<Byte>

  datatype Option<+T> = None | Some(value: T)

  /** `u32::wrapping_sub` */
  function WrappingSub(a: U32, b: U32): U32 {
    if a >= b then a - b else a - b + U32_LIMIT
  }

  /** `u32::wrapping_add(1)` */
  function WrappingInc(a: U32): U32 {
    if a + 1 < U32_LIMIT then a + 1 else 0
  }

  /** `u64::saturating_add`, total on naturals so that sums can be capped in one go */
  function SaturatingAdd(a: nat, b: nat): U64 {
    if a + b > U64_MAX then U64_MAX else a + b
  }
}
