/** Small shared vocabulary: optional values, results, and the fixed-width integers of the source. */
module Basics {

  datatype Option<+T> = None | Some(value: T)

  datatype Result<+T, +E> = Ok(value: T) | Err(error: E) {
    predicate IsFailure() {
      Err?
    }

    function PropagateFailure<U>(): Result<U, E>
      requires IsFailure()
    {
      Err(error)
    }

    function Extract(): T
      requires !IsFailure()
    {
      value
    }
  }

  type byte = x: int | 0 <= x < 0x100
  type u32 = x: int | 0 <= x < 0x1_0000_0000
  type u64 = x: int | 0 <= x < 0x1_0000_0000_0000_0000
  type i64 = x: int | -0x8000_0000_0000_0000 <= x < 0x8000_0000_0000_0000

  type bytes = seq<byte>

  const U32_LIMIT: int := 0x1_0000_0000
  const U64_MAX: u64 := 0xFFFF_FFFF_FFFF_FFFF

  /** `saturating_add(1)` on `u64`. */
  function SatInc(x: u64): (r: u64)
    ensures r > x || x == U64_MAX
  {
    if x < U64_MAX then x + 1 else x
  }

  /** `saturating_sub(1)` on `u64`. */
  function SatDec(x: u64): (r: u64)
    ensures r < x || x == 0
  {
    if x > 0 then x - 1 else 0
  }

  function Min(a: u64, b: u64): (r: u64)
    ensures r <= a && r <= b && (r == a || r == b)
  {
    if a <= b then a else b
  }

  function Max(a: u64, b: u64): (r: u64)
    ensures r >= a && r >= b && (r == a || r == b)
  {
    if a >= b then a else b
  }

  /** Lookup with a default, as `get(..).copied().unwrap_or_default()`. */
  function GetOr<K, V>(m: map<K, V>, k: K, default: V): V {
    if k in m then m[k] else default
  }
}
