/** Fixed-width machine arithmetic shared by the models. */
module Machine {
  const TWO64: int := 0x1_0000_0000_0000_0000
  const U64_MAX: int := 0xFFFF_FFFF_FFFF_FFFF

  const TWO32: int := 0x1_0000_0000

  type u64 = n: int | 0 <= n < TWO64
  type u32 = n: int | 0 <= n < TWO32
  type i64 = n: int | -0x8000_0000_0000_0000 <= n < 0x8000_0000_0000_0000
  type i32 = n: int | -0x8000_0000 <= n < 0x8000_0000
  type u8 = n: int | 0 <= n < 256

  datatype Option<+T> = None | Some(value: T)

  /** Unsigned 64-bit addition, wrapping as `uint64_t` does. */
  function Add64(a: u64, b: u64): (r: u64)
    ensures r == (a + b) % TWO64
  {
    if a + b < TWO64 then a + b else a + b - TWO64
  }

  /** Unsigned 64-bit subtraction, wrapping as `uint64_t` does. */
  function Sub64(a: u64, b: u64): (r: u64)
    ensures r == (a - b) % TWO64
  {
    if a >= b then a - b else a - b + TWO64
  }

  function Min(a: int, b: int): (m: int)
    ensures m <= a && m <= b && (m == a || m == b)
  {
    if a < b then a else b
  }

  function Max(a: int, b: int): (m: int)
    ensures m >= a && m >= b && (m == a || m == b)
  {
    if a < b then b else a
  }
}
