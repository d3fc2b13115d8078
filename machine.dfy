// Fixed-width unsigned integers of the Windows/C world, written as subsets of
// `int`, with the wrap-around arithmetic the C code performs spelled out.
module Machine {
  const U8_LIMIT: int := 0x100
  const U16_LIMIT: int := 0x1_0000
  const U32_LIMIT: int := 0x1_0000_0000
  const U64_LIMIT: int := 0x1_0000_0000_0000_0000

  type u8 = x: int | 0 <= x < 0x100
  type u16 = x: int | 0 <= x < 0x1_0000
  type u32 = x: int | 0 <= x < 0x1_0000_0000
  type u64 = x: int | 0 <= x < 0x1_0000_0000_0000_0000

  datatype Option<T> = None | Some(value: T)

  const U32_MAX: u32 := 0xFFFF_FFFF
  const U64_MAX: u64 := 0xFFFF_FFFF_FFFF_FFFF

  /** UINT64 addition, modulo 2^64. */
  function Add64(a: u64, b: u64): (r: u64)
    ensures a + b < U64_LIMIT ==> r == a + b
    ensures a + b >= U64_LIMIT ==> r == a + b - U64_LIMIT
  {
    (a + b) % U64_LIMIT
  }

  /** UINT64 subtraction, modulo 2^64. */
  function Sub64(a: u64, b: u64): (r: u64)
    ensures b <= a ==> r == a - b
    ensures a < b ==> r == a - b + U64_LIMIT
  {
    (a - b) % U64_LIMIT
  }

  /** UINT64 multiplication, modulo 2^64. */
  function Mul64(a: u64, b: u64): (r: u64)
    ensures a * b < U64_LIMIT ==> r == a * b
  {
    var p := a * b;
    ModOfSmall(p, U64_LIMIT);
    p % U64_LIMIT
  }

  /** UINT32 addition, modulo 2^32. */
  function Add32(a: u32, b: u32): (r: u32)
    ensures a + b < U32_LIMIT ==> r == a + b
    ensures a + b >= U32_LIMIT ==> r == a + b - U32_LIMIT
  {
    (a + b) % U32_LIMIT
  }

  /** UINT32 subtraction, modulo 2^32. */
  function Sub32(a: u32, b: u32): (r: u32)
    ensures b <= a ==> r == a - b
    ensures a < b ==> r == a - b + U32_LIMIT
  {
    (a - b) % U32_LIMIT
  }

  /** UINT32 multiplication, modulo 2^32. */
  function Mul32(a: u32, b: u32): (r: u32)
    ensures a * b < U32_LIMIT ==> r == a * b
  {
    var p := a * b;
    ModOfSmall(p, U32_LIMIT);
    p % U32_LIMIT
  }

  lemma ModOfSmall(p: int, m: int)
    requires m > 0
    ensures 0 <= p < m ==> p % m == p
  {
  }

  /** A cast to a 32-bit type: keeps the low 32 bits. */
  function Trunc32(a: int): (r: u32)
    ensures 0 <= a < U32_LIMIT ==> r == a
  {
    a % U32_LIMIT
  }

  /** A cast to a 64-bit type: keeps the low 64 bits. */
  function Trunc64(a: int): (r: u64)
    ensures 0 <= a < U64_LIMIT ==> r == a
  {
    a % U64_LIMIT
  }

  /** A cast to an 8-bit type: keeps the low 8 bits. */
  function Trunc8(a: int): (r: u8)
    ensures 0 <= a < U8_LIMIT ==> r == a
  {
    a % U8_LIMIT
  }

  function Min(a: int, b: int): int { if a <= b then a else b }
  function Max(a: int, b: int): int { if a >= b then a else b }

  /** Reinterprets a UINT64 bit pattern as the signed 64-bit value (LARGE_INTEGER). */
  function ToSigned64(a: u64): (r: int)
    ensures -0x8000_0000_0000_0000 <= r < 0x8000_0000_0000_0000
    ensures r % U64_LIMIT == a
  {
    if a < 0x8000_0000_0000_0000 then a else a - U64_LIMIT
  }

  /** Wrapped additions can be regrouped: accumulating onto a running total is adding the sum. */
  lemma Add64Assoc(a: u64, b: u64, c: u64)
    ensures Add64(Add64(a, b), c) == Add64(a, Add64(b, c))
  {
  }

  lemma Add32Assoc(a: u32, b: u32, c: u32)
    ensures Add32(Add32(a, b), c) == Add32(a, Add32(b, c))
  {
  }
}
