/** The fixed-width C++ integers the model needs, and the narrowing casts between them. */
module Ints {

  const Two31: int := 0x8000_0000
  const Two32: int := 0x1_0000_0000
  const Two63: int := 0x8000_0000_0000_0000
  const Two64: int := 0x1_0000_0000_0000_0000

  /** `int` (32 bits) */
  type Int32 = x: int | -0x8000_0000 <= x < 0x8000_0000

  /** `long long` (64 bits) */
  type Int64 = x: int | -0x8000_0000_0000_0000 <= x < 0x8000_0000_0000_0000

  /** static_cast<int> of a wider integer, which C++20 defines as reduction modulo 2^32. */
  function WrapInt32(n: int): (r: Int32)
    ensures (r - n) % Two32 == 0
  {
    (n + Two31) % Two32 - Two31
  }

  /** static_cast<long long> of a wider integer, reduction modulo 2^64. */
  function WrapInt64(n: int): (r: Int64)
    ensures (r - n) % Two64 == 0
  {
    (n + Two63) % Two64 - Two63
  }
}
