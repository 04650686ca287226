/**
 * Go's `uint32` arithmetic. Integers in Dafny are unbounded, so every
 * operation that can wrap in the Go code is written out here, modulo 2^32.
 */
module Uint32 {

  const Modulus: int := 0x1_0000_0000
  /** Go's `math.MaxUint32`. */
  const MaxValue: int := 0xFFFF_FFFF

  type u32 = x: int | 0 <= x < 0x1_0000_0000

  /** `a + b` on uint32: exact unless it overflows, then it wraps once. */
  function Add(a: u32, b: u32): (r: u32)
    ensures a + b <= MaxValue ==> r == a + b
    ensures a + b > MaxValue ==> r == a + b - Modulus
  {
    (a + b) % Modulus
  }

  /** `a - b` on uint32: exact unless it underflows, then it wraps once. */
  function Sub(a: u32, b: u32): (r: u32)
    ensures b <= a ==> r == a - b
    ensures a < b ==> r == a - b + Modulus
  {
    (a - b) % Modulus
  }

  /**
   * The conversion `uint32(x)` of a signed 64-bit value: keeps the low 32 bits,
   * that is, the value modulo 2^32 (also for negative x, by two's complement).
   */
  function FromInt(x: int): (r: u32)
    ensures 0 <= x <= MaxValue ==> r == x
    ensures (x - r) % Modulus == 0
  {
    x % Modulus
  }
}
