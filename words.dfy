/**
 * Fixed-width integers as the Modbus devices and the Python code see them:
 * 16-bit registers, their two's-complement readings, Python's bitwise
 * operators on (unbounded) ints, and Python's `int()` applied to a float.
 */
module Words {

  const WordModulus: int := 0x1_0000
  const DWordModulus: int := 0x1_0000_0000
  const SignBit32: int := 0x8000_0000

  /** One Modbus holding or input register. */
  type Word = x: int | 0 <= x < 0x1_0000

  // Python's bitwise operators on ints, written as the arithmetic they are
  // exactly equal to for every (arbitrarily large, possibly negative) int.

  /** `x << 16` */
  function ShiftLeft16(x: int): int { x * WordModulus }

  /** `x >> 16`, an arithmetic (flooring) shift; Dafny's `/` floors for a positive divisor. */
  function ShiftRight16(x: int): int { x / WordModulus }

  /** `x & 0xFFFF`; Dafny's `%` is never negative, as Python's mask is not. */
  function Low16(x: int): int { x % WordModulus }

  /** `x & 0xFFFFFFFF` */
  function Low32(x: int): int { x % DWordModulus }

  /** `~x` */
  function Complement(x: int): int { -x - 1 }

  /** `x & 0x80000000 != 0`: bit 31 of `x` is set. */
  predicate Bit31(x: int) { (x / SignBit32) % 2 == 1 }

  /** `a | lo` where `a` has its low 16 bits clear and `lo` fits in them. */
  function OrLow16(a: int, lo: Word): int
    requires a % WordModulus == 0
  {
    a + lo
  }

  /** The two's-complement reading of a 16-bit register. */
  function Signed16(w: Word): (v: int)
    ensures -0x8000 <= v < 0x8000
    ensures (v - w) % WordModulus == 0
  {
    if w < 0x8000 then w else w - WordModulus
  }

  /** The two's-complement reading of a 32-bit value. */
  function Signed32(raw: int): (v: int)
    requires 0 <= raw < DWordModulus
    ensures -SignBit32 <= v < SignBit32
    ensures (v - raw) % DWordModulus == 0
  {
    if raw < SignBit32 then raw else raw - DWordModulus
  }

  /** For a 32-bit value, bit 31 is set exactly when the value is at least 2^31. */
  lemma Bit31Iff(raw: int)
    requires 0 <= raw < DWordModulus
    ensures Bit31(raw) <==> SignBit32 <= raw
  {
    if raw < SignBit32 {
      assert raw / SignBit32 == 0;
    } else {
      assert raw / SignBit32 == 1;
    }
  }

  /** Python's `int(x)` on a float: truncation toward zero. */
  function Trunc(x: real): (n: int)
    ensures 0.0 <= x ==> n as real <= x < n as real + 1.0
    ensures x < 0.0 ==> n as real - 1.0 < x <= n as real
  {
    if 0.0 <= x then x.Floor else -((-x).Floor)
  }

  /** Python's `abs` on a number. */
  function Abs(x: real): (r: real)
    ensures 0.0 <= r && (r == x || r == -x)
  {
    if x < 0.0 then -x else x
  }
}
