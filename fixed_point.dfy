/**
 * Integer arithmetic shared by the quantized kernels, written the way the
 * C code on a 32-bit ARM target with GCC behaves: the int32_t range, `/`
 * truncating toward zero, `>>` on a signed value as an arithmetic shift,
 * the round-half-up term of the requantization step, and the two ways an
 * int32_t result is stored into a uint8_t buffer (a plain store that keeps
 * the low 8 bits, or a clamp to [0, 255] before the store).
 */
module FixedPoint {

  const Int32Min: int := -0x8000_0000
  const Int32Max: int := 0x7FFF_FFFF

  /** An unsigned 8-bit value (uint8_t). */
  type byte = x: int | 0 <= x < 256

  predicate IsInt32(x: int) {
    Int32Min <= x <= Int32Max
  }

  /** A 32-bit memory word read as an int32_t: two's complement. */
  function Int32OfWord(w: bv32): (r: int)
    ensures IsInt32(r)
    ensures r == w as int || r == w as int - 0x1_0000_0000
    ensures r >= 0 <==> w as int < 0x8000_0000
  {
    var n := w as int;
    if n < 0x8000_0000 then n else n - 0x1_0000_0000
  }

  function Abs(x: int): int {
    if x < 0 then -x else x
  }

  /** 2^n. */
  function Pow2(n: nat): (r: nat)
    ensures r >= 1
  {
    if n == 0 then 1 else 2 * Pow2(n - 1)
  }

  /**
   * C's integer division: the quotient is truncated toward zero, so the
   * remainder `a - q * b` takes the sign of the dividend. (Dafny's own `/`
   * is Euclidean and differs for negative dividends.)
   */
  function TruncDiv(a: int, b: int): (q: int)
    requires b != 0
    ensures a >= 0 ==> 0 <= a - q * b < Abs(b)
    ensures a < 0 ==> -Abs(b) < a - q * b <= 0
  {
    if a >= 0 then
      (if b > 0 then a / b else -(a / -b))
    else
      (if b > 0 then -((-a) / b) else (-a) / (-b))
  }

  /**
   * `x >> s` on an int32_t: GCC on ARM shifts arithmetically, so this is
   * division by 2^s rounded toward minus infinity.
   */
  function ShiftRight(x: int, s: nat): (r: int)
    ensures r * Pow2(s) <= x < r * Pow2(s) + Pow2(s)
  {
    x / Pow2(s)
  }

  /**
   * The constant added before the down-shift: 0 when the shift is below 1
   * (so that `1 << (shift - 1)` is never evaluated with a negative count),
   * otherwise half of 2^shift.
   */
  function RoundingTerm(shift: int): nat
    requires shift < 32
  {
    if shift < 1 then 0 else Pow2(shift - 1)
  }

  /** `(((total + offset) * mult) + rounding) >> shift`, before the store. */
  function Rescale(total: int, offset: int, mult: int, shift: int): int
    requires 0 <= shift < 32
  {
    ShiftRight((total + offset) * mult + RoundingTerm(shift), shift)
  }

  /**
   * The rescale rounds to the nearest integer and sends exact halves up,
   * toward plus infinity; with no shift it is exact.
   */
  lemma RescaleRoundsHalfUp(total: int, offset: int, mult: int, shift: int)
    requires 0 <= shift < 32
    ensures shift == 0 ==> Rescale(total, offset, mult, shift) == (total + offset) * mult
    ensures shift >= 1 ==>
      var x, r, half := (total + offset) * mult, Rescale(total, offset, mult, shift), Pow2(shift - 1);
      r * Pow2(shift) - half <= x < r * Pow2(shift) + half
  {
    if shift >= 1 {
      assert Pow2(shift) == 2 * Pow2(shift - 1);
    }
  }

  /** Exact halves go up on both sides of zero: 1.5 becomes 2 and -1.5 becomes -1. */
  lemma RescaleHalfwayExamples()
    ensures Rescale(3, 0, 1, 1) == 2
    ensures Rescale(-3, 0, 1, 1) == -1
    ensures Rescale(5, 0, 1, 2) == 1 && Rescale(6, 0, 1, 2) == 2
  {
  }

  /** Storing an int into a uint8_t keeps it modulo 256. */
  function WrapToByte(x: int): (r: byte)
    ensures (x - r) % 256 == 0
  {
    x % 256
  }

  /** Saturation of an int to the uint8_t range. */
  function ClampToByte(x: int): (r: byte)
    ensures 0 <= x <= 255 ==> r == x
    ensures x > 255 ==> r == 255
    ensures x < 0 ==> r == 0
  {
    if x > 255 then 255 else if x < 0 then 0 else x
  }
}
