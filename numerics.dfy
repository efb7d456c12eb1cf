/**
 * Integer helpers for the C# arithmetic the model reproduces exactly:
 * division that truncates toward zero, and the `(int)` cast of a
 * 64-bit value to a 32-bit one.
 */
module Numerics {
  const Int32Min: int := -0x8000_0000
  const Int32Max: int := 0x7FFF_FFFF
  const TwoTo32: int := 0x1_0000_0000

  predicate IsInt32(x: int) {
    Int32Min <= x <= Int32Max
  }

  /** The C# `(int)` cast of a `long`: keeps the low 32 bits, read as two's complement. */
  function ToInt32(x: int): (r: int)
    ensures IsInt32(r)
    ensures IsInt32(x) ==> r == x
    ensures (x - r) % TwoTo32 == 0
  {
    (x + 0x8000_0000) % TwoTo32 - 0x8000_0000
  }

  /** The C# `/` on integers: the quotient is rounded toward zero. */
  function TruncDiv(a: int, b: int): (q: int)
    requires b > 0
    ensures a >= 0 ==> q == a / b && q >= 0
    ensures a < 0 ==> q <= 0
  {
    if a >= 0 then
      QuotientNonNegative(a, b);
      a / b
    else
      QuotientNonNegative(-a, b);
      -((-a) / b)
  }

  lemma QuotientNonNegative(a: int, b: int)
    requires a >= 0 && b > 0
    ensures a / b >= 0
  {
  }

  function Max(a: int, b: int): (m: int)
    ensures m >= a && m >= b
    ensures m == a || m == b
  {
    if a > b then a else b
  }

  function Min(a: int, b: int): (m: int)
    ensures m <= a && m <= b
    ensures m == a || m == b
  {
    if a < b then a else b
  }
}
