/** Machine integers of the C sources and the few arithmetic facts about them. */
module FixedWidth {

  newtype int32 = x: int | -0x8000_0000 <= x < 0x8000_0000
  newtype int64 = x: int | -0x8000_0000_0000_0000 <= x < 0x8000_0000_0000_0000

  type byte = x: int | 0 <= x < 256
  type int16 = x: int | -0x8000 <= x < 0x8000

  /** A C conversion to int16_t: keep the low 16 bits, read them as two's complement. */
  function Wrap16(x: int): (r: int16)
  {
    (x + 0x8000) % 0x1_0000 - 0x8000
  }

  /** A C conversion to int32_t. */
  function Wrap32(x: int): (r: int)
    ensures -0x8000_0000 <= r < 0x8000_0000
  {
    (x + 0x8000_0000) % 0x1_0000_0000 - 0x8000_0000
  }

  /** A field of type int; every sum of such values is written with AddInt. */
  type CInt = x: int | -0x8000_0000 <= x < 0x8000_0000

  /** C's `+` on int, two's complement where it overflows. */
  function AddInt(a: CInt, b: CInt): (r: CInt)
    ensures -0x8000_0000 <= a + b < 0x8000_0000 <==> r == a + b
  {
    Wrap32(a + b)
  }

  /** C's `/`: the quotient is rounded toward zero. */
  function TruncDiv(x: int, d: int): int
    requires d > 0
  {
    if x >= 0 then x / d else -((-x) / d)
  }

  /** An int64_t product whose operands' magnitudes A and B show that it does not overflow. */
  function Times(a: int64, b: int64, ghost A: int, ghost B: int): (r: int64)
    requires -A <= a as int <= A && -B <= b as int <= B && A * B < 0x8000_0000_0000_0000
    ensures r as int == (a as int) * (b as int)
    ensures -(A * B) <= r as int <= A * B
  {
    MulBound(a as int, b as int, A, B);
    a * b
  }

  /** C's `/ 32767` on an int64_t. */
  function DivideBy32767(x: int64): (r: int64)
    requires x > -0x8000_0000_0000_0000
    ensures r as int == TruncDiv(x as int, 32767)
    ensures -0x2_0000_0000_0000 <= r <= 0x2_0000_0000_0000
  {
    if x >= 0 then x / 32767 else -((-x) / 32767)
  }

  lemma MulNonneg(a: int, b: int)
    requires 0 <= a && 0 <= b
    ensures 0 <= a * b
  {
  }

  /** |a| <= A and |b| <= B bound the product. */
  lemma MulBound(a: int, b: int, A: int, B: int)
    requires -A <= a <= A && -B <= b <= B
    ensures -(A * B) <= a * b <= A * B
  {
    MulNonneg(A - a, B - b);
    MulNonneg(A + a, B + b);
    MulNonneg(A - a, B + b);
    MulNonneg(A + a, B - b);
    assert (A - a) * (B - b) == A * B - A * b - a * B + a * b;
    assert (A + a) * (B + b) == A * B + A * b + a * B + a * b;
    assert (A - a) * (B + b) == A * B + A * b - a * B - a * b;
    assert (A + a) * (B - b) == A * B - A * b + a * B - a * b;
  }

  lemma TruncDivBounds(x: int, d: int)
    requires d > 0
    ensures -d < x - d * TruncDiv(x, d) < d
  {
  }

  lemma Distribute(a: int, b: int, c: int)
    ensures (a + b) * c == a * c + b * c && c * (a + b) == c * a + c * b
  {
  }

  lemma Associate(a: int, b: int, c: int)
    ensures a * b * c == a * (b * c)
  {
  }

  /** What two divisions with a multiplication in between leave over. */
  lemma TwoDivisions(p: int, f: int, e1: int, y: int, g: int, e2: int, d1: int, d2: int)
    requires p == d1 * f + e1 && f * y == d2 * g + e2
    ensures p * y == d1 * d2 * g + d1 * e2 + e1 * y
  {
    Distribute(d1 * f, e1, y);
    Associate(d1, f, y);
    Distribute(d2 * g, e2, d1);
    Associate(d1, d2, g);
  }

  /** Two chained right shifts with a multiplication in between lose less than d1 * (d2 + Y). */
  lemma TwoShifts(p: int, y: int, Y: int, d1: int, d2: int)
    requires d1 > 0 && d2 > 0 && -Y <= y <= Y
    ensures -(d1 * Y) <= p * y - d1 * d2 * ((p / d1) * y / d2) <= d1 * d2 + d1 * Y
  {
    var f, e1 := p / d1, p % d1;
    var g, e2 := f * y / d2, f * y % d2;
    TwoDivisions(p, f, e1, y, g, e2, d1, d2);
    MulBound(e1, y, d1, Y);
    MulNonneg(d1, e2);
    MulNonneg(d1, d2 - e2);
    Distribute(d2, -e2, d1);
  }
}
