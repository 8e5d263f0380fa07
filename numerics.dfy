/**
 * Integer widths and the C conversions the renderer relies on.
 *
 * Every `float` of the C code is a `real` here. The three ways the C code
 * turns a float into an integer are written out explicitly:
 *   - a cast `(int)` / `(unsigned short)` truncates toward zero (`Trunc`),
 *   - `lround` rounds to nearest, halfway cases away from zero (`LRound`),
 *   - `floor` rounds toward minus infinity (Dafny's `.Floor`).
 */
module Numerics {

  type u8 = x: int | 0 <= x < 0x100
  type u16 = x: int | 0 <= x < 0x1_0000
  type u32 = x: int | 0 <= x < 0x1_0000_0000

  const U16_MAX: u16 := 0xFFFF

  /** The C conversion of a float to an integer type: truncation toward zero. */
  function Trunc(r: real): (n: int)
    ensures 0.0 <= r ==> 0 <= n && n as real <= r < n as real + 1.0
    ensures r < 0.0 ==> n <= 0 && n as real - 1.0 < r <= n as real
  {
    if r >= 0.0 then r.Floor else -((-r).Floor)
  }

  /** C's `lround`: the nearest integer, halfway cases rounded away from zero. */
  function LRound(r: real): (n: int)
    ensures r - 0.5 <= n as real <= r + 0.5
    ensures 0.0 <= r ==> 0 <= n && n as real - 0.5 <= r < n as real + 0.5
    ensures r < 0.0 ==> n <= 0 && n as real - 0.5 < r <= n as real + 0.5
  {
    if r >= 0.0 then (r + 0.5).Floor else -((-r + 0.5).Floor)
  }

  /** Rounding an integer gives it back. */
  lemma LRoundOfInt(n: int)
    ensures LRound(n as real) == n
  {
  }

  lemma TruncMonotone(a: real, b: real)
    requires a <= b
    ensures Trunc(a) <= Trunc(b)
  {
    if 0.0 <= a {
      assert a.Floor <= b.Floor;
    } else if b < 0.0 {
      assert (-b).Floor <= (-a).Floor;
    }
  }

  /** Rounding a value that lies in [0, n] for an integer n stays in [0, n]. */
  lemma LRoundWithin(r: real, n: int)
    requires 0.0 <= r <= n as real
    ensures 0 <= LRound(r) <= n
  {
  }

  /** Rounding is monotone. */
  lemma LRoundMonotone(a: real, b: real)
    requires a <= b
    ensures LRound(a) <= LRound(b)
  {
    if 0.0 <= a {
      assert (a + 0.5).Floor <= (b + 0.5).Floor;
    } else if b < 0.0 {
      assert (-b + 0.5).Floor <= (-a + 0.5).Floor;
    }
  }

  /** `x < 0.0 ? 0.0 : x > 1.0 ? 1.0 : x`, the texture-coordinate clamp of the span filler. */
  function Clamp01(x: real): (r: real)
    ensures 0.0 <= r <= 1.0
    ensures 0.0 <= x <= 1.0 ==> r == x
    ensures x < 0.0 ==> r == 0.0
    ensures 1.0 < x ==> r == 1.0
  {
    if x < 0.0 then 0.0 else if x > 1.0 then 1.0 else x
  }

  /** A factor in [0, 1] scales a non-negative value down. */
  lemma ScaleDown(s: real, d: real)
    requires 0.0 <= s <= 1.0 && 0.0 <= d
    ensures 0.0 <= s * d <= d
  {
  }

  lemma ProductNonneg(a: real, b: real)
    requires 0.0 <= a && 0.0 <= b
    ensures 0.0 <= a * b
  {
  }

  lemma NegateProduct(s: real, d: real)
    ensures s * -d == -(s * d)
  {
  }

  lemma ProductOfOpposite(m: real, p: real, q: real)
    requires q == -p
    ensures m * q == -(m * p)
  {
    NegateProduct(m, p);
  }

  /** Moving a fraction s in [0, 1] of the way along d from a stays between a and a + d. */
  lemma Between(a: real, d: real, s: real)
    requires 0.0 <= s <= 1.0
    ensures 0.0 <= d ==> a <= a + s * d <= a + d
    ensures d <= 0.0 ==> a + d <= a + s * d <= a
  {
    if 0.0 <= d {
      ScaleDown(s, d);
      assert 0.0 <= s * d <= d;
    } else {
      ScaleDown(s, -d);
      assert 0.0 <= s * -d <= -d;
      NegateProduct(s, d);
      assert s * -d == -(s * d);
    }
  }

  lemma QuotientTimesDivisor(n: real, d: real)
    requires d != 0.0
    ensures (n / d) * d == n
  {
  }

  /** The only factor that takes d to n is n / d. */
  lemma QuotientUnique(n: real, d: real, s: real)
    requires d != 0.0 && s * d == n
    ensures s == n / d
  {
    QuotientTimesDivisor(n, d);
    assert (s - n / d) * d == 0.0;
  }

  /** The sign of a product follows from the signs of its factors. */
  lemma ProductSign(a: real, b: real)
    ensures (0.0 < a && 0.0 < b) || (a < 0.0 && b < 0.0) ==> 0.0 < a * b
    ensures (0.0 < a && b < 0.0) || (a < 0.0 && 0.0 < b) ==> a * b < 0.0
  {
  }

  /** n / d lies in [0, 1] when 0 <= n <= d. */
  lemma QuotientInClosedUnit(n: real, d: real)
    requires 0.0 < d && 0.0 <= n <= d
    ensures 0.0 <= n / d <= 1.0
  {
    var t := n / d;
    QuotientTimesDivisor(n, d);
    assert t * d == n;
    ProductSign(t, d);
    assert t < 0.0 ==> t * d < 0.0;
    ProductSign(t - 1.0, d);
    assert 0.0 < t - 1.0 ==> 0.0 < (t - 1.0) * d;
    assert (t - 1.0) * d == t * d - d;
  }

  /** (p / d) q and (q / d) p are the same quantity p q / d. */
  lemma CrossQuotient(p: real, q: real, d: real)
    requires d != 0.0
    ensures (p / d) * q == (q / d) * p
  {
    var x, y := (p / d) * q, (q / d) * p;
    QuotientTimesDivisor(p, d);
    QuotientTimesDivisor(q, d);
    assert (p / d) * d == p && (q / d) * d == q;
    assert x * d == ((p / d) * d) * q;
    assert y * d == ((q / d) * d) * p;
    assert (x - y) * d == 0.0;
    ProductSign(x - y, d);
  }

  /** n / d lies in [0, 1) when n lies between 0 (included) and d (excluded), for either sign of d. */
  lemma QuotientInUnit(n: real, d: real)
    requires (0.0 < d && 0.0 <= n < d) || (d < 0.0 && d < n <= 0.0)
    ensures 0.0 <= n / d < 1.0
  {
    var t := n / d;
    QuotientTimesDivisor(n, d);
    ProductSign(t, d);
    ProductSign(t - 1.0, d);
    assert (t - 1.0) * d == n - d;
  }

  /** n / d lies in (0, 1] when n lies between 0 (excluded) and d (included), for either sign of d. */
  lemma QuotientInUnitUpper(n: real, d: real)
    requires (0.0 < d && 0.0 < n <= d) || (d < 0.0 && d <= n < 0.0)
    ensures 0.0 < n / d <= 1.0
  {
    var t := n / d;
    QuotientTimesDivisor(n, d);
    ProductSign(t, d);
    ProductSign(t - 1.0, d);
    assert (t - 1.0) * d == n - d;
  }
}
