/**
 * Python's numeric conversions used throughout the tiler.
 *
 * Python 3 `/` on integers yields a float; the model uses Dafny's `real`
 * for it. `int(f)` on a float truncates toward zero, which is `Trunc` here.
 */
module Numeric {

  function Abs(r: real): (a: real)
    ensures a >= 0.0
    ensures a == r || a == -r
  {
    if r < 0.0 then -r else r
  }

  /** Python's `int(r)` for a float `r`: truncation toward zero. */
  function Trunc(r: real): (n: int)
    ensures r >= 0.0 ==> 0 <= n && n as real <= r < n as real + 1.0
    ensures r < 0.0 ==> n <= 0 && n as real - 1.0 < r <= n as real
  {
    if r >= 0.0 then r.Floor else -((-r).Floor)
  }

  /** Truncation never decreases when its argument grows. */
  lemma TruncMonotone(a: real, b: real)
    requires a <= b
    ensures Trunc(a) <= Trunc(b)
  {
  }

  /** Truncation of an integer-valued real gives that integer back. */
  lemma TruncOfInt(k: int)
    ensures Trunc(k as real) == k
  {
  }

  /** For non-negative reals, the truncations of two parts never add up to more than the truncation of the sum. */
  lemma TruncSuperadditive(a: real, b: real)
    requires a >= 0.0 && b >= 0.0
    ensures Trunc(a) + Trunc(b) <= Trunc(a + b)
  {
    assert (Trunc(a) + Trunc(b)) as real <= a + b;
  }

  /** Shifting a non-negative real by a whole number shifts its truncation by that number. */
  lemma TruncShift(a: real, k: int)
    requires a >= 0.0 && a + k as real >= 0.0
    ensures Trunc(a + k as real) == Trunc(a) + k
  {
  }

  /** Scaling a non-negative amount by a ratio in [0, 1] gives at most that amount. */
  lemma ScaleBounded(a: real, r: real)
    requires a >= 0.0 && 0.0 <= r <= 1.0
    ensures 0.0 <= a * r <= a
  {
    assert a * r <= a * 1.0;
  }

  /** A truncated quotient times its divisor never exceeds the dividend. */
  lemma TruncQuotient(a: int, b: int)
    requires a >= 0 && b > 0
    ensures 0 <= b * Trunc(a as real / b as real) <= a
  {
    var q := a as real / b as real;
    assert q * b as real == a as real;
    var t := Trunc(q);
    assert t as real <= q;
    assert (b * t) as real == b as real * t as real;
    assert b as real * t as real <= b as real * q;
  }

  /** A non-negative dividend over a positive divisor gives a non-negative quotient. */
  lemma DivNonNegative(a: real, b: real)
    requires a >= 0.0 && b > 0.0
    ensures a / b >= 0.0
  {
    assert a / b * b == a;
  }

  /** Multiplying both sides of an inequality by a non-negative factor keeps it. */
  lemma MulLeft(c: real, x: real, y: real)
    requires c >= 0.0 && x <= y
    ensures c * x <= c * y
  {
    assert c * y - c * x == c * (y - x);
  }

  /** Dividing by a non-zero real and multiplying back gives the dividend. */
  lemma DivCancel(r: real, c: real)
    requires c != 0.0
    ensures r / c * c == r
  {
  }

  /** Truncated multiples of a non-negative step grow with the multiplier. */
  lemma TruncScaledMonotone(a: real, i: int, j: int)
    requires a >= 0.0 && 0 <= i <= j
    ensures 0.0 <= a * i as real <= a * j as real
    ensures Trunc(a * i as real) <= Trunc(a * j as real)
  {
    MulLeft(a, 0.0, i as real);
    MulLeft(a, i as real, j as real);
    TruncMonotone(a * i as real, a * j as real);
  }

  /**
   * With a step `a` that leaves room for `t + b >= 0`, the truncated
   * multiple `n` of `a` plus the truncated `a - t - b` plus `t + b` does
   * not pass the truncated multiple `n + 1`.
   */
  lemma TruncStep(a: real, n: int, t: int, b: int)
    requires n >= 0 && t + b >= 0 && a - t as real - b as real >= 0.0
    ensures 0.0 <= a * n as real <= a * (n + 1) as real
    ensures Trunc(a * n as real) + Trunc(a - t as real - b as real) + t + b <= Trunc(a * (n + 1) as real)
  {
    var d := a - t as real - b as real;
    MulLeft(a, 0.0, n as real);
    assert a * (n + 1) as real == a * n as real + d + (t + b) as real;
    TruncSuperadditive(a * n as real, d);
    TruncShift(a * n as real + d, t + b);
  }
}
