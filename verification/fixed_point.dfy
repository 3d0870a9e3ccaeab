/**
 * Three-decimal fixed point. Every score, deduction and penalty is an integer
 * number of thousandths of a point (milli-points): 9.350 is 9350.
 * `parseFloat(x.toFixed(3))` applied to an exact ratio becomes `RoundDiv`.
 */
module FixedPoint {

  /** 10.000 points, the starting value of the execution score. */
  const TenPoints: int := 10000

  /** The sum that `reduce((sum, s) => sum + s, 0)` computes. */
  function Sum(s: seq<int>): int
  {
    if s == [] then 0 else Sum(s[..|s| - 1]) + s[|s| - 1]
  }

  /**
   * a / n rounded to the nearest integer, ties away from zero: the rounding
   * `toFixed` applies to the exact quotient (it rounds the magnitude half up
   * and puts the sign back).
   */
  function RoundDiv(a: int, n: int): (r: int)
    requires n > 0
    ensures a >= 0 ==> 2 * n * r <= 2 * a + n < 2 * n * r + 2 * n
    ensures a < 0 ==> 2 * n * r - 2 * n < 2 * a - n <= 2 * n * r
  {
    if a >= 0 then
      DivBounds(2 * a + n, 2 * n);
      (2 * a + n) / (2 * n)
    else
      DivBounds(2 * -a + n, 2 * n);
      -((2 * -a + n) / (2 * n))
  }

  lemma DivBounds(a: int, d: int)
    requires d > 0
    ensures d * (a / d) <= a < d * (a / d) + d
  {
  }

  /** The rounded arithmetic mean of a non-empty list of milli-point values. */
  function RoundedMean(s: seq<int>): (r: int)
    requires |s| > 0
    ensures Sum(s) >= 0 ==> 2 * |s| * r <= 2 * Sum(s) + |s| < 2 * |s| * r + 2 * |s|
  {
    RoundDiv(Sum(s), |s|)
  }

  /** Every value lies in [lo, hi], so the sum lies in [lo * n, hi * n]. */
  lemma {:induction false} SumBounds(s: seq<int>, lo: int, hi: int)
    requires forall i :: 0 <= i < |s| ==> lo <= s[i] <= hi
    ensures lo * |s| <= Sum(s) <= hi * |s|
  {
    if s != [] {
      var t := s[..|s| - 1];
      assert forall i :: 0 <= i < |t| ==> t[i] == s[i];
      SumBounds(t, lo, hi);
      assert lo * |s| == lo * |t| + lo;
      assert hi * |s| == hi * |t| + hi;
    }
  }

  /** Rounding a quotient whose exact value lies in [lo, hi] stays in [lo, hi]. */
  lemma RoundDivBounds(a: int, n: int, lo: int, hi: int)
    requires n > 0 && lo * n <= a <= hi * n
    ensures lo <= RoundDiv(a, n) <= hi
  {
    var r := RoundDiv(a, n);
    if r > hi {
      MulMonotone(n, hi + 1, r);
      assert false;
    }
    if r < lo {
      MulMonotone(n, r, lo - 1);
      assert false;
    }
  }

  lemma MulMonotone(n: int, x: int, y: int)
    requires n > 0 && x <= y
    ensures n * x <= n * y
  {
  }

  /** The rounded mean of values in [lo, hi] is again in [lo, hi]. */
  lemma RoundedMeanBounds(s: seq<int>, lo: int, hi: int)
    requires |s| > 0
    requires forall i :: 0 <= i < |s| ==> lo <= s[i] <= hi
    ensures lo <= RoundedMean(s) <= hi
  {
    SumBounds(s, lo, hi);
    RoundDivBounds(Sum(s), |s|, lo, hi);
  }
}
