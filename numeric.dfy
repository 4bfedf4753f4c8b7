/**
 * Exact rounding. Ruby's `round` rounds half away from zero and JavaScript's
 * `Math.round` rounds half up; for the non-negative quantities of this model
 * (ranks, percentages, averages of non-negative metrics) the two agree. All
 * rounding is done on exact rationals: binary floating point is not modelled.
 */
module Numeric {

  /** Ruby `Float#round` (no digits): the nearest integer, halves away from zero. */
  function RoundHalfAway(x: real): (r: int)
    ensures x >= 0.0 ==> r >= 0 && r as real - 0.5 <= x < r as real + 0.5
    ensures x < 0.0 ==> r <= 0 && r as real - 0.5 < x <= r as real + 0.5
  {
    if x >= 0.0 then (x + 0.5).Floor else -((-x + 0.5).Floor)
  }

  lemma RoundHalfAwayMonotone(x: real, y: real)
    requires x <= y
    ensures RoundHalfAway(x) <= RoundHalfAway(y)
  {
    var a, b := RoundHalfAway(x), RoundHalfAway(y);
    if 0.0 <= x {
      assert a as real - 0.5 <= x && y < b as real + 0.5;
      assert a as real < b as real + 1.0;
    } else if y < 0.0 {
      assert a as real - 0.5 < x && y <= b as real + 0.5;
      assert a as real < b as real + 1.0;
    }
  }

  /**
   * `(num / den * scale).round` for non-negative operands, computed with
   * integers only: `r` is the integer nearest to `scale * num / den`, halves
   * rounded up, i.e. `r - 1/2 <= scale * num / den < r + 1/2`.
   */
  function RoundRatio(num: nat, den: nat, scale: nat): (r: nat)
    requires den > 0
    ensures (2 * r - 1) * den <= 2 * scale * num < (2 * r + 1) * den
  {
    var t := 2 * scale * num + den;
    var q := t / (2 * den);
    assert t == 2 * den * q + t % (2 * den);
    q
  }

  /** The rounded ratio is the only integer in its half-open window. */
  lemma RoundRatioUnique(num: nat, den: nat, scale: nat, k: int)
    requires den > 0
    requires (2 * k - 1) * den <= 2 * scale * num < (2 * k + 1) * den
    ensures k == RoundRatio(num, den, scale)
  {
    var r := RoundRatio(num, den, scale);
    assert (2 * k - 1) * den < (2 * r + 1) * den;
    assert (2 * r - 1) * den < (2 * k + 1) * den;
    MulLessCancel(2 * k - 1, 2 * r + 1, den);
    MulLessCancel(2 * r - 1, 2 * k + 1, den);
  }

  lemma MulLessCancel(a: int, b: int, d: int)
    requires d > 0 && a * d < b * d
    ensures a < b
  {
    if a >= b {
      MulLeMonotone(b, a, d);
    }
  }

  lemma MulLeMonotone(a: int, b: int, d: int)
    requires d > 0 && a <= b
    ensures a * d <= b * d
  {
    assert b * d - a * d == (b - a) * d;
  }

  lemma RoundRatioMonotone(num1: nat, num2: nat, den: nat, scale: nat)
    requires den > 0 && num1 <= num2
    ensures RoundRatio(num1, den, scale) <= RoundRatio(num2, den, scale)
  {
    var a, b := RoundRatio(num1, den, scale), RoundRatio(num2, den, scale);
    assert 2 * scale * num1 <= 2 * scale * num2 by {
      MulLeMonotone(num1, num2, 2 * scale + 1);
      assert 2 * scale * num1 == (2 * scale) * num1;
    }
    assert (2 * a - 1) * den < (2 * b + 1) * den;
    MulLessCancel(2 * a - 1, 2 * b + 1, den);
  }

  /** `num / den * 100` rounded to two decimals, as a count of hundredths. */
  function Hundredths(num: nat, den: nat): (h: nat)
    requires den > 0
    ensures (2 * h - 1) * den <= 20000 * num < (2 * h + 1) * den
  {
    RoundRatio(num, den, 10000)
  }

  /** A part over its whole lies between 0 and 1. */
  lemma FractionInUnit(part: nat, whole: nat)
    requires 0 < whole && part <= whole
    ensures 0.0 <= part as real / whole as real <= 1.0
  {
    var q := part as real / whole as real;
    assert q * whole as real == part as real;
  }

  lemma RatioBelowOne(part: nat, whole: nat)
    requires part < whole
    ensures 0.0 <= part as real / whole as real < 1.0
  {
    var q := part as real / whole as real;
    assert q * whole as real == part as real;
  }

  /**
   * Ruby `x.round(1)`: the multiple of 0.1 nearest to `x`, halves away from
   * zero. The window is closed towards zero and open away from it, so the
   * result is the one multiple of 0.1 it admits (`RoundTenthsUnique`).
   */
  function RoundTenths(x: real): (r: real)
    ensures (r * 10.0).Floor as real == r * 10.0
    ensures x >= 0.0 ==> r >= 0.0 && r - 0.05 <= x < r + 0.05
    ensures x < 0.0 ==> r <= 0.0 && r - 0.05 < x <= r + 0.05
  {
    var k := RoundHalfAway(x * 10.0);
    assert (k as real / 10.0) * 10.0 == k as real;
    k as real / 10.0
  }

  /** Ruby `x.round(2)`: the multiple of 0.01 nearest to `x`, halves away from zero. */
  function RoundHundredths(x: real): (r: real)
    ensures (r * 100.0).Floor as real == r * 100.0
    ensures x >= 0.0 ==> r >= 0.0 && r - 0.005 <= x < r + 0.005
    ensures x < 0.0 ==> r <= 0.0 && r - 0.005 < x <= r + 0.005
  {
    var k := RoundHalfAway(x * 100.0);
    assert (k as real / 100.0) * 100.0 == k as real;
    k as real / 100.0
  }

  /** Two integers in the same half-open unit window are equal. */
  lemma WindowUnique(y: real, a: int, b: int)
    requires (a as real - 0.5 <= y < a as real + 0.5 && b as real - 0.5 <= y < b as real + 0.5)
          || (a as real - 0.5 < y <= a as real + 0.5 && b as real - 0.5 < y <= b as real + 0.5)
    ensures a == b
  {
  }

  /** A multiple `k / 10` of 0.1 in the rounding window of `x` is `x.round(1)`. */
  lemma RoundTenthsUnique(x: real, k: int)
    requires x >= 0.0 ==> k as real / 10.0 - 0.05 <= x < k as real / 10.0 + 0.05
    requires x < 0.0 ==> k as real / 10.0 - 0.05 < x <= k as real / 10.0 + 0.05
    ensures RoundTenths(x) == k as real / 10.0
  {
    var r := RoundTenths(x);
    var j := (r * 10.0).Floor;
    assert r == j as real / 10.0;
    WindowUnique(x * 10.0, j, k);
  }

  /** A multiple `k / 100` of 0.01 in the rounding window of `x` is `x.round(2)`. */
  lemma RoundHundredthsUnique(x: real, k: int)
    requires x >= 0.0 ==> k as real / 100.0 - 0.005 <= x < k as real / 100.0 + 0.005
    requires x < 0.0 ==> k as real / 100.0 - 0.005 < x <= k as real / 100.0 + 0.005
    ensures RoundHundredths(x) == k as real / 100.0
  {
    var r := RoundHundredths(x);
    var j := (r * 100.0).Floor;
    assert r == j as real / 100.0;
    WindowUnique(x * 100.0, j, k);
  }

  lemma RoundTenthsMonotone(x: real, y: real)
    requires x <= y
    ensures RoundTenths(x) <= RoundTenths(y)
  {
    RoundHalfAwayMonotone(x * 10.0, y * 10.0);
  }

  lemma RoundHundredthsMonotone(x: real, y: real)
    requires x <= y
    ensures RoundHundredths(x) <= RoundHundredths(y)
  {
    RoundHalfAwayMonotone(x * 100.0, y * 100.0);
  }

  function Sum(s: seq<real>): real {
    if s == [] then 0.0 else s[0] + Sum(s[1..])
  }

  lemma {:induction false} SumBounds(s: seq<real>, lo: real, hi: real)
    requires forall i :: 0 <= i < |s| ==> lo <= s[i] <= hi
    ensures |s| as real * lo <= Sum(s) <= |s| as real * hi
    decreases |s|
  {
    if s != [] {
      SumBounds(s[1..], lo, hi);
    }
  }

  /** The arithmetic mean of a non-empty sample. */
  function Mean(s: seq<real>): real
    requires |s| > 0
  {
    Sum(s) / |s| as real
  }

  /** The mean lies between any bounds that hold for every element. */
  lemma MeanBounds(s: seq<real>, lo: real, hi: real)
    requires |s| > 0 && forall i :: 0 <= i < |s| ==> lo <= s[i] <= hi
    ensures lo <= Mean(s) <= hi
  {
    SumBounds(s, lo, hi);
    var n := |s| as real;
    var m := Mean(s);
    assert m * n == Sum(s);
    if m < lo {
      assert (lo - m) * n > 0.0;
    }
    if m > hi {
      assert (m - hi) * n > 0.0;
    }
  }

  lemma {:induction false} SumAtLeast(s: seq<real>, lo: real)
    requires forall i :: 0 <= i < |s| ==> lo <= s[i]
    ensures |s| as real * lo <= Sum(s)
    decreases |s|
  {
    if s != [] {
      SumAtLeast(s[1..], lo);
    }
  }

  /** The mean is at least any lower bound of the elements. */
  lemma MeanAtLeast(s: seq<real>, lo: real)
    requires |s| > 0 && forall i :: 0 <= i < |s| ==> lo <= s[i]
    ensures lo <= Mean(s)
  {
    SumAtLeast(s, lo);
    var n := |s| as real;
    DivMonotone(n * lo, Sum(s), n);
    assert n * lo / n == lo;
  }

  /** Dividing by a positive number keeps the order. */
  lemma DivMonotone(a: real, b: real, n: real)
    requires a <= b && n > 0.0
    ensures a / n <= b / n
  {
    assert b / n - a / n == (b - a) / n;
  }
}
