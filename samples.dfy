/** Order statistics and sums over a sample of reals. */
module Samples {

  /** The smallest value of a non-empty sample (Python's `min`). */
  function Min(s: seq<real>): (m: real)
    requires |s| > 0
    ensures m in s
    ensures forall j :: 0 <= j < |s| ==> m <= s[j]
  {
    if |s| == 1 then s[0]
    else
      var rest := Min(s[1..]);
      if s[0] <= rest then s[0] else rest
  }

  /** The largest value of a non-empty sample (Python's `max`). */
  function Max(s: seq<real>): (m: real)
    requires |s| > 0
    ensures m in s
    ensures forall j :: 0 <= j < |s| ==> s[j] <= m
  {
    if |s| == 1 then s[0]
    else
      var rest := Max(s[1..]);
      if rest <= s[0] then s[0] else rest
  }

  /** The sum of the values, accumulated from the front as a loop over the sample does. */
  function Sum(s: seq<real>): real
  {
    if |s| == 0 then 0.0 else Sum(s[..|s| - 1]) + s[|s| - 1]
  }

  /** The sum of the squared values. */
  function SumSq(s: seq<real>): real
  {
    if |s| == 0 then 0.0 else SumSq(s[..|s| - 1]) + s[|s| - 1] * s[|s| - 1]
  }

  /** The sum of the squared deviations from `m`. */
  function SumSqDev(s: seq<real>, m: real): real
  {
    if |s| == 0 then 0.0 else SumSqDev(s[..|s| - 1], m) + (s[|s| - 1] - m) * (s[|s| - 1] - m)
  }

  /** Every value of the sample equals `v`. */
  predicate Constant(s: seq<real>, v: real)
  {
    forall j :: 0 <= j < |s| ==> s[j] == v
  }

  function Abs(x: real): (a: real)
    ensures a >= 0.0
    ensures a == x || a == -x
  {
    if x < 0.0 then -x else x
  }

  /** Of a constant sample of `v`, the sum is `n v` and the sum of squares `n v²`. */
  lemma {:induction false} SumOfConstant(s: seq<real>, v: real)
    requires Constant(s, v)
    ensures Sum(s) == |s| as real * v
    ensures SumSq(s) == |s| as real * (v * v)
  {
    if |s| > 0 {
      SumOfConstant(s[..|s| - 1], v);
    }
  }

  /** The minimum and maximum of a constant sample are that constant. */
  lemma MinMaxOfConstant(s: seq<real>, v: real)
    requires |s| > 0 && Constant(s, v)
    ensures Min(s) == v && Max(s) == v
  {
  }

  /** The sum lies between n·min and n·max. */
  lemma {:induction false} SumBetweenBounds(s: seq<real>, lo: real, hi: real)
    requires forall j :: 0 <= j < |s| ==> lo <= s[j] <= hi
    ensures |s| as real * lo <= Sum(s) <= |s| as real * hi
  {
    if |s| > 0 {
      SumBetweenBounds(s[..|s| - 1], lo, hi);
    }
  }

  /** Σ(x − m)² = Σx² − 2mΣx + n m², the one-pass identity behind the variance formula. */
  lemma {:induction false} SumSqDevExpansion(s: seq<real>, m: real)
    ensures SumSqDev(s, m) == SumSq(s) - 2.0 * m * Sum(s) + |s| as real * (m * m)
  {
    if |s| > 0 {
      var init, x := s[..|s| - 1], s[|s| - 1];
      SumSqDevExpansion(init, m);
      assert (x - m) * (x - m) == x * x - 2.0 * m * x + m * m;
    }
  }

  /** Around the mean m (n·m = Σx), Σ(x − m)² = Σx² − n m². */
  lemma {:induction false} SumSqDevAroundMean(s: seq<real>, m: real)
    requires m * (|s| as real) == Sum(s)
    ensures SumSqDev(s, m) == SumSq(s) - |s| as real * (m * m)
  {
    SumSqDevExpansion(s, m);
  }

  /** A sum of squares is never negative. */
  lemma {:induction false} SumSqDevNonNegative(s: seq<real>, m: real)
    ensures SumSqDev(s, m) >= 0.0
  {
    if |s| > 0 {
      var d := s[|s| - 1] - m;
      SumSqDevNonNegative(s[..|s| - 1], m);
      assert d * d >= 0.0;
    }
  }

  // Facts of real arithmetic that the binning and statistics proofs rely on.

  lemma DivisionBySelf(n: real)
    requires n != 0.0
    ensures n / n == 1.0
  {
  }

  lemma DivisionDistributes(a: real, c: real, n: real)
    requires n != 0.0
    ensures a / n + c / n == (a + c) / n
  {
  }

  lemma TimesReciprocal(a: real, n: real)
    requires n != 0.0
    ensures a * (1.0 / n) == a / n
  {
  }

  lemma CancelFactor(a: real, n: real)
    requires n != 0.0
    ensures (n * a) / n == a
  {
  }

  /** A quotient by a positive n of a value between n·lo and n·hi lies between lo and hi. */
  lemma QuotientBetween(a: real, lo: real, hi: real, n: real)
    requires n > 0.0 && n * lo <= a <= n * hi
    ensures lo <= a / n <= hi
  {
    var q := a / n;
    assert q * n == a;
    assert (q - lo) * n >= 0.0;
    assert (hi - q) * n >= 0.0;
  }

  lemma ProductIsZero(a: real, b: real)
    ensures a * b == 0.0 <==> a == 0.0 || b == 0.0
  {
  }
}
