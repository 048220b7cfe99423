/** The binner: right interval bounds by Sturges' rule, and relative frequencies per interval. */
module Binning {
  import opened Samples
  import opened Sturges

  /** `get_interval_step`: the width of one of `count` equal intervals spanning [minV, maxV]. */
  function IntervalStep(maxV: real, minV: real, count: int): (step: real)
    requires count != 0
    ensures step * count as real == maxV - minV
    ensures count > 0 && minV <= maxV ==> step >= 0.0
    ensures count > 0 && minV < maxV ==> step > 0.0
    ensures minV == maxV ==> step == 0.0
  {
    (maxV - minV) / count as real
  }

  /** The width of the intervals of a sample. */
  function SampleStep(s: seq<real>): real
    requires |s| > 0
  {
    IntervalStep(Max(s), Min(s), CountIntervals(|s|))
  }

  /** Right bound `i` of intervals of width `step` starting at `lo`, built the way
      `get_intervals` builds them: one step past the previous bound. */
  function Bound(lo: real, step: real, i: nat): real
  {
    if i == 0 then lo + step else Bound(lo, step, i - 1) + step
  }

  /** The first `k` right bounds of intervals of width `step` starting at `lo`. */
  function IntervalsOf(lo: real, step: real, k: nat): (b: seq<real>)
    ensures |b| == k
  {
    seq(k, i requires 0 <= i => Bound(lo, step, i))
  }

  /** The right bounds `get_intervals` computes for a sample. */
  function Intervals(s: seq<real>): seq<real>
    requires |s| > 0
  {
    IntervalsOf(Min(s), SampleStep(s), CountIntervals(|s|))
  }

  predicate Sorted(b: seq<real>)
  {
    forall i, j :: 0 <= i < j < |b| ==> b[i] <= b[j]
  }

  /** `get_intervals`: fills a list of k right bounds, each one step past the previous,
      the first one step past the sample minimum. */
  method GetIntervals(sample: seq<real>) returns (intervals: seq<real>)
    requires |sample| > 0
    ensures |intervals| == CountIntervals(|sample|)
    ensures intervals == Intervals(sample)
  {
    var maxV := Max(sample);
    var minV := Min(sample);
    var k := CountIntervals(|sample|);
    var step := IntervalStep(maxV, minV, k);
    intervals := seq(k, _ => 0.0);
    intervals := intervals[0 := minV + step];
    for i := 1 to k
      invariant |intervals| == k
      invariant forall j :: 0 <= j < i ==> intervals[j] == Bound(minV, step, j)
    {
      intervals := intervals[i := intervals[i - 1] + step];
    }
  }

  /** Bound `i` is the left end plus i+1 steps, so the `k` bounds are lo + step·(i+1), i < k. */
  lemma {:induction false} IntervalsOfClosedForm(lo: real, step: real, k: nat, i: nat)
    requires i < k
    ensures IntervalsOf(lo, step, k)[i] == lo + step * (i + 1) as real
  {
    if i > 0 {
      IntervalsOfClosedForm(lo, step, k, i - 1);
      assert step * (i + 1) as real == step * i as real + step;
    }
  }

  /** Consecutive bounds differ by exactly one step. */
  lemma IntervalsOfSpacing(lo: real, step: real, k: nat, i: nat)
    requires 0 < i < k
    ensures IntervalsOf(lo, step, k)[i] - IntervalsOf(lo, step, k)[i - 1] == step
  {
  }

  /** With the step of `get_interval_step`, the last of the `k` bounds lands exactly on `hi`. */
  lemma LastBoundIsMax(lo: real, hi: real, k: nat)
    requires k >= 1
    ensures IntervalsOf(lo, IntervalStep(hi, lo, k), k)[k - 1] == hi
  {
    IntervalsOfClosedForm(lo, IntervalStep(hi, lo, k), k, k - 1);
  }

  /** Moving further right never decreases a bound when the step is non-negative,
      and strictly increases it when the step is positive. */
  lemma {:induction false} BoundsAhead(lo: real, step: real, i: nat, j: nat)
    requires i < j && step >= 0.0
    ensures Bound(lo, step, i) <= Bound(lo, step, j)
    ensures step > 0.0 ==> Bound(lo, step, i) < Bound(lo, step, j)
  {
    if i < j - 1 {
      BoundsAhead(lo, step, i, j - 1);
    }
  }

  /** With a zero step every bound is the left end. */
  lemma {:induction false} BoundOfZeroStep(lo: real, i: nat)
    ensures Bound(lo, 0.0, i) == lo
  {
    if i > 0 {
      BoundOfZeroStep(lo, i - 1);
    }
  }

  /** A sample's bounds never decrease, and strictly increase when the sample is not constant. */
  lemma IntervalsIncreasing(s: seq<real>)
    requires |s| > 0
    ensures Sorted(Intervals(s))
    ensures Max(s) > Min(s) ==> forall i, j :: 0 <= i < j < |Intervals(s)| ==> Intervals(s)[i] < Intervals(s)[j]
  {
    var b, lo, step := Intervals(s), Min(s), SampleStep(s);
    forall i, j | 0 <= i < j < |b|
      ensures b[i] <= b[j]
      ensures Max(s) > Min(s) ==> b[i] < b[j]
    {
      BoundsAhead(lo, step, i, j);
    }
  }

  /** A sample's first bound is at least its minimum and its last bound is exactly its maximum,
      so every sample value lies in [min, last bound]. */
  lemma IntervalsSpanSample(s: seq<real>)
    requires |s| > 0
    ensures Min(s) <= Intervals(s)[0]
    ensures Intervals(s)[|Intervals(s)| - 1] == Max(s)
  {
    LastBoundIsMax(Min(s), Max(s), CountIntervals(|s|));
  }

  /** When all values are equal every bound is that value. */
  lemma IntervalsOfConstant(s: seq<real>, v: real)
    requires |s| > 0 && Constant(s, v)
    ensures forall i :: 0 <= i < |Intervals(s)| ==> Intervals(s)[i] == v
  {
    MinMaxOfConstant(s, v);
    assert SampleStep(s) == 0.0;
    forall i | 0 <= i < |Intervals(s)|
      ensures Intervals(s)[i] == v
    {
      BoundOfZeroStep(v, i);
    }
  }

  /** The test of bucket `i`: [lo, b0] for the first, (b(i-1), b(i)] for the others. */
  predicate InBucket(b: seq<real>, lo: real, i: nat, x: real)
    requires i < |b|
  {
    if i == 0 then lo <= x <= b[0] else b[i - 1] < x <= b[i]
  }

  /** `get_freq` tries buckets 1.. only for a value that failed the bucket-0 test,
      and then increments every bucket whose test it passes. */
  predicate Counted(b: seq<real>, lo: real, i: nat, x: real)
    requires i < |b|
  {
    if i == 0 then InBucket(b, lo, 0, x) else !InBucket(b, lo, 0, x) && InBucket(b, lo, i, x)
  }

  /** The number of values of `s` that increment bucket `i`. */
  function Count(b: seq<real>, lo: real, i: nat, s: seq<real>): (c: nat)
    requires i < |b|
    ensures c <= |s|
  {
    if |s| == 0 then 0
    else Count(b, lo, i, s[..|s| - 1]) + (if Counted(b, lo, i, s[|s| - 1]) then 1 else 0)
  }

  /** The count of every bucket. */
  function Counts(b: seq<real>, lo: real, s: seq<real>): (c: seq<nat>)
    ensures |c| == |b|
    ensures forall i :: 0 <= i < |c| ==> c[i] <= |s|
  {
    seq(|b|, i requires 0 <= i < |b| => Count(b, lo, i, s))
  }

  /** Counts divided by a positive total. */
  function Relative(c: seq<nat>, n: nat): seq<real>
    requires n > 0
  {
    seq(|c|, i requires 0 <= i < |c| => c[i] as real / n as real)
  }

  /** The relative frequency of every bucket, with the sample minimum as the first left bound. */
  function Frequencies(b: seq<real>, s: seq<real>): seq<real>
    requires |s| > 0
  {
    Relative(Counts(b, Min(s), s), |s|)
  }

  /** `get_freq`: counts the values hitting each bucket, then divides the counts by the sample size. */
  method GetFreq(intervals: seq<real>, sample: seq<real>) returns (frequencies: seq<real>)
    requires |intervals| > 0 && |sample| > 0
    ensures |frequencies| == |intervals|
    ensures frequencies == Frequencies(intervals, sample)
  {
    var lo := Min(sample);
    var counts: seq<nat> := seq(|intervals|, _ => 0);
    for j := 0 to |sample|
      invariant |counts| == |intervals|
      invariant forall i :: 0 <= i < |counts| ==> counts[i] == Count(intervals, lo, i, sample[..j])
    {
      var element := sample[j];
      assert sample[..j + 1][..j] == sample[..j];
      if element >= lo && element <= intervals[0] {
        counts := counts[0 := counts[0] + 1];
      } else {
        for i := 1 to |intervals|
          invariant |counts| == |intervals|
          invariant counts[0] == Count(intervals, lo, 0, sample[..j + 1])
          invariant forall i' :: 1 <= i' < i ==> counts[i'] == Count(intervals, lo, i', sample[..j + 1])
          invariant forall i' :: i <= i' < |counts| ==> counts[i'] == Count(intervals, lo, i', sample[..j])
        {
          if element > intervals[i - 1] && element <= intervals[i] {
            counts := counts[i := counts[i] + 1];
          }
        }
      }
    }
    assert sample[..|sample|] == sample;
    assert counts == Counts(intervals, lo, sample);
    var size := |sample|;
    frequencies := seq(|counts|, i requires 0 <= i < |counts| => counts[i] as real / size as real);
  }

  /** Each relative frequency is its count over the total, hence in [0, 1] when no count exceeds it. */
  lemma RelativeBounds(c: seq<nat>, n: nat, i: nat)
    requires n > 0 && i < |c| && c[i] <= n
    ensures |Relative(c, n)| == |c|
    ensures Relative(c, n)[i] * n as real == c[i] as real
    ensures 0.0 <= Relative(c, n)[i] <= 1.0
  {
  }

  /** A relative frequency is 0 exactly when its count is. */
  lemma RelativeZero(c: seq<nat>, n: nat, i: nat)
    requires n > 0 && i < |c|
    ensures Relative(c, n)[i] == 0.0 <==> c[i] == 0
  {
  }

  /** Every frequency is a bucket count over the sample size and lies in [0, 1]. */
  lemma FrequenciesBounds(b: seq<real>, s: seq<real>, i: nat)
    requires |s| > 0 && i < |b|
    ensures |Frequencies(b, s)| == |b|
    ensures Frequencies(b, s)[i] == Count(b, Min(s), i, s) as real / |s| as real
    ensures 0.0 <= Frequencies(b, s)[i] <= 1.0
  {
    RelativeBounds(Counts(b, Min(s), s), |s|, i);
  }

  /** With non-decreasing bounds a value increments at most one bucket. */
  lemma AtMostOneBucket(b: seq<real>, lo: real, x: real, i: nat, j: nat)
    requires Sorted(b) && i < |b| && j < |b|
    requires Counted(b, lo, i, x) && Counted(b, lo, j, x)
    ensures i == j
  {
  }

  /** With non-decreasing bounds, a value between lo and the last bound increments some bucket. */
  lemma SomeBucket(b: seq<real>, lo: real, x: real) returns (i: nat)
    requires |b| > 0 && Sorted(b) && lo <= x <= b[|b| - 1]
    ensures i < |b| && Counted(b, lo, i, x)
  {
    if x <= b[0] {
      i := 0;
    } else {
      i := FirstBoundAbove(b, x, |b| - 1);
    }
  }

  lemma {:induction false} FirstBoundAbove(b: seq<real>, x: real, k: nat) returns (i: nat)
    requires k < |b| && b[0] < x <= b[k]
    ensures 0 < i <= k && b[i - 1] < x <= b[i]
  {
    if b[k - 1] < x {
      i := k;
    } else {
      i := FirstBoundAbove(b, x, k - 1);
    }
  }

  /** The number of buckets among the first `k` that value `x` increments. */
  function Hits(b: seq<real>, lo: real, x: real, k: nat): nat
    requires k <= |b|
  {
    if k == 0 then 0 else Hits(b, lo, x, k - 1) + (if Counted(b, lo, k - 1, x) then 1 else 0)
  }

  /** The total of the counts of the first `k` buckets. */
  function SumCounts(b: seq<real>, lo: real, s: seq<real>, k: nat): nat
    requires k <= |b|
  {
    if k == 0 then 0 else SumCounts(b, lo, s, k - 1) + Count(b, lo, k - 1, s)
  }

  lemma {:induction false} HitsOfUniqueBucket(b: seq<real>, lo: real, x: real, j: nat, k: nat)
    requires j < |b| && k <= |b| && Counted(b, lo, j, x)
    requires forall i :: 0 <= i < |b| && Counted(b, lo, i, x) ==> i == j
    ensures Hits(b, lo, x, k) == if j < k then 1 else 0
  {
    if k > 0 {
      HitsOfUniqueBucket(b, lo, x, j, k - 1);
    }
  }

  lemma {:induction false} SumCountsOfSnoc(b: seq<real>, lo: real, s: seq<real>, k: nat)
    requires |s| > 0 && k <= |b|
    ensures SumCounts(b, lo, s, k) == SumCounts(b, lo, s[..|s| - 1], k) + Hits(b, lo, s[|s| - 1], k)
  {
    if k > 0 {
      SumCountsOfSnoc(b, lo, s, k - 1);
    }
  }

  /** When the bounds are non-decreasing and every value lies in [lo, last bound],
      the counts add up to the sample size. */
  lemma {:induction false} CountsCoverSample(b: seq<real>, lo: real, s: seq<real>)
    requires |b| > 0 && Sorted(b)
    requires forall j :: 0 <= j < |s| ==> lo <= s[j] <= b[|b| - 1]
    ensures SumCounts(b, lo, s, |b|) == |s|
  {
    if |s| > 0 {
      var init, x := s[..|s| - 1], s[|s| - 1];
      assert forall j :: 0 <= j < |init| ==> init[j] == s[j];
      CountsCoverSample(b, lo, init);
      SumCountsOfSnoc(b, lo, s, |b|);
      var j := SomeBucket(b, lo, x);
      forall i | 0 <= i < |b| && Counted(b, lo, i, x)
        ensures i == j
      {
        AtMostOneBucket(b, lo, x, i, j);
      }
      HitsOfUniqueBucket(b, lo, x, j, |b|);
    } else {
      SumCountsOfEmpty(b, lo, |b|);
    }
  }

  lemma {:induction false} SumCountsOfEmpty(b: seq<real>, lo: real, k: nat)
    requires k <= |b|
    ensures SumCounts(b, lo, [], k) == 0
  {
    if k > 0 {
      SumCountsOfEmpty(b, lo, k - 1);
    }
  }

  lemma {:induction false} SumOfRelativeCounts(b: seq<real>, lo: real, s: seq<real>, n: nat, k: nat)
    requires n > 0 && k <= |b|
    ensures Sum(Relative(Counts(b, lo, s), n)[..k]) == SumCounts(b, lo, s, k) as real / n as real
  {
    if k > 0 {
      var f := Relative(Counts(b, lo, s), n);
      assert f[..k][..k - 1] == f[..k - 1];
      SumOfRelativeCounts(b, lo, s, n, k - 1);
      assert f[k - 1] == Count(b, lo, k - 1, s) as real / n as real;
      DivisionDistributes(SumCounts(b, lo, s, k - 1) as real, Count(b, lo, k - 1, s) as real, n as real);
    }
  }

  /** Counts over buckets that cover every value exactly once, divided by the sample size, sum to 1. */
  lemma RelativeCountsSumToOne(b: seq<real>, lo: real, s: seq<real>)
    requires |b| > 0 && |s| > 0 && Sorted(b)
    requires forall j :: 0 <= j < |s| ==> lo <= s[j] <= b[|b| - 1]
    ensures Sum(Relative(Counts(b, lo, s), |s|)) == 1.0
  {
    CountsCoverSample(b, lo, s);
    RelativeOfFullCounts(b, lo, s);
  }

  lemma RelativeOfFullCounts(b: seq<real>, lo: real, s: seq<real>)
    requires |s| > 0 && SumCounts(b, lo, s, |b|) == |s|
    ensures Sum(Relative(Counts(b, lo, s), |s|)) == 1.0
  {
    var f := Relative(Counts(b, lo, s), |s|);
    assert f[..|b|] == f;
    SumOfRelativeCounts(b, lo, s, |s|, |b|);
    DivisionBySelf(|s| as real);
  }

  /** When the bounds are non-decreasing and no value exceeds the last bound,
      the frequencies sum to exactly 1. */
  lemma FrequenciesSumToOne(b: seq<real>, s: seq<real>)
    requires |b| > 0 && |s| > 0 && Sorted(b)
    requires forall j :: 0 <= j < |s| ==> s[j] <= b[|b| - 1]
    ensures Sum(Frequencies(b, s)) == 1.0
  {
    RelativeCountsSumToOne(b, Min(s), s);
  }

  /** The frequencies of a sample over its own intervals sum to exactly 1. */
  lemma BinnedFrequenciesSumToOne(s: seq<real>)
    requires |s| > 0
    ensures Sum(Frequencies(Intervals(s), s)) == 1.0
  {
    IntervalsIncreasing(s);
    IntervalsSpanSample(s);
    FrequenciesSumToOne(Intervals(s), s);
  }

  lemma {:induction false} CountOfNone(b: seq<real>, lo: real, i: nat, s: seq<real>)
    requires i < |b|
    requires forall j :: 0 <= j < |s| ==> !Counted(b, lo, i, s[j])
    ensures Count(b, lo, i, s) == 0
  {
    if |s| > 0 {
      CountOfNone(b, lo, i, s[..|s| - 1]);
    }
  }

  lemma {:induction false} CountOfAll(b: seq<real>, lo: real, i: nat, s: seq<real>)
    requires i < |b|
    requires forall j :: 0 <= j < |s| ==> Counted(b, lo, i, s[j])
    ensures Count(b, lo, i, s) == |s|
  {
    if |s| > 0 {
      CountOfAll(b, lo, i, s[..|s| - 1]);
    }
  }

  /** Over bounds all equal to `v`, a constant sample of `v` falls entirely in the first bucket. */
  lemma RelativeCountsOfConstant(b: seq<real>, s: seq<real>, v: real)
    requires |b| > 0 && |s| > 0 && Constant(s, v)
    requires forall i :: 0 <= i < |b| ==> b[i] == v
    ensures Relative(Counts(b, v, s), |s|)[0] == 1.0
    ensures forall i :: 1 <= i < |b| ==> Relative(Counts(b, v, s), |s|)[i] == 0.0
  {
    CountOfAll(b, v, 0, s);
    DivisionBySelf(|s| as real);
    forall i | 1 <= i < |b|
      ensures Count(b, v, i, s) == 0
    {
      CountOfNone(b, v, i, s);
    }
  }

  /** A constant sample puts all its mass in the first interval: [1, 0, …, 0]. */
  lemma FrequenciesOfConstant(s: seq<real>, v: real)
    requires |s| > 0 && Constant(s, v)
    ensures Frequencies(Intervals(s), s)[0] == 1.0
    ensures forall i :: 1 <= i < |Intervals(s)| ==> Frequencies(Intervals(s), s)[i] == 0.0
  {
    MinMaxOfConstant(s, v);
    IntervalsOfConstant(s, v);
    RelativeCountsOfConstant(Intervals(s), s, v);
  }

  /** A bucket's count is positive exactly when some value increments it. */
  lemma {:induction false} CountPositive(b: seq<real>, lo: real, i: nat, s: seq<real>)
    requires i < |b|
    ensures Count(b, lo, i, s) > 0 <==> exists j :: 0 <= j < |s| && Counted(b, lo, i, s[j])
  {
    if |s| > 0 {
      var init := s[..|s| - 1];
      CountPositive(b, lo, i, init);
      if exists j :: 0 <= j < |init| && Counted(b, lo, i, init[j]) {
        var j :| 0 <= j < |init| && Counted(b, lo, i, init[j]);
        assert s[j] == init[j];
      }
      if exists j :: 0 <= j < |s| && Counted(b, lo, i, s[j]) {
        var j :| 0 <= j < |s| && Counted(b, lo, i, s[j]);
        if j < |init| {
          assert init[j] == s[j];
        }
      }
    }
  }

  /** Every value of a sample increments exactly one bucket over the sample's own intervals. */
  lemma ValueInExactlyOneBucket(s: seq<real>, j: nat) returns (i: nat)
    requires j < |s|
    ensures i < |Intervals(s)| && Counted(Intervals(s), Min(s), i, s[j])
    ensures forall i' :: 0 <= i' < |Intervals(s)| && Counted(Intervals(s), Min(s), i', s[j]) ==> i' == i
  {
    IntervalsIncreasing(s);
    IntervalsSpanSample(s);
    i := SomeBucket(Intervals(s), Min(s), s[j]);
    forall i' | 0 <= i' < |Intervals(s)| && Counted(Intervals(s), Min(s), i', s[j])
      ensures i' == i
    {
      AtMostOneBucket(Intervals(s), Min(s), s[j], i, i');
    }
  }

  /** With non-decreasing bounds the counting test of `get_freq` and the plain bucket test agree. */
  lemma CountedIsInBucket(b: seq<real>, lo: real, i: nat, x: real)
    requires Sorted(b) && i < |b|
    ensures Counted(b, lo, i, x) <==> InBucket(b, lo, i, x)
  {
    if i > 0 && InBucket(b, lo, i, x) {
      assert b[0] <= b[i - 1];
    }
  }
}
