/** The expectation estimator: one approximate probability per interval, taken from the first
    sample value that falls in it. */
module Expectation {
  import opened Outcomes
  import opened Samples
  import opened Binning

  /** Value `j` is the first of `s`, in sample order, that passes the test of bucket `i`. */
  predicate IsFirst(b: seq<real>, lo: real, i: nat, s: seq<real>, j: nat)
    requires i < |b|
  {
    j < |s| && InBucket(b, lo, i, s[j]) && forall j' :: 0 <= j' < j ==> !InBucket(b, lo, i, s[j'])
  }

  lemma FirstIsUnique(b: seq<real>, lo: real, i: nat, s: seq<real>, j: nat, k: nat)
    requires i < |b| && IsFirst(b, lo, i, s, j) && IsFirst(b, lo, i, s, k)
    ensures j == k
  {
  }

  /** The index of the first value of `s` that passes the test of bucket `i`, if any. */
  function FirstInBucket(b: seq<real>, lo: real, i: nat, s: seq<real>): (r: Option<nat>)
    requires i < |b|
    ensures r.None? <==> forall j :: 0 <= j < |s| ==> !InBucket(b, lo, i, s[j])
    ensures r.Some? ==> IsFirst(b, lo, i, s, r.value)
  {
    if |s| == 0 then None
    else if InBucket(b, lo, i, s[0]) then Some(0)
    else
      match FirstInBucket(b, lo, i, s[1..])
      case None => None
      case Some(j) => Some(j + 1)
  }

  /** The left end of bucket `i`: the sample minimum for the first, the previous bound otherwise. */
  function Left(b: seq<real>, lo: real, i: nat): real
    requires i < |b|
  {
    if i == 0 then lo else b[i - 1]
  }

  /** The estimate from one representative value `v` of an interval (left, right] of width `step`. */
  function Estimate(step: real, v: real, left: real, right: real): real
  {
    step * v * ((right + left) / 2.0)
  }

  /** The estimate for bucket `i`: step · v · midpoint, where v is the first value in the bucket,
      or 0 when the bucket is empty. */
  function ExpectedOf(b: seq<real>, lo: real, step: real, s: seq<real>, i: nat): (p: real)
    requires i < |b|
    ensures (forall j :: 0 <= j < |s| ==> !InBucket(b, lo, i, s[j])) ==> p == 0.0
    ensures forall j: nat :: IsFirst(b, lo, i, s, j) ==> p == Estimate(step, s[j], Left(b, lo, i), b[i])
  {
    match FirstInBucket(b, lo, i, s)
    case None => 0.0
    case Some(j) =>
      assert forall k: nat :: IsFirst(b, lo, i, s, k) ==> k == j by {
        forall k: nat | IsFirst(b, lo, i, s, k) ensures k == j { FirstIsUnique(b, lo, i, s, j, k); }
      }
      Estimate(step, s[j], Left(b, lo, i), b[i])
  }

  /** The estimates `define_expected_probabilities` returns for a sample and its bounds. */
  function ExpectedProbabilities(b: seq<real>, s: seq<real>): (p: seq<real>)
    requires |b| > 0 && |s| > 0
    ensures |p| == |b|
  {
    var lo := Min(s);
    var step := IntervalStep(Max(s), lo, |b|);
    seq(|b|, i requires 0 <= i < |b| => ExpectedOf(b, lo, step, s, i))
  }

  /** `define_expected_probabilities`: for every bucket, scans the sample for its first value
      in the bucket and records step · value · midpoint; buckets with no value keep 0. */
  method DefineExpectedProbabilities(intervals: seq<real>, sample: seq<real>) returns (p: seq<real>)
    requires |intervals| > 0 && |sample| > 0
    ensures |p| == |intervals|
    ensures p == ExpectedProbabilities(intervals, sample)
  {
    var minV := Min(sample);
    var step := IntervalStep(Max(sample), minV, |intervals|);
    p := seq(|intervals|, _ => 0.0);
    for i := 0 to |intervals|
      invariant |p| == |intervals|
      invariant forall i' :: 0 <= i' < i ==> p[i'] == ExpectedOf(intervals, minV, step, sample, i')
      invariant forall i' :: i <= i' < |p| ==> p[i'] == 0.0
    {
      var right := intervals[i];
      if i == 0 {
        var j := 0;
        while j < |sample|
          invariant 0 <= j <= |sample|
          invariant forall j' :: 0 <= j' < j ==> !InBucket(intervals, minV, i, sample[j'])
          invariant p[i] == 0.0
          invariant forall i' :: i < i' < |p| ==> p[i'] == 0.0
          invariant |p| == |intervals|
        {
          var value := sample[j];
          if value >= minV && value <= right {
            assert IsFirst(intervals, minV, i, sample, j);
            p := p[i := Estimate(step, value, minV, right)];
            break;
          }
          j := j + 1;
        }
      } else {
        var left := intervals[i - 1];
        var j := 0;
        while j < |sample|
          invariant 0 <= j <= |sample|
          invariant forall j' :: 0 <= j' < j ==> !InBucket(intervals, minV, i, sample[j'])
          invariant p[i] == 0.0
          invariant forall i' :: 0 <= i' < i ==> p[i'] == ExpectedOf(intervals, minV, step, sample, i')
          invariant forall i' :: i < i' < |p| ==> p[i'] == 0.0
          invariant |p| == |intervals|
        {
          var value := sample[j];
          if value > left && value <= right {
            assert IsFirst(intervals, minV, i, sample, j);
            p := p[i := Estimate(step, value, left, right)];
            break;
          }
          j := j + 1;
        }
      }
    }
  }

  /** Entry `i` of the estimates is 0 when no value lies in bucket `i`, and otherwise
      step · v · (right + left)/2 for the earliest value v in the bucket, with step the
      sample range over the number of buckets and left the minimum for the first bucket. */
  lemma ExpectedProbabilitiesAt(b: seq<real>, s: seq<real>, i: nat)
    requires |b| > 0 && |s| > 0 && i < |b|
    ensures (forall j :: 0 <= j < |s| ==> !InBucket(b, Min(s), i, s[j])) ==>
              ExpectedProbabilities(b, s)[i] == 0.0
    ensures forall j: nat :: IsFirst(b, Min(s), i, s, j) ==>
              ExpectedProbabilities(b, s)[i] ==
              Estimate(IntervalStep(Max(s), Min(s), |b|), s[j], Left(b, Min(s), i), b[i])
  {
  }

  /** A bucket that `get_freq` leaves empty gets estimate 0 (with non-decreasing bounds the two
      functions use the same bucket tests). */
  lemma {:induction false} EmptyBucketHasZeroEstimate(b: seq<real>, lo: real, step: real, s: seq<real>, i: nat)
    requires Sorted(b) && i < |b|
    requires Count(b, lo, i, s) == 0
    ensures ExpectedOf(b, lo, step, s, i) == 0.0
  {
    CountPositive(b, lo, i, s);
    forall j | 0 <= j < |s|
      ensures !InBucket(b, lo, i, s[j])
    {
      CountedIsInBucket(b, lo, i, s[j]);
    }
  }

  /** Over a sample's own intervals, a bucket with frequency 0 has estimate 0. */
  lemma ZeroFrequencyHasZeroEstimate(s: seq<real>, i: nat)
    requires |s| > 0 && i < |Intervals(s)|
    requires Frequencies(Intervals(s), s)[i] == 0.0
    ensures ExpectedProbabilities(Intervals(s), s)[i] == 0.0
  {
    var b, lo := Intervals(s), Min(s);
    RelativeZero(Counts(b, lo, s), |s|, i);
    IntervalsIncreasing(s);
    EmptyBucketHasZeroEstimate(b, lo, IntervalStep(Max(s), lo, |b|), s, i);
  }

  /** Of a constant sample every estimate is 0, since the step is 0. */
  lemma ExpectedOfConstant(s: seq<real>, v: real)
    requires |s| > 0 && Constant(s, v)
    ensures forall i :: 0 <= i < |Intervals(s)| ==> ExpectedProbabilities(Intervals(s), s)[i] == 0.0
  {
    MinMaxOfConstant(s, v);
    assert IntervalStep(Max(s), Min(s), |Intervals(s)|) == 0.0;
  }
}
