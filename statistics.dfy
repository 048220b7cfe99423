/** The statistics and test engine: empirical mean and variance, their relative errors,
    and the chi-squared statistic compared against a critical-value table. */
module Statistics {
  import opened Outcomes
  import opened Samples
  import opened Binning
  import opened Expectation

  /** The arithmetic mean of a sample. */
  function Mean(s: seq<real>): real
    requires |s| > 0
  {
    Sum(s) / |s| as real
  }

  /** The population variance by its definition: the mean squared deviation from the mean. */
  function Variance(s: seq<real>): real
    requires |s| > 0
  {
    SumSqDev(s, Mean(s)) / |s| as real
  }

  /** `get_characteristics_of_rvs`: one pass accumulating the sum and the sum of squares,
      then mean = Σx/n and variance = Σx²/n − mean². */
  method GetCharacteristics(sample: seq<real>) returns (mean: real, variance: real)
    requires |sample| > 0
    ensures mean == Mean(sample)
    ensures variance == Variance(sample)
  {
    var e := 0.0;
    var d := 0.0;
    var size := |sample|;
    for i := 0 to size
      invariant e == Sum(sample[..i])
      invariant d == SumSq(sample[..i])
    {
      assert sample[..i + 1][..i] == sample[..i];
      e := e + sample[i];
      d := d + sample[i] * sample[i];
    }
    assert sample[..size] == sample;
    OnePassCharacteristics(sample, e, d);
    e := e * (1.0 / size as real);
    d := d * (1.0 / size as real);
    d := d - e * e;
    mean, variance := e, d;
  }

  /** From the sum e and the sum of squares d of a sample, e·(1/n) is its mean and
      d·(1/n) − (e·(1/n))² its variance. */
  lemma {:induction false} OnePassCharacteristics(s: seq<real>, e: real, d: real)
    requires |s| > 0 && e == Sum(s) && d == SumSq(s)
    ensures e * (1.0 / |s| as real) == Mean(s)
    ensures d * (1.0 / |s| as real) - (e * (1.0 / |s| as real)) * (e * (1.0 / |s| as real)) == Variance(s)
  {
    MeanOfSum(s);
    MeanTimesSize(s);
    VarianceTimesSizeExpanded(s);
    VarianceOfSums(s, Mean(s), Variance(s));
  }

  /** Scaling the sum by 1/n, as the source does, gives the mean. */
  lemma {:induction false} MeanOfSum(s: seq<real>)
    requires |s| > 0
    ensures Sum(s) * (1.0 / |s| as real) == Mean(s)
  {
    TimesReciprocal(Sum(s), |s| as real);
  }

  /** With n·m = Σx and n·v = Σx² − n·m², scaling Σx² by 1/n and subtracting m² gives v. */
  lemma {:induction false} VarianceOfSums(s: seq<real>, m: real, v: real)
    requires |s| > 0
    requires m * (|s| as real) == Sum(s) && v * (|s| as real) == SumSq(s) - |s| as real * (m * m)
    ensures SumSq(s) * (1.0 / |s| as real) - m * m == v
  {
    OnePassAlgebra(SumSq(s), SumSq(s) - |s| as real * (m * m), |s| as real, m, v);
  }

  /** The variance times the size is Σx² − n·mean². */
  lemma {:induction false} VarianceTimesSizeExpanded(s: seq<real>)
    requires |s| > 0
    ensures Variance(s) * (|s| as real) == SumSq(s) - |s| as real * (Mean(s) * Mean(s))
  {
    VarianceTimesSize(s);
    DeviationsAtMean(s);
  }

  /** The variance times the size is the sum of squared deviations from the mean. */
  lemma {:induction false} VarianceTimesSize(s: seq<real>)
    requires |s| > 0
    ensures Variance(s) * (|s| as real) == SumSqDev(s, Mean(s))
  {
  }

  /** The squared deviations from the mean sum to Σx² − n·mean². */
  lemma {:induction false} DeviationsAtMean(s: seq<real>)
    requires |s| > 0
    ensures SumSqDev(s, Mean(s)) == SumSq(s) - |s| as real * (Mean(s) * Mean(s))
  {
    MeanTimesSize(s);
    SumSqDevAroundMean(s, Mean(s));
  }

  /** The mean times the size is the sum. */
  lemma {:induction false} MeanTimesSize(s: seq<real>)
    requires |s| > 0
    ensures Mean(s) * (|s| as real) == Sum(s)
  {
  }

  /** The one-pass formula: when D = Σx² − n m², which is Σ(x − m)² at the mean m,
      Σx²·(1/n) − m² = D / n, the variance v. */
  lemma OnePassAlgebra(sq: real, dev: real, n: real, m: real, v: real)
    requires n > 0.0 && dev == sq - n * (m * m) && v * n == dev
    ensures sq * (1.0 / n) - m * m == v
  {
    assert v == dev / n;
    TimesReciprocal(sq, n);
    CancelFactor(m * m, n);
    DivisionDistributes(sq, -(n * (m * m)), n);
  }

  /** The population variance is never negative. */
  lemma {:induction false} VarianceNonNegative(s: seq<real>)
    requires |s| > 0
    ensures Variance(s) >= 0.0
  {
    SumSqDevNonNegative(s, Mean(s));
  }

  /** The mean lies between the sample minimum and maximum. */
  lemma {:induction false} MeanWithinRange(s: seq<real>)
    requires |s| > 0
    ensures Min(s) <= Mean(s) <= Max(s)
  {
    MeanBetween(s, Min(s), Max(s));
  }

  lemma {:induction false} MeanBetween(s: seq<real>, lo: real, hi: real)
    requires |s| > 0
    requires forall j :: 0 <= j < |s| ==> lo <= s[j] <= hi
    ensures lo <= Mean(s) <= hi
  {
    SumBetweenBounds(s, lo, hi);
    QuotientBetween(Sum(s), lo, hi, |s| as real);
  }

  /** A constant sample of `v` has mean `v` and variance 0. */
  lemma {:induction false} CharacteristicsOfConstant(s: seq<real>, v: real)
    requires |s| > 0 && Constant(s, v)
    ensures Mean(s) == v
    ensures Variance(s) == 0.0
  {
    SumOfConstant(s, v);
    CancelFactor(v, |s| as real);
    SumSqDevAtConstant(s, v);
  }

  lemma {:induction false} SumSqDevAtConstant(s: seq<real>, v: real)
    requires Constant(s, v)
    ensures SumSqDev(s, v) == 0.0
  {
    if |s| > 0 {
      SumSqDevAtConstant(s[..|s| - 1], v);
    }
  }

  /** `get_relative_errors`: |empirical − expected| / |expected| for the mean and for the variance;
      a zero expected mean (tried first) or variance is a division by zero. */
  function GetRelativeErrors(expected: (real, real), empiric: (real, real)): (r: Result<(real, real)>)
    ensures r.Err? <==> expected.0 == 0.0 || expected.1 == 0.0
    ensures r.Err? ==> r.error == DivisionByZero
    ensures r.Ok? ==> r.value.0 >= 0.0 && r.value.1 >= 0.0
    ensures r.Ok? ==> r.value.0 * Abs(expected.0) == Abs(empiric.0 - expected.0)
    ensures r.Ok? ==> r.value.1 * Abs(expected.1) == Abs(empiric.1 - expected.1)
    ensures r.Ok? ==> (r.value.0 == 0.0 <==> empiric.0 == expected.0)
    ensures r.Ok? ==> (r.value.1 == 0.0 <==> empiric.1 == expected.1)
  {
    if expected.0 == 0.0 then Err(DivisionByZero)
    else
      var eErr := Abs(empiric.0 - expected.0) / Abs(expected.0);
      if expected.1 == 0.0 then Err(DivisionByZero)
      else
        var dErr := Abs(empiric.1 - expected.1) / Abs(expected.1);
        Ok((eErr, dErr))
  }

  /** The outcome of the chi-squared test: whether the hypothesis is rejected,
      the statistic and the critical value it was compared with. */
  datatype ChiSquared = ChiSquared(reject: bool, statistic: real, critical: real)

  /** No divisor n · p[i], i < k, of the statistic is zero: neither factor is
      (n is only a factor when there is some term). */
  predicate NonZeroDivisors(n: int, p: seq<real>, k: nat)
    requires k <= |p|
  {
    (k > 0 ==> n != 0) && forall i :: 0 <= i < k ==> p[i] != 0.0
  }

  /** One term f² / (n · p) of the statistic. */
  function Term(n: real, fi: real, pi: real): real
    requires n != 0.0 && pi != 0.0
  {
    ProductIsZero(n, pi);
    fi * fi / (n * pi)
  }

  /** Σ f[i]² / (n · p[i]) over the first `k` buckets. */
  function ChiSum(n: int, f: seq<real>, p: seq<real>, k: nat): real
    requires k <= |f| && k <= |p| && NonZeroDivisors(n, p, k)
  {
    if k == 0 then 0.0
    else ChiSum(n, f, p, k - 1) + Term(n as real, f[k - 1], p[k - 1])
  }

  /** `chi_squared_test`: the statistic Σ f²/(n·p) − n, compared with the table entry for
      |f| − 1 degrees of freedom. A zero divisor fails first, then a missing table entry. */
  method ChiSquaredTest(sampleSize: int, frequencies: seq<real>, expected: seq<real>, table: map<int, real>)
    returns (r: Result<ChiSquared>)
    requires |frequencies| <= |expected|
    ensures r == Err(DivisionByZero) <==> !NonZeroDivisors(sampleSize, expected, |frequencies|)
    ensures r == Err(MissingCriticalValue) <==>
              NonZeroDivisors(sampleSize, expected, |frequencies|) && |frequencies| - 1 !in table
    ensures r.Ok? <==> NonZeroDivisors(sampleSize, expected, |frequencies|) && |frequencies| - 1 in table
    ensures r.Ok? ==>
              NonZeroDivisors(sampleSize, expected, |frequencies|) && |frequencies| - 1 in table &&
              r.value.statistic == ChiSum(sampleSize, frequencies, expected, |frequencies|) - sampleSize as real &&
              r.value.critical == table[|frequencies| - 1] &&
              (r.value.reject <==> r.value.statistic > r.value.critical)
  {
    var x := 0.0;
    for i := 0 to |frequencies|
      invariant NonZeroDivisors(sampleSize, expected, i)
      invariant x == ChiSum(sampleSize, frequencies, expected, i)
    {
      var divisor := sampleSize as real * expected[i];
      ProductIsZero(sampleSize as real, expected[i]);
      if divisor == 0.0 {
        return Err(DivisionByZero);
      }
      x := x + frequencies[i] * frequencies[i] / divisor;
    }
    x := x - sampleSize as real;
    var df := |frequencies| - 1;
    if df !in table {
      return Err(MissingCriticalValue);
    }
    var critical := table[df];
    if x > critical {
      return Ok(ChiSquared(true, x, critical));
    }
    return Ok(ChiSquared(false, x, critical));
  }

  /** When the estimates equal the frequencies, each term f²/(n·f) is f/n, so the sum is Σf / n. */
  lemma {:induction false} ChiSumOfPerfectFit(n: int, f: seq<real>, k: nat)
    requires n != 0 && k <= |f| && NonZeroDivisors(n, f, k)
    ensures ChiSum(n, f, f, k) == Sum(f[..k]) / n as real
  {
    if k > 0 {
      var x, acc := f[k - 1], Sum(f[..k - 1]);
      assert f[..k][..k - 1] == f[..k - 1];
      assert Sum(f[..k]) == acc + x;
      ChiSumOfPerfectFit(n, f, k - 1);
      TermOfPerfectFit(n as real, x);
      DivisionDistributes(acc, x, n as real);
    }
  }

  /** With the estimate equal to the frequency, a term f² / (n · f) is f / n. */
  lemma TermOfPerfectFit(n: real, x: real)
    requires n != 0.0 && x != 0.0
    ensures Term(n, x, x) == x / n
  {
    var q := x * x / (n * x);
    assert q * (n * x) == x * x;
    assert (q * n - x) * x == 0.0;
    assert q * n == x;
  }

  /** For frequencies summing to 1 and estimates equal to them, the statistic is 1/n − n,
      not 0: the sum divides relative frequencies by n instead of multiplying by it. */
  lemma {:induction false} StatisticOfPerfectFit(n: int, f: seq<real>)
    requires n != 0 && NonZeroDivisors(n, f, |f|) && Sum(f) == 1.0
    ensures ChiSum(n, f, f, |f|) - n as real == 1.0 / n as real - n as real
  {
    assert f[..|f|] == f;
    ChiSumOfPerfectFit(n, f, |f|);
  }

  /** Over a sample's own intervals, a bucket with frequency 0 yields a zero divisor,
      so `chi_squared_test` fails with a division by zero. */
  lemma {:induction false} EmptyBucketFailsTest(s: seq<real>, i: nat)
    requires |s| > 0 && i < |Intervals(s)|
    requires Frequencies(Intervals(s), s)[i] == 0.0
    ensures !NonZeroDivisors(|s|, ExpectedProbabilities(Intervals(s), s), |Intervals(s)|)
  {
    ZeroFrequencyHasZeroEstimate(s, i);
  }

  /** A constant sample always fails the test with a division by zero: every estimate is 0. */
  lemma {:induction false} ConstantSampleFailsTest(s: seq<real>, v: real)
    requires |s| > 0 && Constant(s, v)
    ensures !NonZeroDivisors(|s|, ExpectedProbabilities(Intervals(s), s), |Intervals(s)|)
  {
    ExpectedOfConstant(s, v);
    assert ExpectedProbabilities(Intervals(s), s)[0] == 0.0;
  }
}
