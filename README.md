# Goodness-of-fit pipeline of a normal-variate simulator, in Dafny

The program draws a sample from a hypothesized normal distribution and then checks the
sample against that hypothesis. This project models the checking part of
`project/signals.py`:

- the number of histogram intervals (Sturges' rule);
- the interval width and the right bounds of the intervals;
- the relative frequency of each interval;
- the order-dependent "expected probability" estimate of each interval;
- the chi-squared statistic and its comparison with a critical value at the 0.05 level;
- the empirical mean and variance;
- the relative errors of the mean and variance against the hypothesized values.

All numbers are Dafny `real`, so arithmetic is exact. A sample is a `seq<real>`.

Files and modules:

- `outcomes.dfy` (`Outcomes`): `Option`, plus `Result` with the two faults the pipeline can
  raise on ordinary input: a division by zero, and a degree of freedom missing from the
  critical-value table.
- `samples.dfy` (`Samples`): `min`, `max`, sums and sums of squares over a sample, with their
  algebra.
- `sturges.dfy` (`Sturges`): `count_intervals`, as exact ⌊log₂ n⌋ + 1.
- `binning.dfy` (`Binning`): `get_interval_step`, `get_intervals`, `get_freq`.
- `expectation.dfy` (`Expectation`): `define_expected_probabilities`.
- `statistics.dfy` (`Statistics`): `get_characteristics_of_rvs`, `get_relative_errors`,
  `chi_squared_test`.

How the code becomes Dafny:

- The three source functions that fill a list cell by cell become methods with loops:
  `get_intervals`, `get_freq` and `define_expected_probabilities`. Each method keeps the list
  as a local `seq` updated with `s[i := v]`, and is proved equal to a specification function
  (`Intervals`, `Frequencies`, `ExpectedProbabilities`).
- The two source functions that accumulate scalars in a loop become methods with loops over
  local `real` accumulators: `chi_squared_test` (the statistic `x`) and
  `get_characteristics_of_rvs` (the sums `e` and `d`). They are proved equal to `ChiSum` and
  to `Mean`/`Variance`.
- The lemmas then state the properties of those specification functions.
- The one-line functions (`count_intervals`, `get_interval_step`, `get_relative_errors`) become
  Dafny functions.
- `chi_squared_test` reads the module-level critical-value table `chi_square_005`. In the model
  this table is a `map<int, real>` parameter of `ChiSquaredTest`.

Two bucket tests appear in the source, and the model keeps both:

- `get_freq` tries buckets 1.. only for a value that failed the bucket-0 test. It does not stop
  at the first bucket that matches. This is the predicate `Counted`.
- `define_expected_probabilities` tests each bucket on its own. This is the predicate
  `InBucket`.

`CountedIsInBucket` proves that the two tests agree whenever the bounds are non-decreasing.
`IntervalsIncreasing` proves that the bounds of `get_intervals` are always non-decreasing.

Two consequences of the code as written:

- The docstring of `get_intervals` describes the first left bound as the minimum and the last
  right bound as the maximum. It does not say that the bounds collapse for a constant sample.
  When all values are equal, the step is 0, every bound equals that value, and every estimate
  is 0. The chi-squared step then always fails with a division by zero
  (`ConstantSampleFailsTest`). Bounds strictly increase only for a non-constant sample.
- The function is named `chi_squared_test`, but its statistic Σ f²/(n·p) − n over relative
  frequencies f is not Pearson's statistic. When the estimates equal the frequencies, it
  evaluates to 1/n − n rather than 0 (`StatisticOfPerfectFit`).

## Model

| member | source | states |
|---|---|---|
| Sturges.Log2Floor | project/signals.py:64 | ⌊log₂ n⌋ is the exponent e with 2^e ≤ n < 2^(e+1) |
| Sturges.CountIntervals | project/signals.py:62-64 | the interval count k is at least 1 and is the number of binary digits of the size: 2^(k−1) ≤ size < 2^k |
| Sturges.CountIntervalsUnique | project/signals.py:62-64 | any k with 2^(k−1) ≤ n < 2^k is the interval count of n, so the count is determined by that bracketing |
| Sturges.CountIntervalsMonotone | project/signals.py:62-64 | a larger sample never gets fewer intervals |
| Sturges.CountIntervalsExamples | project/signals.py:62-64 | sizes 1, 8, 10 and 100000 give 1, 4, 4 and 17 intervals |
| Binning.IntervalStep | project/signals.py:67-68 | step · count = max − min; the step is non-negative for min ≤ max and a positive count, positive for min < max, and 0 when max = min |
| Binning.GetIntervals | project/signals.py:71-84 | returns CountIntervals(n) bounds, the first min + step and each next one the previous plus step (the function `Intervals`) |
| Binning.IntervalsOfClosedForm | project/signals.py:80-82 | bound i equals lo + step·(i+1) |
| Binning.IntervalsOfSpacing | project/signals.py:80-82 | consecutive bounds differ by exactly one step |
| Binning.LastBoundIsMax | project/signals.py:67-68 | with the step of `get_interval_step`, the last of k bounds is exactly the maximum |
| Binning.BoundsAhead | project/signals.py:80-82 | for a non-negative step the bounds never decrease, and they strictly increase for a positive step |
| Binning.BoundOfZeroStep | project/signals.py:80-82 | with a zero step every bound equals the left end |
| Binning.IntervalsIncreasing | project/signals.py:71-84 | a sample's bounds are non-decreasing, and strictly increasing when max > min |
| Binning.IntervalsSpanSample | project/signals.py:71-84 | the first bound is at least the minimum and the last bound is exactly the maximum, so every value lies in [min, last bound] |
| Binning.IntervalsOfConstant | project/signals.py:71-84 | for a constant sample every bound equals the constant |
| Binning.Count | project/signals.py:90-96 | a bucket is incremented at most once per value, so its count never exceeds the sample size |
| Binning.Counts | project/signals.py:89-96 | one count per interval, each at most the sample size |
| Binning.GetFreq | project/signals.py:87-99 | returns one entry per interval: the number of values that pass the bucket test of `get_freq`, divided by the sample size (the function `Frequencies`) |
| Binning.RelativeBounds | project/signals.py:97-98 | a relative frequency times the size is its count, and lies in [0, 1] |
| Binning.RelativeZero | project/signals.py:97-98 | a relative frequency is 0 exactly when its count is 0 |
| Binning.FrequenciesBounds | project/signals.py:87-99 | each frequency is the bucket count over the sample size and lies in [0, 1] |
| Binning.AtMostOneBucket | project/signals.py:90-96 | with non-decreasing bounds a value increments at most one bucket |
| Binning.SomeBucket | project/signals.py:90-96 | with non-decreasing bounds a value in [lo, last bound] increments some bucket |
| Binning.CountsCoverSample | project/signals.py:90-96 | when every value lies in [lo, last bound] and the bounds are non-decreasing, the counts add up to the sample size |
| Binning.SumOfRelativeCounts | project/signals.py:97-98 | the sum of the first k relative frequencies is the sum of the first k counts over the size |
| Binning.RelativeCountsSumToOne | project/signals.py:87-99 | counts over covering buckets, divided by the size, sum to 1 |
| Binning.RelativeOfFullCounts | project/signals.py:97-98 | counts that add up to the size give relative frequencies that sum to 1 |
| Binning.FrequenciesSumToOne | project/signals.py:87-99 | over non-decreasing bounds whose last bound is at least every value, the frequencies sum to 1 |
| Binning.BinnedFrequenciesSumToOne | project/signals.py:71-99 | the frequencies of a sample over its own intervals sum to exactly 1 |
| Binning.CountOfNone | project/signals.py:90-96 | a bucket no value passes has count 0 |
| Binning.CountOfAll | project/signals.py:90-96 | a bucket every value passes has count equal to the size |
| Binning.RelativeCountsOfConstant | project/signals.py:87-99 | over bounds all equal to v, a constant sample of v gives frequency 1 to the first bucket and 0 to the others |
| Binning.FrequenciesOfConstant | project/signals.py:71-99 | a constant sample has frequencies [1, 0, …, 0] over its own intervals |
| Binning.CountPositive | project/signals.py:90-96 | a bucket's count is positive if and only if some value passes its test |
| Binning.ValueInExactlyOneBucket | project/signals.py:90-96 | every value of a sample increments exactly one bucket of the sample's own intervals: some bucket, and no other |
| Binning.CountedIsInBucket | project/signals.py:90-96 | with non-decreasing bounds, the test of `get_freq` (bucket i only after bucket 0 failed) is the same as the plain bucket test |
| Samples.Min | project/signals.py:74 | the minimum is an element of the sample and is at most every element |
| Samples.Max | project/signals.py:73 | the maximum is an element of the sample and is at least every element |
| Samples.Abs | project/signals.py:150-151 | the absolute value is non-negative and is x or −x |
| Samples.SumOfConstant | project/signals.py:140-142 | a constant sample of v has sum n·v and sum of squares n·v² |
| Samples.MinMaxOfConstant | project/signals.py:73-74 | a constant sample's minimum and maximum are the constant |
| Samples.SumBetweenBounds | project/signals.py:140-141 | the sum lies between n·lo and n·hi when every value lies in [lo, hi] |
| Samples.SumSqDevExpansion | project/signals.py:142-145 | Σ(x − m)² = Σx² − 2mΣx + n·m² |
| Samples.SumSqDevAroundMean | project/signals.py:142-145 | around the mean m (n·m = Σx), Σ(x − m)² = Σx² − n·m² |
| Samples.SumSqDevNonNegative | project/signals.py:145 | a sum of squared deviations is never negative |
| Expectation.FirstInBucket | project/signals.py:110-119 | returns None if and only if no value is in the bucket, and otherwise the index of the first such value in sample order |
| Expectation.ExpectedOf | project/signals.py:108-119 | an empty bucket has estimate 0, and otherwise the estimate is step · v · (left + right)/2 for the first value v in the bucket |
| Expectation.ExpectedProbabilities | project/signals.py:102-120 | one estimate per interval |
| Expectation.DefineExpectedProbabilities | project/signals.py:102-120 | the scan that stops at the first value in each bucket returns exactly the estimates of `ExpectedProbabilities`, with min and step taken from the sample |
| Expectation.ExpectedProbabilitiesAt | project/signals.py:104-119 | entry i is 0 for an empty bucket, and step · v · midpoint for the first value v in it, with the sample minimum as the left end of bucket 0 |
| Expectation.EmptyBucketHasZeroEstimate | project/signals.py:107-119 | with non-decreasing bounds, a bucket `get_freq` counts no value in has estimate 0 |
| Expectation.ZeroFrequencyHasZeroEstimate | project/signals.py:87-120 | over a sample's own intervals, a zero frequency implies a zero estimate |
| Expectation.ExpectedOfConstant | project/signals.py:104-120 | for a constant sample every estimate is 0, since the step is 0 |
| Statistics.GetCharacteristics | project/signals.py:135-146 | the one-pass Σx/n and Σx²/n − mean² equal the mean and the population variance, the latter being the mean squared deviation from the mean |
| Statistics.OnePassCharacteristics | project/signals.py:141-145 | from the sum e and the sum of squares d of a non-empty sample, e·(1/n) is the mean and d·(1/n) − (e·(1/n))² the variance |
| Statistics.MeanOfSum | project/signals.py:141-143 | the sum scaled by 1/n is the mean |
| Statistics.VarianceOfSums | project/signals.py:143-145 | when n·m = Σx and n·v = Σx² − n·m², the sum of squares scaled by 1/n minus m² is v |
| Statistics.DeviationsAtMean | project/signals.py:142-145 | the squared deviations from the mean sum to Σx² − n·mean² |
| Statistics.VarianceTimesSizeExpanded | project/signals.py:142-145 | n times the variance is Σx² − n·mean² |
| Statistics.OnePassAlgebra | project/signals.py:143-145 | when D = Σx² − n·m² and v·n = D, Σx²·(1/n) − m² = v |
| Statistics.VarianceNonNegative | project/signals.py:142-145 | the variance is never negative |
| Statistics.MeanWithinRange | project/signals.py:141-143 | the mean lies between the sample minimum and maximum |
| Statistics.MeanBetween | project/signals.py:141-143 | the mean lies in any interval that holds every value |
| Statistics.CharacteristicsOfConstant | project/signals.py:135-146 | a constant sample of v has mean v and variance 0 |
| Statistics.SumSqDevAtConstant | project/signals.py:142-145 | the squared deviations of a constant sample from its value sum to 0 |
| Statistics.GetRelativeErrors | project/signals.py:149-152 | fails with a division by zero exactly when an expected value is 0; otherwise each error is non-negative, error · abs(expected) = abs(empirical − expected), and the error is 0 exactly when empirical equals expected |
| Statistics.ChiSquaredTest | project/signals.py:123-132 | fails with a division by zero exactly when some n · p[i] is 0; then fails exactly when k − 1 is not in the table; otherwise returns Σ f²/(n·p) − n, the table entry, and reject if and only if the statistic exceeds it |
| Statistics.ChiSumOfPerfectFit | project/signals.py:125-127 | when the estimates equal the frequencies, the sum of the first k terms is the sum of the first k frequencies over n |
| Statistics.TermOfPerfectFit | project/signals.py:127 | when the estimate equals a non-zero frequency x, the term x²/(n·x) is x/n |
| Statistics.StatisticOfPerfectFit | project/signals.py:125-128 | when the estimates equal frequencies that sum to 1, the statistic is 1/n − n |
| Statistics.EmptyBucketFailsTest | project/signals.py:127 | over a sample's own intervals, a bucket with frequency 0 makes a divisor zero, so the test fails |
| Statistics.ConstantSampleFailsTest | project/signals.py:127 | a constant sample always makes a divisor zero, so the test fails |

## Left out

- `generator` and `get_normal_rv` (Box–Muller from `random`) are not modelled: randomness and trigonometry are outside the model. A sample is an arbitrary `seq<real>`.
- `start` is not modelled: widget reads, label texts, rounding for display and the `print(k)` in `get_intervals` are I/O.
- `draw_bar` is not modelled: it is plotting only.
- `objects.py` and the button wiring are not modelled: they are GUI glue.
- The contents of `chi_square_005` are not modelled: the table lives in `constants.py`, which is not part of this model, so it is a parameter.
- IEEE floating point is not modelled: all arithmetic is exact over `real`. In particular, `floor(log(size, 2))` can misround just below a power of two in floating point, while `Log2Floor` is exact. More important for the binning lemmas: the last bound is built by k − 1 repeated additions of the step, so in floating point it can land below `max(sample)`. The maximum then passes no bucket test of `get_freq`. `LastBoundIsMax`, `BinnedFrequenciesSumToOne` and `ValueInExactlyOneBucket` hold only in this exact-real model.
- Python's distinction between the integer 0 and the float 0.0 in freshly made lists is not modelled.
- Sturges.CountIntervals: requires size ≥ 1, because Python's `log` raises a ValueError for 0.
- Binning.GetIntervals: requires a non-empty sample, because `max` and `min` raise a ValueError on an empty list.
- Binning.GetFreq: requires non-empty intervals and sample. With a non-empty sample and no intervals, `intervals[0]` raises an IndexError. With an empty sample and some intervals, `freq/size` raises a ZeroDivisionError. `get_freq([], [])` returns `[]` in the source; the model excludes it, because its only caller first runs `get_intervals`, which raises on an empty sample.
- Expectation.DefineExpectedProbabilities: requires non-empty intervals and sample, because `min`/`max` raise a ValueError and `get_interval_step` divides by the interval count.
- Statistics.GetCharacteristics: requires a non-empty sample, because `1 / size` raises a ZeroDivisionError.
- Statistics.ChiSquaredTest: requires at least as many estimates as frequencies, because Python raises an IndexError otherwise. A missing table entry (`get` returns None, and the comparison raises a TypeError) is modelled as `MissingCriticalValue`.
- Binning.IntervalsOfClosedForm: the closed form lo + step·(i+1) is stated for `IntervalsOf` with a free left end and step, not directly for a sample's `Intervals`; `Intervals` is `IntervalsOf` at the sample's minimum and step.
