/** Sturges' rule: the number of histogram intervals for a sample size. */
module Sturges {

  function Pow2(k: nat): (p: nat)
    ensures p >= 1
  {
    if k == 0 then 1 else 2 * Pow2(k - 1)
  }

  /** ⌊log₂ n⌋, the exact value that `floor(log(n, 2))` approximates in floating point. */
  function Log2Floor(n: nat): (e: nat)
    requires n >= 1
    ensures Pow2(e) <= n < Pow2(e + 1)
  {
    if n == 1 then 0 else 1 + Log2Floor(n / 2)
  }

  /** `count_intervals`: ⌊log₂ size⌋ + 1, i.e. the number of binary digits of `size`. */
  function CountIntervals(size: nat): (k: nat)
    requires size >= 1
    ensures k >= 1
    ensures Pow2(k - 1) <= size < Pow2(k)
  {
    Log2Floor(size) + 1
  }

  lemma {:induction false} Pow2Monotone(a: nat, b: nat)
    requires a <= b
    ensures Pow2(a) <= Pow2(b)
  {
    if a < b {
      Pow2Monotone(a, b - 1);
    }
  }

  /** The bracketing 2^(k-1) <= n < 2^k determines the interval count. */
  lemma CountIntervalsUnique(n: nat, k: nat)
    requires n >= 1 && k >= 1
    requires Pow2(k - 1) <= n < Pow2(k)
    ensures CountIntervals(n) == k
  {
    var c := CountIntervals(n);
    if c < k {
      Pow2Monotone(c, k - 1);
    } else if c > k {
      Pow2Monotone(k, c - 1);
    }
  }

  /** More values never give fewer intervals. */
  lemma CountIntervalsMonotone(m: nat, n: nat)
    requires 1 <= m <= n
    ensures CountIntervals(m) <= CountIntervals(n)
  {
    var cm, cn := CountIntervals(m), CountIntervals(n);
    if cn < cm {
      Pow2Monotone(cn, cm - 1);
    }
  }

  /** Sturges' count at a few sizes, among them 10 and 100000, the ends of the practical sample-size range. */
  lemma CountIntervalsExamples()
    ensures CountIntervals(1) == 1
    ensures CountIntervals(8) == 4
    ensures CountIntervals(10) == 4
    ensures CountIntervals(100000) == 17
  {
    CountIntervalsUnique(8, 4);
    CountIntervalsUnique(10, 4);
    assert Pow2(16) == 65536 && Pow2(17) == 131072;
    CountIntervalsUnique(100000, 17);
  }
}
