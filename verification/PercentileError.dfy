/** How far a histogram quantile can be from the true order statistic, and that quantiles are
    monotone in the fraction asked for. */
module PercentileError {
  import opened Common
  import opened Bounds
  import opened Histogram
  import opened Percentile

  // ---------------------------------------------------------------- inside one bucket

  lemma Fraction(a: int, b: int)
    requires 0 < a <= b
    ensures 0.0 < a as real / b as real <= 1.0
  {
  }

  /** Part `d` of a width, at a fraction of at most one. */
  lemma Scaled(f: real, w: real) returns (d: real)
    requires 0.0 < f <= 1.0 && w >= 0.0
    ensures d == f * w && 0.0 <= d <= w && (w > 0.0 ==> d > 0.0)
  {
    d := f * w;
    NonnegativeProduct(1.0 - f, w);
    assert (1.0 - f) * w == w - d;
    if w > 0.0 { PositiveProduct(f, w); }
  }

  /** A blend at a fraction of at most one stays between its ends. */
  lemma BlendBetween(lower: real, upper: real, part: int, whole: int)
    requires lower <= upper && 0 < part <= whole
    ensures lower <= Blend(lower, upper, part, whole) <= upper
    ensures lower < upper ==> lower < Blend(lower, upper, part, whole)
  {
    Fraction(part, whole);
    var w := upper - lower;
    var d := Scaled(part as real / whole as real, w);
    Shifted(lower, upper, w, d, (part as real / whole as real) * (upper - lower));
  }

  lemma BlendMonotone(lower: real, upper: real, a: int, b: int, whole: int)
    requires lower <= upper && a <= b && whole > 0
    ensures Blend(lower, upper, a, whole) <= Blend(lower, upper, b, whole)
  {
    var f, g, w := a as real / whole as real, b as real / whole as real, upper - lower;
    DivideMonotone(a as real, b as real, whole as real);
    MulMonotone(w, f, g);
    Commute(w, f);
    Commute(w, g);
  }

  lemma Shifted(lower: real, upper: real, w: real, d: real, product: real)
    requires w == upper - lower && 0.0 <= d <= w && (w > 0.0 ==> d > 0.0) && product == d
    ensures lower <= lower + product <= upper && (lower < upper ==> lower < lower + product)
  {
  }

  /** The estimate never leaves the bucket of the rank looked for. */
  lemma EstimateInBucket(h: Hist, i: nat, k: int)
    requires ValidHist(h) && i < |h.counts| && Cum(h.counts, i) < k <= Cum(h.counts, i + 1)
    ensures Lower(h, i) <= Interpolate(h, i, k)
    ensures i < |h.bounds| - 1 ==> Interpolate(h, i, k) <= h.bounds[i]
    ensures i < |h.bounds| - 1 && Lower(h, i) < h.bounds[i] ==> Lower(h, i) < Interpolate(h, i, k)
    ensures i == |h.bounds| - 1 ==> Interpolate(h, i, k) == Lower(h, i)
  {
    CumNext(h.counts, i);
    if i < |h.bounds| - 1 {
      BlendBetween(Lower(h, i), h.bounds[i], k - Cum(h.counts, i), h.counts[i]);
    }
  }

  // ---------------------------------------------------------------- monotone in the fraction

  lemma RankMonotone(count: int, p: real, q: real)
    requires count >= 0 && p <= q
    ensures Rank(count, p) <= Rank(count, q)
  {
    MulMonotone(count as real, p, q);
    CeilMonotone(count as real * p, count as real * q);
  }

  lemma CeilMonotone(x: real, y: real)
    requires x <= y
    ensures Ceil(x) <= Ceil(y)
  {
    assert (-y).Floor as real <= -y <= -x;
  }

  lemma RankBucketMonotone(counts: seq<int>, k: int, l: int)
    requires Nonnegative(counts) && 1 <= k <= l <= Sum(Same, counts)
    ensures RankBucket(counts, k) <= RankBucket(counts, l)
  {
    RankBucketMeaning(counts, k);
    RankBucketMeaning(counts, l);
  }

  lemma DivideMonotone(a: real, b: real, n: real)
    requires a <= b && n > 0.0
    ensures a / n <= b / n
  {
    MulMonotone(1.0 / n, a, b);
    Reciprocal(a, n);
    Reciprocal(b, n);
  }

  lemma Reciprocal(a: real, n: real)
    requires n > 0.0
    ensures (1.0 / n) * a == a / n
  {
  }

  lemma Commute(a: real, b: real)
    ensures a * b == b * a
  {
  }

  lemma InterpolateMonotone(h: Hist, i: nat, k: int, l: int)
    requires ValidHist(h) && i < |h.counts| && k <= l
    requires Cum(h.counts, i) < k && l <= Cum(h.counts, i + 1)
    ensures Interpolate(h, i, k) <= Interpolate(h, i, l)
  {
    CumNext(h.counts, i);
    if i < |h.bounds| - 1 {
      BlendMonotone(Lower(h, i), h.bounds[i], k - Cum(h.counts, i), l - Cum(h.counts, i), h.counts[i]);
    }
  }

  /** A larger fraction never gives a smaller estimate, across buckets and into the overflow. */
  lemma QuantileMonotone(h: Hist, p: real, q: real)
    requires ValidHist(h) && p <= q <= 1.0
    ensures Quantile(h, p) <= Quantile(h, q)
  {
    if h.count > 0 {
      RankInRange(h.count, p);
      RankInRange(h.count, q);
      var k, l := Rank(h.count, p), Rank(h.count, q);
      RankMonotone(h.count, p, q);
      RankBucketMonotone(h.counts, k, l);
      var i, j := RankBucket(h.counts, k), RankBucket(h.counts, l);
      RankBucketMeaning(h.counts, k);
      RankBucketMeaning(h.counts, l);
      if i == j {
        InterpolateMonotone(h, i, k, l);
      } else {
        EstimateInBucket(h, i, k);
        EstimateInBucket(h, j, l);
        assert h.bounds[i] <= h.bounds[j - 1];
      }
    }
  }

  // ---------------------------------------------------------------- order statistics

  ghost predicate Sorted(s: seq<int>) {
    forall i, j :: 0 <= i < j < |s| ==> s[i] <= s[j]
  }

  lemma BucketMonotone(bounds: seq<int>, a: int, b: int)
    requires a <= b
    ensures Bucket(bounds, a) <= Bucket(bounds, b)
  {
  }

  function Below(bounds: seq<int>, n: nat): int -> int {
    (d: int) => if Bucket(bounds, d) < n then 1 else 0
  }

  /** The cumulative count is the number of samples in the buckets before. */
  lemma {:induction false} CumOfTally(bounds: seq<int>, samples: seq<int>, n: nat)
    requires n <= |bounds| + 1
    ensures Cum(Tally(bounds, samples), n) == Sum(Below(bounds, n), samples)
  {
    if n == 0 {
      assert Tally(bounds, samples)[..0] == [];
      SumZero(Below(bounds, 0), samples);
    } else {
      CumOfTally(bounds, samples, n - 1);
      CumNext(Tally(bounds, samples), n - 1);
      SumOfTwo(Below(bounds, n - 1), InBucket(bounds, n - 1), Below(bounds, n), samples);
    }
  }

  lemma {:induction false} SumZero(f: int -> int, s: seq<int>)
    requires forall d :: f(d) == 0
    ensures Sum(f, s) == 0
  {
    if s != [] { SumZero(f, s[1..]); }
  }

  lemma {:induction false} SumOfTwo(f: int -> int, g: int -> int, h: int -> int, s: seq<int>)
    requires forall d :: f(d) + g(d) == h(d)
    ensures Sum(f, s) + Sum(g, s) == Sum(h, s)
  {
    if s != [] { SumOfTwo(f, g, h, s[1..]); }
  }

  /** In sorted samples the k-th lies below a bucket exactly when k samples do. */
  lemma SortedRank(bounds: seq<int>, sorted: seq<int>, n: nat, k: nat)
    requires Sorted(sorted) && 1 <= k <= |sorted|
    ensures Bucket(bounds, sorted[k - 1]) < n <==> Sum(Below(bounds, n), sorted) >= k
  {
    if Bucket(bounds, sorted[k - 1]) < n {
      LowBelow(bounds, sorted, n, k);
    } else {
      HighAbove(bounds, sorted, n, k);
    }
  }

  lemma LowBelow(bounds: seq<int>, sorted: seq<int>, n: nat, k: nat)
    requires Sorted(sorted) && 1 <= k <= |sorted| && Bucket(bounds, sorted[k - 1]) < n
    ensures Sum(Below(bounds, n), sorted) >= k
  {
    AllBelow(bounds, sorted[..k], sorted[k - 1], n);
    BelowCount(bounds, sorted[k..], n);
    SumAppend(Below(bounds, n), sorted[..k], sorted[k..]);
    assert sorted == sorted[..k] + sorted[k..];
  }

  lemma HighAbove(bounds: seq<int>, sorted: seq<int>, n: nat, k: nat)
    requires Sorted(sorted) && 1 <= k <= |sorted| && Bucket(bounds, sorted[k - 1]) >= n
    ensures Sum(Below(bounds, n), sorted) < k
  {
    NoneBelow(bounds, sorted[k - 1..], sorted[k - 1], n);
    BelowCount(bounds, sorted[..k - 1], n);
    SumAppend(Below(bounds, n), sorted[..k - 1], sorted[k - 1..]);
    assert sorted == sorted[..k - 1] + sorted[k - 1..];
  }

  lemma {:induction false} AllBelow(bounds: seq<int>, s: seq<int>, top: int, n: nat)
    requires Bucket(bounds, top) < n && forall i :: 0 <= i < |s| ==> s[i] <= top
    ensures Sum(Below(bounds, n), s) == |s|
  {
    if s != [] {
      BucketMonotone(bounds, s[0], top);
      AllBelow(bounds, s[1..], top, n);
    }
  }

  lemma {:induction false} NoneBelow(bounds: seq<int>, s: seq<int>, bottom: int, n: nat)
    requires Bucket(bounds, bottom) >= n && forall i :: 0 <= i < |s| ==> bottom <= s[i]
    ensures Sum(Below(bounds, n), s) == 0
  {
    if s != [] {
      BucketMonotone(bounds, bottom, s[0]);
      NoneBelow(bounds, s[1..], bottom, n);
    }
  }

  lemma {:induction false} BelowCount(bounds: seq<int>, s: seq<int>, n: nat)
    ensures 0 <= Sum(Below(bounds, n), s) <= |s|
  {
    if s != [] { BelowCount(bounds, s[1..], n); }
  }

  /** The bucket found for rank k is the bucket of the k-th smallest sample. */
  lemma RankBucketOfSamples(bounds: seq<int>, sorted: seq<int>, k: nat)
    requires Sorted(sorted) && 1 <= k <= |sorted|
    ensures Sum(Same, Tally(bounds, sorted)) == |sorted| && Nonnegative(Tally(bounds, sorted))
    ensures RankBucket(Tally(bounds, sorted), k) == Bucket(bounds, sorted[k - 1])
  {
    var t, i := Tally(bounds, sorted), Bucket(bounds, sorted[k - 1]);
    TallyTotal(bounds, sorted);
    SortedRank(bounds, sorted, i, k);
    SortedRank(bounds, sorted, i + 1, k);
    CumOfTally(bounds, sorted, i);
    CumOfTally(bounds, sorted, i + 1);
    RankBucketUnique(t, k, i);
  }

  lemma TallyTotal(bounds: seq<int>, samples: seq<int>)
    ensures Sum(Same, Tally(bounds, samples)) == |samples| && Nonnegative(Tally(bounds, samples))
  {
    var t := Tally(bounds, samples);
    CumOfTally(bounds, samples, |bounds| + 1);
    assert t[..|t|] == t;
    SumOfTwo(Below(bounds, |bounds| + 1), Zero, One, samples);
    SumZero(Zero, samples);
    SumOnes(samples);
    forall i | 0 <= i < |t| ensures t[i] >= 0 {
      InBucketCount(bounds, i, samples);
    }
  }

  function Zero(d: int): int { 0 }

  lemma {:induction false} InBucketCount(bounds: seq<int>, i: nat, s: seq<int>)
    ensures Sum(InBucket(bounds, i), s) >= 0
  {
    if s != [] { InBucketCount(bounds, i, s[1..]); }
  }

  // ---------------------------------------------------------------- the error bound

  lemma HistOfValid(bounds: seq<int>, samples: seq<int>)
    requires bounds != [] && bounds[0] >= 0 && Increasing(bounds)
    ensures ValidHist(HistOf(bounds, samples))
  {
    TallyTotal(bounds, samples);
  }

  /** How close the estimate `q`, in seconds, is to a sample of `x` nanoseconds. */
  ghost predicate Accurate(q: real, x: int) {
    var s := x as real / 1_000_000_000.0;
    && (50_000 < x <= 7_200_000_000_000 ==> -0.02 * s <= q - s <= 0.02 * s)
    && (x <= 50_000 ==> 0.0 < q <= 0.00005)
    && (x > 7_200_000_000_000 ==> q == 7200.0 < s)
  }

  /** The promise in the estimator's name. For latencies in (50 us, 7200 s] the estimate is within
      two percent of the true order statistic; below that within 50 us; above it never overstates. */
  lemma TwoPercentError(bounds: seq<int>, samples: seq<int>, sorted: seq<int>, p: real, k: int, q: real)
    requires TwoPercent(bounds)
    requires samples != [] && Sorted(sorted) && multiset(sorted) == multiset(samples)
    requires forall i :: 0 <= i < |sorted| ==> sorted[i] >= 0
    requires 0.0 < p <= 1.0 && AsksFor(|samples|, p, k)
    ensures ValidHist(HistOf(bounds, samples)) && 1 <= k <= |sorted|
    ensures IsQuantile(HistOf(bounds, samples), p, q) ==> Accurate(q, sorted[k - 1])
  {
    HistOfValid(bounds, samples);
    OrderDoesNotMatter(bounds, sorted, samples);
    assert |samples| == |multiset(samples)| == |multiset(sorted)| == |sorted|;
    RankIsLeast(|samples|, p, k);
    RankInRange(|samples|, p);
    QuantileIff(HistOf(bounds, samples), p, q);
    if q == Quantile(HistOf(bounds, samples), p) { QuantileAccurate(bounds, samples, sorted, p, k); }
  }

  lemma QuantileAccurate(bounds: seq<int>, samples: seq<int>, sorted: seq<int>, p: real, k: int)
    requires TwoPercent(bounds) && ValidHist(HistOf(bounds, samples))
    requires HistOf(bounds, samples) == HistOf(bounds, sorted)
    requires Sorted(sorted) && |sorted| == |samples| && forall i :: 0 <= i < |sorted| ==> sorted[i] >= 0
    requires p <= 1.0 && k == Rank(|samples|, p) && 1 <= k <= |sorted|
    ensures Accurate(Quantile(HistOf(bounds, samples), p), sorted[k - 1])
  {
    var h := HistOf(bounds, samples);
    RankBucketOfSamples(bounds, sorted, k);
    RankBucketMeaning(h.counts, k);
    EstimateInBucket(h, RankBucket(h.counts, k), k);
    BucketIsAccurate(bounds, h, sorted[k - 1], Quantile(h, p));
  }

  /** Whatever lies in a sample's bucket is close to the sample. */
  lemma BucketIsAccurate(bounds: seq<int>, h: Hist, x: int, q: real)
    requires TwoPercent(bounds) && h.bounds == Layout(bounds) && x >= 0
    requires var i := Bucket(bounds, x);
             && Lower(h, i) <= q
             && (i < |bounds| ==> q <= h.bounds[i] && (Lower(h, i) < h.bounds[i] ==> Lower(h, i) < q))
             && (i == |bounds| ==> q == Lower(h, i))
    ensures Accurate(q, x)
  {
    BucketWidth(bounds, x);
  }

  /** The ends of a sample's bucket, in terms of the sample. */
  lemma BucketWidth(bounds: seq<int>, x: int)
    requires TwoPercent(bounds) && x >= 0
    ensures var i := Bucket(bounds, x);
            && (i == 0 <==> x <= FIRST)
            && (i == |bounds| <==> x > LAST)
            && (0 < i < |bounds| ==> bounds[i - 1] < x <= bounds[i] && 100 * bounds[i] <= 102 * bounds[i - 1])
  {
  }
}
