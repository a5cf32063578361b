/** Interpolated quantiles of a latency histogram: the three implementations, what each returns on every
    input, and where they agree. */
module Percentile {
  import opened Common
  import opened Histogram

  /** A histogram whose boundaries increase and whose count is the sum of its buckets. */
  predicate ValidHist(h: Hist) {
    && HasLayout(h.bounds) && |h.counts| == |h.bounds|
    && (forall i :: 0 <= i < |h.counts| ==> h.counts[i] >= 0)
    && h.count == Sum(Same, h.counts) && h.count >= 0
    && (forall i :: 0 <= i < |h.bounds| - 1 ==> h.bounds[i] >= 0.0)
    && (forall i, j :: 0 <= i < j < |h.bounds| - 1 ==> h.bounds[i] < h.bounds[j])
  }

  function Ceil(x: real): int { -((-x).Floor) }

  /** The rank looked for: the ceil(n p)-th smallest sample, at least the first. */
  function Rank(count: int, p: real): int {
    var t := Ceil(count as real * p);
    if t < 1 then 1 else t
  }

  /** The rank a fraction asks for: the least number of samples, at least one, that makes up the fraction. */
  ghost predicate AsksFor(count: int, p: real, k: int) {
    k >= 1 && k as real >= count as real * p && forall j :: 1 <= j < k ==> Short(count, p, j)
  }

  /** `j` samples are less than the fraction of all. */
  ghost predicate Short(count: int, p: real, j: int) { (j as real) < count as real * p }

  lemma RankIsLeast(count: int, p: real, k: int)
    ensures AsksFor(count, p, k) <==> k == Rank(count, p)
  {
    var x, n := count as real * p, Rank(count, p);
    CeilIsLeast(x);
    forall j | 1 <= j < n ensures Short(count, p, j) {
      assert j as real <= (Ceil(x) - 1) as real < x;
    }
    assert !Short(count, p, n) && (1 <= k < n ==> Short(count, p, k));
  }

  lemma CeilIsLeast(x: real)
    ensures (Ceil(x) - 1) as real < x <= Ceil(x) as real
  {
  }

  function Cum(counts: seq<int>, n: nat): int
    requires n <= |counts|
  {
    Sum(Same, counts[..n])
  }

  /** The first bucket at which the cumulative count reaches `k`. */
  function RankBucket(counts: seq<int>, k: int): (i: nat)
    requires 1 <= k <= Sum(Same, counts)
    ensures i < |counts|
  {
    if counts[0] >= k then 0 else 1 + RankBucket(counts[1..], k - counts[0])
  }

  lemma {:induction false} CumNext(counts: seq<int>, n: nat)
    requires n < |counts|
    ensures Cum(counts, n + 1) == Cum(counts, n) + counts[n]
  {
    assert counts[..n + 1] == counts[..n] + [counts[n]];
    SumAppend(Same, counts[..n], [counts[n]]);
  }

  lemma {:induction false} CumTail(counts: seq<int>, n: nat)
    requires 1 <= n <= |counts|
    ensures Cum(counts, n) == counts[0] + Cum(counts[1..], n - 1)
  {
    assert counts[..n][1..] == counts[1..][..n - 1];
  }

  lemma {:induction false} RankBucketMeaning(counts: seq<int>, k: int)
    requires 1 <= k <= Sum(Same, counts)
    ensures var i := RankBucket(counts, k);
            && Cum(counts, i) < k <= Cum(counts, i + 1)
            && forall j :: 0 <= j <= i ==> Cum(counts, j) < k
  {
    var i := RankBucket(counts, k);
    CumTail(counts, i + 1);
    if i > 0 {
      RankBucketMeaning(counts[1..], k - counts[0]);
      forall j | 0 <= j <= i ensures Cum(counts, j) < k {
        if j > 0 {
          CumTail(counts, j);
        }
      }
    }
  }

  ghost predicate Nonnegative(counts: seq<int>) {
    forall i :: 0 <= i < |counts| ==> counts[i] >= 0
  }

  lemma {:induction false} CumMonotone(counts: seq<int>, m: nat, n: nat)
    requires Nonnegative(counts) && m <= n <= |counts|
    ensures Cum(counts, m) <= Cum(counts, n)
  {
    if m < n {
      CumMonotone(counts, m, n - 1);
      CumNext(counts, n - 1);
    }
  }

  /** Only one bucket carries the cumulative count across `k`. */
  lemma RankBucketUnique(counts: seq<int>, k: int, i: nat)
    requires Nonnegative(counts) && 1 <= k <= Sum(Same, counts) && i < |counts|
    requires Cum(counts, i) < k <= Cum(counts, i + 1)
    ensures i == RankBucket(counts, k)
  {
    RankBucketMeaning(counts, k);
    var b := RankBucket(counts, k);
    CumMonotone(counts, if i < b then i + 1 else i, if i < b then b else i);
    CumMonotone(counts, if b < i then b + 1 else b, if b < i then i else b);
  }

  function Lower(h: Hist, i: nat): real
    requires i < |h.bounds|
  {
    if i == 0 then 0.0 else h.bounds[i - 1]
  }

  /** The point `part` of `whole` steps on the way from one end to the other. */
  function Blend(lower: real, upper: real, part: int, whole: int): real
    requires whole != 0
  {
    lower + (part as real / whole as real) * (upper - lower)
  }

  /** Linear interpolation of rank `k` inside bucket `i`; the overflow bucket has only a lower end. */
  function Interpolate(h: Hist, i: nat, k: int): real
    requires HasLayout(h.bounds) && |h.counts| == |h.bounds| && i < |h.counts|
  {
    if i == |h.bounds| - 1 then h.bounds[i - 1]
    else if h.counts[i] == 0 then h.bounds[i]
    else Blend(Lower(h, i), h.bounds[i], k - Cum(h.counts, i), h.counts[i])
  }

  function Quantile(h: Hist, p: real): real
    requires ValidHist(h) && p <= 1.0
  {
    if h.count == 0 then 0.0
    else
      RankInRange(h.count, p);
      Interpolate(h, RankBucket(h.counts, Rank(h.count, p)), Rank(h.count, p))
  }

  /** Where a quantile of `p` lies, in terms of the histogram alone: a rank, the bucket whose cumulative counts
      straddle it, and the point that divides the bucket as the rank divides its samples. */
  ghost predicate IsQuantile(h: Hist, p: real, q: real)
    requires ValidHist(h)
  {
    if h.count == 0 then q == 0.0
    else exists k: int, i: nat :: AsksFor(h.count, p, k) && Straddles(h.counts, k, i) && Divides(h, k, i, q)
  }

  ghost predicate Straddles(counts: seq<int>, k: int, i: nat) {
    i < |counts| && Cum(counts, i) < k <= Cum(counts, i) + counts[i]
  }

  /** The last bucket has no upper end: its quantiles are its lower end. */
  ghost predicate Divides(h: Hist, k: int, i: nat, q: real)
    requires ValidHist(h) && i < |h.counts|
  {
    var lower := if i == 0 then 0.0 else h.bounds[i - 1];
    if i == |h.counts| - 1 then q == lower
    else (q - lower) * h.counts[i] as real == (k - Cum(h.counts, i)) as real * (h.bounds[i] - lower)
  }

  /** The quantile is the one such point. */
  lemma QuantileIff(h: Hist, p: real, q: real)
    requires ValidHist(h) && p <= 1.0
    ensures IsQuantile(h, p, q) <==> q == Quantile(h, p)
  {
    if h.count > 0 {
      RankInRange(h.count, p);
      var k := Rank(h.count, p);
      var i := RankBucket(h.counts, k);
      RankIsLeast(h.count, p, k);
      RankBucketMeaning(h.counts, k);
      CumNext(h.counts, i);
      InterpolateDivides(h, i, k, q);
      if IsQuantile(h, p, q) {
        var k', i' :| AsksFor(h.count, p, k') && Straddles(h.counts, k', i') && Divides(h, k', i', q);
        RankIsLeast(h.count, p, k');
        CumNext(h.counts, i');
        RankBucketUnique(h.counts, k, i');
      }
    }
  }

  lemma InterpolateDivides(h: Hist, i: nat, k: int, q: real)
    requires ValidHist(h) && Straddles(h.counts, k, i)
    ensures Divides(h, k, i, q) <==> q == Interpolate(h, i, k)
  {
    if i < |h.counts| - 1 {
      BlendDivides(Lower(h, i), h.bounds[i], k - Cum(h.counts, i), h.counts[i], q);
    }
  }

  lemma BlendDivides(lower: real, upper: real, part: int, whole: int, q: real)
    requires whole > 0
    ensures (q - lower) * whole as real == part as real * (upper - lower) <==> q == Blend(lower, upper, part, whole)
  {
    Proportion(q - lower, part as real, upper - lower, whole as real);
  }

  lemma Proportion(d: real, part: real, width: real, whole: real)
    requires whole > 0.0
    ensures d * whole == part * width <==> d == (part / whole) * width
  {
    var f := part / whole;
    assert part == f * whole;
    assert (f * whole) * width == (f * width) * whole;
    if d * whole == (f * width) * whole {
      CancelFactor(d, f * width, whole);
    }
  }

  lemma CancelFactor(a: real, b: real, c: real)
    requires c > 0.0 && a * c == b * c
    ensures a == b
  {
    Spread(c, a, b);
    Spread(c, b, a);
    if a > b { PositiveProduct(c, a - b); }
    if b > a { PositiveProduct(c, b - a); }
  }

  lemma RankInRange(count: int, p: real)
    requires count >= 1 && p <= 1.0
    ensures 1 <= Rank(count, p) <= count
  {
    var c := count as real;
    MulMonotone(c, p, 1.0);
    assert c * 1.0 == c;
  }

  // ---------------------------------------------------------------- the three implementations

  /** The loop of every implementation stops in the bucket of the rank looked for. */
  lemma Found(h: Hist, p: real, i: nat)
    requires ValidHist(h) && h.count > 0 && i < |h.counts|
    requires Cum(h.counts, i) < Rank(h.count, p) <= Cum(h.counts, i + 1)
    ensures Rank(h.count, p) <= h.count
    ensures p <= 1.0 ==> Quantile(h, p) == Interpolate(h, i, Rank(h.count, p))
    ensures h.bounds[i] < 0.0 <==> i == |h.bounds| - 1
  {
    CumMonotone(h.counts, i + 1, |h.counts|);
    assert h.counts[..|h.counts|] == h.counts;
    RankBucketUnique(h.counts, Rank(h.count, p), i);
  }

  /** It runs off the end only for a rank beyond the count. */
  lemma NotFound(h: Hist, p: real)
    requires ValidHist(h) && h.count > 0 && Cum(h.counts, |h.counts|) < Rank(h.count, p)
    ensures Rank(h.count, p) > h.count && p > 1.0
  {
    assert h.counts[..|h.counts|] == h.counts;
    if p <= 1.0 {
      RankInRange(h.count, p);
    }
  }

  /** The estimate within the bucket that reaches the rank. */
  method EstimateAt(h: Hist, index: nat, threshold: int, prior: int) returns (q: Option<real>)
    requires index < |h.counts| <= |h.bounds|
    ensures ValidHist(h) && prior == Cum(h.counts, index) < threshold <= Cum(h.counts, index + 1) ==>
              q == Some(Interpolate(h, index, threshold))
  {
    CumNext(h.counts, index);
    var upper := h.bounds[index];
    if upper < 0.0 {
      return if index == 0 then None else Some(h.bounds[index - 1]);
    }
    var lower := if index > 0 then h.bounds[index - 1] else 0.0;
    var bucketCount := h.counts[index];
    if bucketCount == 0 {
      return Some(upper);
    }
    return Some(Blend(lower, upper, threshold - prior, bucketCount));
  }

  /** The greatest finite boundary, from the end. */
  method LastFinite(bounds: seq<real>) returns (q: real)
    ensures HasLayout(bounds) && bounds[|bounds| - 2] >= 0.0 ==> q == bounds[|bounds| - 2]
  {
    var i := |bounds|;
    while i > 0
      invariant HasLayout(bounds) && bounds[|bounds| - 2] >= 0.0 ==> i >= |bounds| - 1
    {
      i := i - 1;
      if bounds[i] >= 0.0 {
        return bounds[i];
      }
    }
    return 0.0;
  }

  /** The Go client's estimator; beyond the buckets it yields the greatest finite boundary. */
  method PercentileFromHistogram(h: Hist, p: real) returns (q: real)
    requires |h.counts| <= |h.bounds| && p >= 0.0
    ensures ValidHist(h) && p <= 1.0 ==> q == Quantile(h, p) && IsQuantile(h, p, q)
    ensures ValidHist(h) && h.count > 0 && p > 1.0 ==> q == h.bounds[|h.bounds| - 2]
  {
    if ValidHist(h) && p <= 1.0 { QuantileIff(h, p, Quantile(h, p)); }
    if h.count == 0 {
      return 0.0;
    }
    if h.count > 0 && p > 1.0 { BeyondCount(h.count, p); }
    var threshold := Rank(h.count, p);
    var cumulative := 0;
    for i := 0 to |h.counts|
      invariant cumulative == Cum(h.counts, i) < threshold
    {
      CumNext(h.counts, i);
      cumulative := cumulative + h.counts[i];
      if cumulative >= threshold {
        if ValidHist(h) {
          Found(h, p, i);
        }
        var estimate := EstimateAt(h, i, threshold, cumulative - h.counts[i]);
        return if estimate.Some? then estimate.value else 0.0;
      }
    }
    if ValidHist(h) {
      NotFound(h, p);
    }
    q := LastFinite(h.bounds);
  }

  /** What the Python estimators return: the quantile, and a failure beyond the count. */
  function Estimate(h: Hist, p: real): Option<real>
    requires ValidHist(h)
  {
    if h.count == 0 then Some(0.0) else if p <= 1.0 then Some(Quantile(h, p)) else None
  }

  /** A failure exactly beyond the count, and otherwise the quantile. */
  ghost predicate IsEstimate(h: Hist, p: real, q: Option<real>)
    requires ValidHist(h)
  {
    (q.None? <==> h.count > 0 && p > 1.0) && (q.Some? ==> IsQuantile(h, p, q.value))
  }

  lemma EstimateIs(h: Hist, p: real)
    requires ValidHist(h)
    ensures IsEstimate(h, p, Estimate(h, p))
  {
    if p <= 1.0 { QuantileIff(h, p, Quantile(h, p)); }
  }

  lemma BeyondCount(count: int, p: real)
    requires count >= 1 && p > 1.0
    ensures Rank(count, p) > count
  {
    var c := count as real;
    PositiveProduct(c, p - 1.0);
    Spread(c, 1.0, p);
  }

  /** The replay engine's estimator; beyond the buckets it fails. */
  method HistogramPercentile(h: Hist, p: real) returns (q: Option<real>)
    requires |h.counts| <= |h.bounds|
    ensures ValidHist(h) ==> q == Estimate(h, p) && IsEstimate(h, p, q)
  {
    if ValidHist(h) { EstimateIs(h, p); }
    if h.count == 0 {
      return Some(0.0);
    }
    if h.count > 0 && p > 1.0 { BeyondCount(h.count, p); }
    var threshold := Rank(h.count, p);
    var cumulative := 0;
    for index := 0 to |h.counts|
      invariant cumulative == Cum(h.counts, index) < threshold
    {
      CumNext(h.counts, index);
      cumulative := cumulative + h.counts[index];
      if cumulative >= threshold {
        if ValidHist(h) {
          Found(h, p, index);
        }
        q := EstimateAt(h, index, threshold, cumulative - h.counts[index]);
        return;
      }
    }
    if ValidHist(h) {
      NotFound(h, p);
    }
    return None;
  }

  /** The client laboratory's validation of a histogram, boundary by boundary. */
  method ValidateHistogram(h: Hist) returns (ok: bool)
    ensures ok <==> ValidHist(h) && h.sum >= 0.0
  {
    if h.count < 0 || h.sum < 0.0 || exists i :: 0 <= i < |h.counts| && h.counts[i] < 0 {
      return false;
    }
    if |h.counts| != |h.bounds| || Sum(Same, h.counts) != h.count || !HasLayout(h.bounds) {
      return false;
    }
    var previous := -1.0;
    for index := 0 to |h.bounds|
      invariant previous == if index == 0 then -1.0 else if index < |h.bounds| then h.bounds[index - 1] else previous
      invariant forall i :: 0 <= i < index && i < |h.bounds| - 1 ==> h.bounds[i] >= 0.0
      invariant forall i, j :: 0 <= i < j < index && j < |h.bounds| - 1 ==> h.bounds[i] < h.bounds[j]
    {
      if index < |h.bounds| - 1 {
        if h.bounds[index] < 0.0 || (index > 0 && h.bounds[index] <= previous) {
          return false;
        }
        previous := h.bounds[index];
      }
    }
    return true;
  }

  /** The client laboratory's estimator: validation, then a loop that skips the buckets below the rank. */
  method ValidatedPercentile(h: Hist, p: real) returns (q: Option<real>)
    ensures q == if ValidHist(h) && h.sum >= 0.0 then Estimate(h, p) else None
    ensures ValidHist(h) && h.sum >= 0.0 ==> IsEstimate(h, p, q)
  {
    if ValidHist(h) { EstimateIs(h, p); }
    var ok := ValidateHistogram(h);
    if !ok {
      return None;
    }
    if h.count == 0 {
      return Some(0.0);
    }
    if p > 1.0 { BeyondCount(h.count, p); }
    var threshold := Rank(h.count, p);
    var cumulative, index := 0, 0;
    while index < |h.counts| && cumulative + h.counts[index] < threshold
      invariant 0 <= index <= |h.counts| && cumulative == Cum(h.counts, index) < threshold
    {
      CumNext(h.counts, index);
      cumulative := cumulative + h.counts[index];
      index := index + 1;
    }
    if index == |h.counts| {
      NotFound(h, p);
      return None;
    }
    CumNext(h.counts, index);
    Found(h, p, index);
    q := EstimateAt(h, index, threshold, cumulative);
  }
}
