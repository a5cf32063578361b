/** The mergeable latency histogram: observation, snapshot and merging. */
module Histogram {
  import opened Common

  // ---------------------------------------------------------------- observation

  /** The bucket of a duration: the first boundary that reaches it, or the overflow bucket. */
  function Bucket(bounds: seq<int>, d: int): (b: nat)
    ensures b <= |bounds|
    ensures b < |bounds| ==> d <= bounds[b]
    ensures forall i :: 0 <= i < b ==> bounds[i] < d
  {
    if bounds == [] || d <= bounds[0] then 0 else 1 + Bucket(bounds[1..], d)
  }

  function InBucket(bounds: seq<int>, i: nat): int -> int {
    (d: int) => if Bucket(bounds, d) == i then 1 else 0
  }

  /** How many samples fall in each bucket. */
  function Tally(bounds: seq<int>, samples: seq<int>): (t: seq<int>)
    ensures |t| == |bounds| + 1
  {
    seq(|bounds| + 1, i requires 0 <= i < |bounds| + 1 => Sum(InBucket(bounds, i), samples))
  }

  function Clamp(d: int): int { if d < 0 then 0 else d }

  lemma TallySnoc(bounds: seq<int>, samples: seq<int>, d: int)
    ensures var b := Bucket(bounds, d);
            Tally(bounds, samples + [d]) == Tally(bounds, samples)[b := Tally(bounds, samples)[b] + 1]
  {
    forall i | 0 <= i < |bounds| + 1
      ensures Sum(InBucket(bounds, i), samples + [d])
              == Sum(InBucket(bounds, i), samples) + (if i == Bucket(bounds, d) then 1 else 0)
    {
      SumAppend(InBucket(bounds, i), samples, [d]);
    }
  }

  /** The collector's histogram. `samples` is its history. */
  class DurationHistogram {
    const bounds: seq<int>
    var counts: array<int>
    var total: int
    var sumNs: int
    ghost var samples: seq<int>

    ghost predicate Valid()
      reads this, counts
    {
      && counts[..] == Tally(bounds, samples)
      && total == |samples| && sumNs == Sum(Same, samples)
      && forall i :: 0 <= i < |samples| ==> samples[i] >= 0
    }

    constructor (bounds: seq<int>)
      ensures Valid() && fresh(counts)
      ensures this.bounds == bounds && samples == []
    {
      this.bounds := bounds;
      counts := new int[|bounds| + 1](_ => 0);
      total, sumNs, samples := 0, 0, [];
    }

    method Observe(d: int)
      requires Valid()
      modifies this, counts
      ensures Valid() && counts == old(counts)
      ensures samples == old(samples) + [if d < 0 then 0 else d]
    {
      var v := Clamp(d);
      TallySnoc(bounds, samples, v);
      SumAppend(Same, samples, [v]);
      ghost var before := counts[..];
      samples := samples + [v];
      var idx := 0;
      while idx < |bounds| && bounds[idx] < v
        invariant 0 <= idx <= |bounds|
        invariant forall i :: 0 <= i < idx ==> bounds[i] < v
      {
        idx := idx + 1;
      }
      assert Bucket(bounds, v) == idx;
      counts[idx] := counts[idx] + 1;
      total := total + 1;
      sumNs := sumNs + v;
      assert counts[..] == before[idx := before[idx] + 1];
    }

    method Snapshot() returns (h: Hist)
      requires Valid()
      ensures h == HistOf(bounds, samples)
      ensures |h.bounds| == |bounds| + 1 && h.bounds[|bounds|] == -1.0
      ensures forall i :: 0 <= i < |bounds| ==> h.bounds[i] == bounds[i] as real / 1_000_000_000.0
      ensures h.count == |samples| && h.sum == Sum(Same, samples) as real / 1_000_000_000.0
    {
      var upper: seq<real> := [];
      for i := 0 to |bounds|
        invariant upper == Map(Secs, bounds[..i])
      {
        upper := upper + [Secs(bounds[i])];
      }
      assert bounds[..|bounds|] == bounds;
      h := Hist(upper + [-1.0], counts[..], total, Secs(sumNs));
    }
  }

  // ---------------------------------------------------------------- snapshots

  datatype Hist = Hist(bounds: seq<real>, counts: seq<int>, count: int, sum: real)

  function Secs(ns: int): real { ns as real / 1_000_000_000.0 }

  /** Boundaries as published: seconds, then the overflow mark. */
  function Layout(bounds: seq<int>): seq<real> { Map(Secs, bounds) + [-1.0] }

  function HistOf(bounds: seq<int>, samples: seq<int>): Hist {
    Hist(Layout(bounds), Tally(bounds, samples), |samples|, Secs(Sum(Same, samples)))
  }

  // ---------------------------------------------------------------- merging

  function CountAt(j: nat): Hist -> int { (h: Hist) => if j < |h.counts| then h.counts[j] else 0 }
  function CountOf(h: Hist): int { h.count }

  function SumSeconds(hs: seq<Hist>): real {
    if hs == [] then 0.0 else SumSeconds(hs[..|hs| - 1]) + hs[|hs| - 1].sum
  }

  predicate HasLayout(bounds: seq<real>) {
    |bounds| >= 2 && bounds[|bounds| - 1] == -1.0
  }

  predicate Mergeable(h: Hist, bounds: seq<real>) {
    && h.bounds == bounds && |h.counts| == |bounds|
    && (forall i :: 0 <= i < |h.counts| ==> h.counts[i] >= 0)
    && h.count >= 0 && Sum(Same, h.counts) == h.count && h.sum >= 0.0
  }

  /** Bucketwise totals of several histograms with one layout. */
  function MergeAll(hs: seq<Hist>): Hist
    requires hs != []
  {
    Hist(hs[0].bounds, seq(|hs[0].bounds|, j requires 0 <= j < |hs[0].bounds| => Sum(CountAt(j), hs)),
         Sum(CountOf, hs), SumSeconds(hs))
  }

  function AddCounts(a: seq<int>, b: seq<int>): seq<int>
    requires |a| == |b|
  {
    seq(|a|, j requires 0 <= j < |a| => a[j] + b[j])
  }

  /** The accumulators of a merge hold the totals of the histograms taken so far. */
  ghost predicate Totals(done: seq<Hist>, counts: seq<int>, count: int, sum: real) {
    && (forall j :: 0 <= j < |counts| ==> counts[j] == Sum(CountAt(j), done))
    && count == Sum(CountOf, done) && sum == SumSeconds(done)
  }

  lemma TotalsNext(done: seq<Hist>, h: Hist, counts: seq<int>, count: int, sum: real)
    requires Totals(done, counts, count, sum) && |h.counts| == |counts|
    ensures Totals(done + [h], AddCounts(counts, h.counts), count + h.count, sum + h.sum)
  {
    forall j | 0 <= j < |counts| ensures Sum(CountAt(j), done + [h]) == counts[j] + h.counts[j] {
      SumAppend(CountAt(j), done, [h]);
    }
    SumAppend(CountOf, done, [h]);
    assert (done + [h])[..|done|] == done;
  }

  method MergeLatencyHistograms(hs: seq<Hist>) returns (r: Option<Hist>)
    ensures r.Some? <==> hs != [] && HasLayout(hs[0].bounds)
                         && forall i :: 0 <= i < |hs| ==> Mergeable(hs[i], hs[0].bounds)
    ensures r.Some? ==> r.value == MergeAll(hs)
    ensures r.Some? ==> forall i :: 0 <= i < |hs| ==>
              && hs[i].bounds == hs[0].bounds && |hs[i].counts| == |hs[0].bounds|
              && hs[i].sum >= 0.0 && hs[i].count == Sum(Same, hs[i].counts)
  {
    if hs == [] || !HasLayout(hs[0].bounds) {
      return None;
    }
    var bounds := hs[0].bounds;
    var counts := seq(|bounds|, _ => 0);
    var count, sum := 0, 0.0;
    for k := 0 to |hs|
      invariant |counts| == |bounds| && Totals(hs[..k], counts, count, sum)
      invariant forall i :: 0 <= i < k ==> Mergeable(hs[i], bounds)
    {
      var h := hs[k];
      if !Mergeable(h, bounds) {
        return None;
      }
      TotalsNext(hs[..k], h, counts, count, sum);
      assert hs[..k + 1] == hs[..k] + [h];
      counts := AddCounts(counts, h.counts);
      count := count + h.count;
      sum := sum + h.sum;
    }
    assert hs[..|hs|] == hs;
    r := Some(Hist(bounds, counts, count, sum));
  }

  // ---------------------------------------------------------------- merging is observing

  function HistsOf(bounds: seq<int>, parts: seq<seq<int>>): (hs: seq<Hist>)
    ensures |hs| == |parts|
  {
    seq(|parts|, i requires 0 <= i < |parts| => HistOf(bounds, parts[i]))
  }

  lemma {:induction false} SumOfParts(f: int -> int, g: Hist -> int, bounds: seq<int>, parts: seq<seq<int>>)
    requires forall i :: 0 <= i < |parts| ==> g(HistOf(bounds, parts[i])) == Sum(f, parts[i])
    ensures Sum(g, HistsOf(bounds, parts)) == Sum(f, Flatten(parts))
  {
    if parts != [] {
      SumOfParts(f, g, bounds, parts[1..]);
      assert HistsOf(bounds, parts)[1..] == HistsOf(bounds, parts[1..]);
      SumAppend(f, parts[0], Flatten(parts[1..]));
    }
  }

  lemma {:induction false} SecondsOfParts(bounds: seq<int>, parts: seq<seq<int>>)
    ensures SumSeconds(HistsOf(bounds, parts)) == Secs(Sum(Same, Flatten(parts)))
  {
    if parts != [] {
      var init, last := parts[..|parts| - 1], parts[|parts| - 1];
      SecondsOfParts(bounds, init);
      assert HistsOf(bounds, parts)[..|parts| - 1] == HistsOf(bounds, init);
      assert parts == init + [last];
      FlattenSnoc(init, last);
      SumAppend(Same, Flatten(init), last);
    }
  }

  /** Merging the histograms of any split of the samples gives the histogram of all samples. */
  lemma MergeIsObserving(bounds: seq<int>, parts: seq<seq<int>>)
    requires parts != []
    ensures MergeAll(HistsOf(bounds, parts)) == HistOf(bounds, Flatten(parts))
  {
    var hs := HistsOf(bounds, parts);
    forall j | 0 <= j < |bounds| + 1
      ensures Sum(CountAt(j), hs) == Tally(bounds, Flatten(parts))[j]
    {
      SumOfParts(InBucket(bounds, j), CountAt(j), bounds, parts);
    }
    forall i | 0 <= i < |parts| ensures CountOf(HistOf(bounds, parts[i])) == Sum(One, parts[i]) {
      SumOnes(parts[i]);
    }
    SumOfParts(One, CountOf, bounds, parts);
    SumOnes(Flatten(parts));
    SecondsOfParts(bounds, parts);
    assert MergeAll(hs).counts == Tally(bounds, Flatten(parts));
  }

  /** Merging in two levels, processes into ranks and ranks into one, is merging once. */
  lemma TwoLevelMerge(bounds: seq<int>, ranks: seq<seq<seq<int>>>)
    requires ranks != [] && forall r :: 0 <= r < |ranks| ==> ranks[r] != []
    ensures var merged := seq(|ranks|, r requires 0 <= r < |ranks| => MergeAll(HistsOf(bounds, ranks[r])));
            MergeAll(merged) == HistOf(bounds, Flatten(Flatten(ranks)))
  {
    var merged := seq(|ranks|, r requires 0 <= r < |ranks| => MergeAll(HistsOf(bounds, ranks[r])));
    var flat := seq(|ranks|, r requires 0 <= r < |ranks| => Flatten(ranks[r]));
    forall r | 0 <= r < |ranks| ensures merged[r] == HistOf(bounds, flat[r]) {
      MergeIsObserving(bounds, ranks[r]);
    }
    assert merged == HistsOf(bounds, flat);
    MergeIsObserving(bounds, flat);
    FlattenTwice(ranks);
  }

  lemma {:induction false} FlattenTwice<T>(xs: seq<seq<seq<T>>>)
    ensures Flatten(seq(|xs|, i requires 0 <= i < |xs| => Flatten(xs[i]))) == Flatten(Flatten(xs))
  {
    var each := seq(|xs|, i requires 0 <= i < |xs| => Flatten(xs[i]));
    if xs != [] {
      FlattenTwice(xs[1..]);
      assert each[1..] == seq(|xs[1..]|, i requires 0 <= i < |xs[1..]| => Flatten(xs[1..][i]));
      FlattenAppend(xs[0], Flatten(xs[1..]));
    }
  }

  /** The order of samples, and so of ranks and processes, does not matter. */
  lemma OrderDoesNotMatter(bounds: seq<int>, a: seq<int>, b: seq<int>)
    requires multiset(a) == multiset(b)
    ensures HistOf(bounds, a) == HistOf(bounds, b)
  {
    forall i | 0 <= i < |bounds| + 1 ensures Tally(bounds, a)[i] == Tally(bounds, b)[i] {
      SumPermuted(InBucket(bounds, i), a, b);
    }
    SumPermuted(Same, a, b);
    assert |a| == |multiset(a)| == |multiset(b)| == |b|;
  }

  lemma TakeOut(b: seq<int>, k: nat)
    requires k < |b|
    ensures multiset(b[..k] + b[k + 1..]) == multiset(b) - multiset{b[k]}
  {
    assert b == b[..k] + ([b[k]] + b[k + 1..]);
  }

  lemma RemoveOne(a: seq<int>, b: seq<int>, k: nat)
    requires a != [] && k < |b| && b[k] == a[0] && multiset(a) == multiset(b)
    ensures multiset(a[1..]) == multiset(b[..k] + b[k + 1..])
  {
    TakeOut(a, 0);
    TakeOut(b, k);
    assert a[..0] + a[1..] == a[1..];
  }

  lemma {:induction false} SumPermuted(f: int -> int, a: seq<int>, b: seq<int>)
    requires multiset(a) == multiset(b)
    ensures Sum(f, a) == Sum(f, b)
    decreases |a|
  {
    if a == [] {
      assert |b| == |multiset(b)| == 0;
    } else {
      assert a[0] in multiset(b);
      var k :| 0 <= k < |b| && b[k] == a[0];
      var rest := b[..k] + b[k + 1..];
      assert b == b[..k] + ([b[k]] + b[k + 1..]);
      RemoveOne(a, b, k);
      SumPermuted(f, a[1..], rest);
      SumAppend(f, b[..k], [b[k]] + b[k + 1..]);
      SumAppend(f, b[..k], b[k + 1..]);
      assert ([b[k]] + b[k + 1..])[1..] == b[k + 1..];
    }
  }
}
