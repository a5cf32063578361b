/** The client laboratory's merge of two dictionaries of histograms, name by name. */
module StepHistograms {
  import opened Common
  import opened Histogram
  import opened Percentile

  type Named = (string, Hist)

  /** A dictionary's items: no name twice. */
  ghost predicate Items(right: seq<Named>) {
    forall i, j :: 0 <= i < j < |right| ==> right[i].0 != right[j].0
  }

  predicate Wellformed(h: Hist) { ValidHist(h) && h.sum >= 0.0 }

  /** Item `x` can be merged into `left`. */
  predicate Fits(left: map<string, Hist>, x: Named) {
    && x.0 != "" && Wellformed(x.1)
    && (x.0 in left ==> Wellformed(left[x.0]) && left[x.0].bounds == x.1.bounds)
  }

  /** Two histograms of one layout, added up. */
  function Pair(l: Hist, r: Hist): Hist
    requires |l.counts| == |r.counts|
  {
    Hist(l.bounds, AddCounts(l.counts, r.counts), l.count + r.count, l.sum + r.sum)
  }

  /** Item `x` was merged into `left`. */
  ghost predicate Holds(left: map<string, Hist>, x: Named, out: map<string, Hist>) {
    x.0 in out && if x.0 in left then |left[x.0].counts| == |x.1.counts| && out[x.0] == Pair(left[x.0], x.1)
                  else out[x.0] == x.1
  }

  /** What the merge holds: every item merged, and everything else as it was. */
  ghost predicate Merged(left: map<string, Hist>, right: seq<Named>, out: map<string, Hist>) {
    && (forall i :: 0 <= i < |right| ==> Holds(left, right[i], out))
    && (forall name :: name in left ==> name in out)
    && (forall name :: name in out && (forall i :: 0 <= i < |right| ==> right[i].0 != name) ==>
          name in left && out[name] == left[name])
  }

  /** Merging one item, or finding that it does not fit. */
  method MergeItem(left: map<string, Hist>, output: map<string, Hist>, x: Named) returns (r: Option<map<string, Hist>>)
    requires x.0 in output <==> x.0 in left
    requires x.0 in left ==> output[x.0] == left[x.0]
    ensures r.Some? <==> Fits(left, x)
    ensures r.Some? && x.0 in left ==>
              |left[x.0].counts| == |x.1.counts| && r.value == output[x.0 := Pair(left[x.0], x.1)]
    ensures r.Some? && x.0 !in left ==> r.value == output[x.0 := x.1]
  {
    var (name, hist) := x;
    if name == "" {
      return None;
    }
    var ok := ValidateHistogram(hist);
    if !ok {
      return None;
    }
    if name !in output {
      return Some(output[name := hist]);
    }
    ok := ValidateHistogram(output[name]);
    if !ok || output[name].bounds != hist.bounds {
      return None;
    }
    return Some(output[name := Pair(output[name], hist)]);
  }

  method MergeHistograms(left: map<string, Hist>, right: seq<Named>) returns (r: Option<map<string, Hist>>)
    requires Items(right)
    ensures r.Some? <==> forall i :: 0 <= i < |right| ==> Fits(left, right[i])
    ensures r.Some? ==> Merged(left, right, r.value)
  {
    var output := left;
    for k := 0 to |right|
      invariant forall i :: 0 <= i < k ==> Fits(left, right[i])
      invariant Merged(left, right[..k], output)
    {
      Untouched(left, right, k, output);
      var next := MergeItem(left, output, right[k]);
      if next.None? {
        return None;
      }
      MergedNext(left, right[..k], right[k], output, next.value);
      output := next.value;
    }
    assert right[..|right|] == right;
    return Some(output);
  }

  /** The next name is still as `left` has it, and the items so far with it are items. */
  lemma Untouched(left: map<string, Hist>, right: seq<Named>, k: nat, output: map<string, Hist>)
    requires Items(right) && k < |right| && Merged(left, right[..k], output)
    ensures right[k].0 in output <==> right[k].0 in left
    ensures right[k].0 in left ==> output[right[k].0] == left[right[k].0]
    ensures right[..k + 1] == right[..k] + [right[k]] && Items(right[..k] + [right[k]])
  {
    assert forall i :: 0 <= i < k ==> right[..k][i].0 != right[k].0;
    assert right[..k + 1] == right[..k] + [right[k]];
  }

  lemma MergedNext(left: map<string, Hist>, done: seq<Named>, x: Named,
                   before: map<string, Hist>, output: map<string, Hist>)
    requires Items(done + [x]) && Merged(left, done, before)
    requires if x.0 in left then |left[x.0].counts| == |x.1.counts| && output == before[x.0 := Pair(left[x.0], x.1)]
             else output == before[x.0 := x.1]
    ensures Merged(left, done + [x], output)
  {
    var more := done + [x];
    forall i | 0 <= i < |more| ensures Holds(left, more[i], output) {
      if i < |done| {
        assert more[i] == done[i] && Holds(left, done[i], before) && more[i].0 != more[|done|].0;
      }
    }
    forall name | name in output && forall i :: 0 <= i < |more| ==> more[i].0 != name
      ensures name in left && output[name] == left[name]
    {
      assert more[|done|].0 != name;
      assert forall i :: 0 <= i < |done| ==> done[i].0 == more[i].0;
    }
  }

  /** Merging two processes' histograms of one name is observing all their samples. */
  lemma PairIsObserving(bounds: seq<int>, a: seq<int>, b: seq<int>)
    ensures Pair(HistOf(bounds, a), HistOf(bounds, b)) == HistOf(bounds, a + b)
  {
    forall i | 0 <= i < |bounds| + 1
      ensures Sum(InBucket(bounds, i), a + b) == Sum(InBucket(bounds, i), a) + Sum(InBucket(bounds, i), b)
    {
      SumAppend(InBucket(bounds, i), a, b);
    }
    SumAppend(Same, a, b);
    assert Pair(HistOf(bounds, a), HistOf(bounds, b)).counts == Tally(bounds, a + b);
  }
}
