/** The distributed summary: counters travel both by a wrapping 64-bit reduction and inside exact
    per-rank messages, and root publishes only when the two paths agree. */
module Reduce {
  import opened Common
  import opened Bounds
  import opened Histogram
  import opened Percentile
  import opened PercentileError
  import opened Summary

  const WORD := 0x1_0000_0000_0000_0000
  const UINT64_MAX := WORD - 1

  /** A summary message as decoded by root. `body` is absent when the payload is not a canonical
      summary with the supported estimator. */
  datatype Message = SummaryMessage(run: nat, rank: nat, body: Option<Go>) | Unknown

  type Delivery = (nat, Message)

  datatype Published = Published(totals: seq<int>, p50: real, p99: real)

  datatype Meta = Meta(expected: nat, collected: set<nat>, missing: set<nat>, complete: bool)

  datatype ReduceError =
    | LocalInvalid | BadMessage(rank: nat) | TimedOut
    | AggregateTooLarge | PathsDisagree | LayoutsDisagree | CountDisagrees

  function Fields(s: Go): seq<int> { [s.completed, s.scheduled, s.errors, s.inputTokens, s.outputTokens] }

  function Totals(ss: seq<Go>): (t: seq<int>)
    ensures |t| == 5
  {
    [Sum(Completed, ss), Sum(Scheduled, ss), Sum(Errors, ss), Sum(InTokens, ss), Sum(OutTokens, ss)]
  }

  predicate InRange(t: seq<int>) {
    forall i :: 0 <= i < |t| ==> t[i] <= UINT64_MAX
  }

  /** The message root's one posted receive for `rank` completes with. */
  function FirstFrom(ds: seq<Delivery>, rank: nat): Option<Message> {
    if ds == [] then None
    else
      var earlier := FirstFrom(ds[..|ds| - 1], rank);
      if earlier.Some? then earlier
      else if ds[|ds| - 1].0 == rank then Some(ds[|ds| - 1].1) else None
  }

  /** Delivery `i` is the first of `rank`. */
  ghost predicate IsFirst(ds: seq<Delivery>, rank: nat, i: nat) {
    i < |ds| && ds[i].0 == rank && forall j :: 0 <= j < i ==> ds[j].0 != rank
  }

  /** The first delivery of a rank, and none when there is none. */
  lemma {:induction false} FirstFromIs(ds: seq<Delivery>, rank: nat)
    ensures FirstFrom(ds, rank).None? ==> forall i :: 0 <= i < |ds| ==> ds[i].0 != rank
    ensures FirstFrom(ds, rank).Some? ==> exists i: nat :: IsFirst(ds, rank, i) && ds[i].1 == FirstFrom(ds, rank).value
  {
    if ds != [] {
      var init := ds[..|ds| - 1];
      FirstFromIs(init, rank);
      if FirstFrom(init, rank).Some? {
        var i: nat :| IsFirst(init, rank, i) && init[i].1 == FirstFrom(init, rank).value;
        assert IsFirst(ds, rank, i);
      } else if ds[|ds| - 1].0 == rank {
        assert IsFirst(ds, rank, |ds| - 1);
      }
    }
  }

  /** What root accepts from a rank: a valid summary, sent in this run under its own rank. */
  predicate Good(m: Message, run: nat, rank: nat) {
    m.SummaryMessage? && m.run == run && m.rank == rank && m.body.Some? && ValidGo(m.body.value)
  }

  /** Rank `rank` contributes `s`: its first message is that summary, for this run and this rank. */
  ghost predicate Contributes(ds: seq<Delivery>, run: nat, rank: nat, s: Go) {
    ValidGo(s) && exists i: nat :: IsFirst(ds, rank, i) && ds[i] == (rank, SummaryMessage(run, rank, Some(s)))
  }

  lemma GoodContributes(ds: seq<Delivery>, run: nat, rank: nat, s: Go)
    ensures Contributes(ds, run, rank, s) <==>
            FirstFrom(ds, rank).Some? && Good(FirstFrom(ds, rank).value, run, rank)
            && FirstFrom(ds, rank).value.body == Some(s)
  {
    FirstFromIs(ds, rank);
    if Contributes(ds, run, rank, s) {
      var i: nat :| IsFirst(ds, rank, i) && ds[i] == (rank, SummaryMessage(run, rank, Some(s)));
      var j: nat :| IsFirst(ds, rank, j) && ds[j].1 == FirstFrom(ds, rank).value;
      assert i == j;
    } else if FirstFrom(ds, rank).Some? {
      var j: nat :| IsFirst(ds, rank, j) && ds[j].1 == FirstFrom(ds, rank).value;
      assert ds[j] == (rank, ds[j].1);
    }
  }

  ghost predicate HasContributed(ds: seq<Delivery>, run: nat, rank: nat) {
    exists s :: Contributes(ds, run, rank, s)
  }

  /** Every other rank contributes a summary. */
  ghost predicate AllContribute(ds: seq<Delivery>, run: nat, size: nat) {
    forall r: nat :: 1 <= r < size ==> HasContributed(ds, run, r)
  }

  /** The summaries that count: root's own, and what each rank contributes. */
  ghost predicate Contributed(own: Go, ds: seq<Delivery>, run: nat, size: nat, ss: seq<Go>) {
    |ss| == size && (size > 0 ==> ss[0] == own) && forall r: nat :: 1 <= r < size ==> Contributes(ds, run, r, ss[r])
  }

  lemma {:induction false} ContributionsExist(own: Go, ds: seq<Delivery>, run: nat, size: nat) returns (ss: seq<Go>)
    requires AllContribute(ds, run, size)
    ensures Contributed(own, ds, run, size, ss)
  {
    if size <= 1 {
      ss := if size == 0 then [] else [own];
    } else {
      var init := ContributionsExist(own, ds, run, size - 1);
      assert HasContributed(ds, run, size - 1);
      var s :| Contributes(ds, run, size - 1, s);
      ss := init + [s];
    }
  }

  /** A rank contributes one summary at most. */
  lemma ContributesOnce(ds: seq<Delivery>, run: nat, rank: nat, s: Go, t: Go)
    requires Contributes(ds, run, rank, s) && Contributes(ds, run, rank, t)
    ensures s == t
  {
    GoodContributes(ds, run, rank, s);
    GoodContributes(ds, run, rank, t);
  }

  lemma ContributedOnce(own: Go, ds: seq<Delivery>, run: nat, size: nat, ss: seq<Go>, ts: seq<Go>)
    requires Contributed(own, ds, run, size, ss) && Contributed(own, ds, run, size, ts)
    ensures ss == ts
  {
    forall r: nat | 1 <= r < size ensures ss[r] == ts[r] {
      ContributesOnce(ds, run, r, ss[r], ts[r]);
    }
  }

  /** The conditions under which root publishes. */
  ghost predicate Publishable(ss: seq<Go>, reduced: seq<int>) {
    && InRange(Totals(ss)) && reduced == Totals(ss)
    && OneLayout(ss) && Sum(CountOf, Hists(ss)) == Sum(Completed, ss) - Sum(Errors, ss)
  }

  /** What root then publishes: the true totals and the quantiles of the merged histogram. */
  ghost predicate Publishes(p: Published, ss: seq<Go>) {
    && p.totals == Totals(ss) && ss != [] && ValidHist(MergeAll(Hists(ss)))
    && p.p50 == Quantile(MergeAll(Hists(ss)), 0.50) && p.p99 == Quantile(MergeAll(Hists(ss)), 0.99)
  }

  /** What is published comes from what the ranks contributed, and both paths agree on it. */
  ghost predicate PublishedFrom(p: Published, own: Go, ds: seq<Delivery>, run: nat, size: nat, reduced: seq<int>) {
    exists ss :: Contributed(own, ds, run, size, ss) && Publishable(ss, reduced) && Publishes(p, ss)
  }

  ghost predicate CanPublish(own: Go, ds: seq<Delivery>, run: nat, size: nat, reduced: seq<int>) {
    exists ss :: Contributed(own, ds, run, size, ss) && Publishable(ss, reduced)
  }

  /** Nothing was received from the rank. */
  ghost predicate Silent(ds: seq<Delivery>, rank: nat) {
    forall i :: 0 <= i < |ds| ==> ds[i].0 != rank
  }

  lemma SilentIff(ds: seq<Delivery>, rank: nat)
    ensures Silent(ds, rank) <==> FirstFrom(ds, rank).None?
  {
    FirstFromIs(ds, rank);
  }

  ghost predicate Waiting(ds: seq<Delivery>, run: nat, size: nat, pending: set<nat>, got: map<nat, Go>) {
    && (forall r :: r in pending <==> 1 <= r < size && FirstFrom(ds, r).None?)
    && (forall r :: r in got <==> 1 <= r < size && FirstFrom(ds, r).Some?)
    && (forall r :: r in got ==> Good(FirstFrom(ds, r).value, run, r) && got[r] == FirstFrom(ds, r).value.body.value)
  }

  /** Root's loop over its point-to-point receives. */
  method ReceiveSummaries(run: nat, size: nat, deliveries: seq<Delivery>)
    returns (k: nat, bad: Option<nat>, pending: set<nat>, got: map<nat, Go>)
    ensures k <= |deliveries| && (bad.None? && k < |deliveries| ==> pending == {})
    ensures bad.None? ==> Waiting(deliveries[..k], run, size, pending, got)
    ensures bad.None? ==> forall r :: r in got ==> Contributes(deliveries[..k], run, r, got[r])
    ensures bad.Some? ==> 1 <= bad.value < size && FirstFrom(deliveries[..k], bad.value).Some?
                          && !Good(FirstFrom(deliveries[..k], bad.value).value, run, bad.value)
  {
    k, bad, pending, got := 0, None, OtherRanks(size), map[];
    while pending != {} && k < |deliveries|
      invariant k <= |deliveries|
      invariant Waiting(deliveries[..k], run, size, pending, got)
    {
      var (other, m) := deliveries[k];
      FirstNext(deliveries, k);
      k := k + 1;
      if other in pending {
        if !Good(m, run, other) {
          bad := Some(other);
          return;
        }
        got := got[other := m.body.value];
        pending := pending - {other};
      }
    }
    GotContributes(deliveries[..k], run, size, pending, got);
  }

  lemma GotContributes(ds: seq<Delivery>, run: nat, size: nat, pending: set<nat>, got: map<nat, Go>)
    requires Waiting(ds, run, size, pending, got)
    ensures forall r :: r in got ==> Contributes(ds, run, r, got[r])
  {
    forall r | r in got ensures Contributes(ds, run, r, got[r]) {
      GoodContributes(ds, run, r, got[r]);
    }
  }

  /** One more delivery is the first of its rank or changes nothing. */
  lemma FirstNext(ds: seq<Delivery>, k: nat)
    requires k < |ds|
    ensures forall r :: FirstFrom(ds[..k + 1], r)
                        == if FirstFrom(ds[..k], r).None? && ds[k].0 == r then Some(ds[k].1) else FirstFrom(ds[..k], r)
  {
    assert ds[..k + 1][..k] == ds[..k];
  }

  /** The published account of ranks: who was heard, and who was not. */
  ghost predicate MetaOk(meta: Meta, size: nat, ds: seq<Delivery>) {
    && meta.expected == size
    && (forall i :: i in meta.missing <==> 1 <= i < size && Silent(ds, i))
    && (forall i :: i in meta.collected <==> 0 <= i < size && i !in meta.missing)
    && (meta.complete ==> meta.missing == {})
  }

  /** What root has when it stops receiving without a bad message. */
  lemma Heard(run: nat, size: nat, ds: seq<Delivery>, k: nat, pending: set<nat>, got: map<nat, Go>)
    requires k <= |ds| && Waiting(ds[..k], run, size, pending, got) && (k < |ds| ==> pending == {})
    ensures Waiting(ds, run, size, pending, got)
  {
    if k == |ds| {
      assert ds[..k] == ds;
    } else {
      forall i | 1 <= i < size ensures FirstFrom(ds, i) == FirstFrom(ds[..k], i) {
        assert i !in pending;
        FirstStays(ds, k, i);
      }
    }
  }

  lemma HeardMeta(run: nat, size: nat, ds: seq<Delivery>, pending: set<nat>, got: map<nat, Go>, complete: bool)
    requires size >= 1 && Waiting(ds, run, size, pending, got) && (complete ==> pending == {})
    ensures MetaOk(Meta(size, got.Keys + {0}, pending, complete), size, ds)
  {
    forall i: nat ensures Silent(ds, i) <==> FirstFrom(ds, i).None? { SilentIff(ds, i); }
  }

  lemma HeardAll(own: Go, run: nat, size: nat, ds: seq<Delivery>, pending: set<nat>, got: map<nat, Go>, ss: seq<Go>)
    requires size >= 1 && Waiting(ds, run, size, pending, got) && pending == {}
    requires |ss| == size && ss[0] == own && forall i :: 1 <= i < size ==> i in got && ss[i] == got[i]
    ensures Contributed(own, ds, run, size, ss)
    ensures forall i :: 0 < i < size ==> ValidGo(ss[i])
  {
    GotContributes(ds, run, size, pending, got);
  }

  /** A rank that sent nothing, or something else, contributes nothing. */
  lemma NotAll(own: Go, run: nat, size: nat, ds: seq<Delivery>, r: nat, reduced: seq<int>)
    requires 1 <= r < size && (FirstFrom(ds, r).None? || !Good(FirstFrom(ds, r).value, run, r))
    ensures !HasContributed(ds, run, r) && !CanPublish(own, ds, run, size, reduced)
  {
    forall ss | Contributed(own, ds, run, size, ss) ensures HasContributed(ds, run, r) {
      assert Contributes(ds, run, r, ss[r]);
    }
    forall s ensures !Contributes(ds, run, r, s) { GoodContributes(ds, run, r, s); }
  }

  lemma CanPublishIff(own: Go, ds: seq<Delivery>, run: nat, size: nat, reduced: seq<int>, ss: seq<Go>)
    requires Contributed(own, ds, run, size, ss)
    ensures CanPublish(own, ds, run, size, reduced) <==> Publishable(ss, reduced)
  {
    if CanPublish(own, ds, run, size, reduced) {
      var ts :| Contributed(own, ds, run, size, ts) && Publishable(ts, reduced);
      ContributedOnce(own, ds, run, size, ss, ts);
    }
  }

  /** Root's side of the reduction over several ranks. `reduced` is the receive buffer once the collective
      completed. */
  method ReduceRanks(run: nat, own: Go, size: nat, deliveries: seq<Delivery>, reduced: Option<seq<int>>)
    returns (r: Result<Published, ReduceError>, meta: Option<Meta>)
    requires size >= 2
    ensures r.Ok? <==> && ValidGo(own) && InRange(Fields(own)) && reduced.Some?
                       && CanPublish(own, deliveries, run, size, reduced.value)
    ensures r.Ok? ==> PublishedFrom(r.value, own, deliveries, run, size, reduced.value)
    ensures r.Err? && r.error.BadMessage? ==>
              && 1 <= r.error.rank < size && !Silent(deliveries, r.error.rank)
              && !HasContributed(deliveries, run, r.error.rank)
    ensures r.Ok? <==> meta.Some? && meta.value.complete
    ensures r == Err(TimedOut) <==> meta.Some? && !meta.value.complete
    ensures meta.Some? ==> MetaOk(meta.value, size, deliveries)
  {
    meta := None;
    if !ValidGo(own) || !InRange(Fields(own)) {
      return Err(LocalInvalid), None;
    }
    var k, bad, pending, got := ReceiveSummaries(run, size, deliveries);
    if bad.Some? {
      FirstStays(deliveries, k, bad.value);
      SilentIff(deliveries, bad.value);
      NotAll(own, run, size, deliveries, bad.value, if reduced.Some? then reduced.value else []);
      return Err(BadMessage(bad.value)), None;
    }
    Heard(run, size, deliveries, k, pending, got);
    HeardMeta(run, size, deliveries, pending, got, pending == {} && reduced.Some?);
    meta := Some(Meta(size, got.Keys + {0}, pending, pending == {} && reduced.Some?));
    if pending != {} || reduced.None? {
      if pending != {} && reduced.Some? {
        ghost var silent :| silent in pending;
        NotAll(own, run, size, deliveries, silent, reduced.value);
      }
      return Err(TimedOut), meta;
    }
    r := CheckRanks(run, own, size, deliveries, got, reduced.value);
    if r.Err? {
      meta := None;
    }
  }

  /** Root when everybody was heard. */
  method CheckRanks(run: nat, own: Go, size: nat, ghost deliveries: seq<Delivery>, got: map<nat, Go>, reduced: seq<int>)
    returns (r: Result<Published, ReduceError>)
    requires size >= 2 && ValidGo(own) && Waiting(deliveries, run, size, {}, got)
    ensures r.Ok? <==> CanPublish(own, deliveries, run, size, reduced)
    ensures r.Ok? ==> PublishedFrom(r.value, own, deliveries, run, size, reduced)
    ensures r.Err? ==> !r.error.TimedOut? && !r.error.BadMessage?
  {
    var ss := seq(size, i requires 0 <= i < size => if i == 0 then own else got[i]);
    HeardAll(own, run, size, deliveries, {}, got, ss);
    CanPublishIff(own, deliveries, run, size, reduced, ss);
    r := CrossCheck(ss, reduced);
  }

  /** The reduction: a single rank publishes its own summary, several ranks reduce theirs. */
  method ReduceSummary(run: nat, own: Go, size: nat, deliveries: seq<Delivery>, reduced: Option<seq<int>>)
    returns (r: Result<Published, ReduceError>, meta: Option<Meta>)
    requires size >= 1
    ensures size > 1 ==> (r.Ok? <==> && ValidGo(own) && InRange(Fields(own)) && reduced.Some?
                                     && CanPublish(own, deliveries, run, size, reduced.value))
    ensures size > 1 && r.Ok? ==> PublishedFrom(r.value, own, deliveries, run, size, reduced.value)
    ensures size > 1 && r.Ok? ==> forall q: nat :: 1 <= q < size ==> HeardFrom(deliveries, q, run)
    ensures size > 1 && r.Ok? ==> forall t :: t in r.value.totals ==> t < 0x1_0000_0000_0000_0000
    ensures size == 1 ==> r == if ValidGo(own) then Ok(Published(Fields(own), own.p50, own.p99)) else Err(LocalInvalid)
    ensures r.Ok? <==> meta.Some? && meta.value.complete
    ensures r == Err(TimedOut) <==> meta.Some? && !meta.value.complete
    ensures meta.Some? ==> MetaOk(meta.value, size, deliveries)
  {
    if size > 1 {
      r, meta := ReduceRanks(run, own, size, deliveries, reduced);
      if r.Ok? { AllSentHere(r.value, own, deliveries, run, size, reduced.value); }
    } else if ValidGo(own) {
      r, meta := Ok(Published(Fields(own), own.p50, own.p99)), Some(Meta(1, {0}, {}, true));
    } else {
      r, meta := Err(LocalInvalid), None;
    }
  }

  /** The first message of rank `q` is a summary of this run and of that rank. */
  ghost predicate HeardFrom(ds: seq<Delivery>, q: nat, run: nat) {
    exists i: nat, s ::
      && i < |ds| && ds[i] == (q, SummaryMessage(run, q, Some(s)))
      && forall j :: 0 <= j < i ==> ds[j].0 != q
  }

  lemma AllSentHere(p: Published, own: Go, ds: seq<Delivery>, run: nat, size: nat, reduced: seq<int>)
    requires PublishedFrom(p, own, ds, run, size, reduced)
    ensures forall q: nat :: 1 <= q < size ==> HeardFrom(ds, q, run)
    ensures forall t :: t in p.totals ==> t < 0x1_0000_0000_0000_0000
  {
    var ss :| Contributed(own, ds, run, size, ss) && Publishable(ss, reduced) && Publishes(p, ss);
    forall q: nat | 1 <= q < size ensures HeardFrom(ds, q, run) {
      assert Contributes(ds, run, q, ss[q]);
      var i: nat :| IsFirst(ds, q, i) && ds[i] == (q, SummaryMessage(run, q, Some(ss[q])));
    }
  }

  lemma {:induction false} FirstStays(ds: seq<Delivery>, k: nat, rank: nat)
    requires k <= |ds| && FirstFrom(ds[..k], rank).Some?
    ensures FirstFrom(ds, rank) == FirstFrom(ds[..k], rank)
  {
    if k == |ds| {
      assert ds[..k] == ds;
    } else {
      assert ds[..|ds| - 1][..k] == ds[..k];
      FirstStays(ds[..|ds| - 1], k, rank);
    }
  }

  /** Validation of both paths against one another before publication. */
  method CrossCheck(ss: seq<Go>, reduced: seq<int>) returns (r: Result<Published, ReduceError>)
    requires ss != [] && forall i :: 0 <= i < |ss| ==> ValidGo(ss[i])
    ensures r.Ok? <==> Publishable(ss, reduced)
    ensures r.Err? ==> !r.error.TimedOut? && !r.error.BadMessage?
    ensures r.Ok? ==> Publishes(r.value, ss)
  {
    var exact := Totals(ss);
    if !InRange(exact) {
      return Err(AggregateTooLarge);
    }
    if reduced != exact {
      return Err(PathsDisagree);
    }
    LayoutMergeable(ss);
    var hist := MergeLatencyHistograms(Hists(ss));
    if hist.None? {
      return Err(LayoutsDisagree);
    }
    if hist.value.count != exact[0] - exact[2] {
      return Err(CountDisagrees);
    }
    MergedValid(ss);
    var p50 := HistogramPercentile(hist.value, 0.50);
    var p99 := HistogramPercentile(hist.value, 0.99);
    return Ok(Published(exact, p50.value, p99.value));
  }

  // ---------------------------------------------------------------- the wrapping path

  /** Addition of unsigned 64-bit counters, rank after rank. */
  function WrapSum(f: Go -> int, ss: seq<Go>): int {
    if ss == [] then 0 else (f(ss[0]) + WrapSum(f, ss[1..])) % WORD
  }

  lemma {:induction false} WrapIsModulo(f: Go -> int, ss: seq<Go>)
    ensures WrapSum(f, ss) == Sum(f, ss) % WORD
  {
    if ss != [] {
      WrapIsModulo(f, ss[1..]);
      ModAdd(f(ss[0]), Sum(f, ss[1..]));
    }
  }

  lemma ModAdd(a: int, b: int)
    ensures (a + b % WORD) % WORD == (a + b) % WORD
  {
    assert a + b == (a + b % WORD) + WORD * (b / WORD);
  }

  function WrapTotals(ss: seq<Go>): seq<int> {
    [WrapSum(Completed, ss), WrapSum(Scheduled, ss), WrapSum(Errors, ss), WrapSum(InTokens, ss), WrapSum(OutTokens, ss)]
  }

  /** The reduction is exact precisely when no counter overflows. */
  lemma WrapExact(ss: seq<Go>)
    requires forall i :: 0 <= i < |ss| ==> ValidGo(ss[i])
    ensures WrapTotals(ss) == Totals(ss) <==> InRange(Totals(ss))
  {
    SumsOrdered(ss);
    WrapField(Completed, ss);
    WrapField(Scheduled, ss);
    WrapField(Errors, ss);
    WrapField(InTokens, ss);
    WrapField(OutTokens, ss);
    var t, w := Totals(ss), WrapTotals(ss);
    assert forall i :: 0 <= i < 5 ==> (w[i] == t[i] <==> t[i] <= UINT64_MAX);
    assert w == t <==> forall i :: 0 <= i < 5 ==> w[i] == t[i];
  }

  lemma WrapField(f: Go -> int, ss: seq<Go>)
    requires Sum(f, ss) >= 0
    ensures WrapSum(f, ss) == Sum(f, ss) <==> Sum(f, ss) <= UINT64_MAX
  {
    WrapIsModulo(f, ss);
  }

  // ---------------------------------------------------------------- what publication guarantees

  /** Every message that names this run and the rank it came from, and carries a summary, carries the one that
      the rank really holds. */
  ghost predicate GenuineMessages(truth: seq<Go>, run: nat, ds: seq<Delivery>) {
    forall i :: 0 <= i < |ds| && 1 <= ds[i].0 < |truth| ==>
      var m := ds[i].1;
      m.SummaryMessage? && m.run == run && m.rank == ds[i].0 && m.body.Some? ==> m.body.value == truth[ds[i].0]
  }

  lemma GenuineSummaries(truth: seq<Go>, run: nat, ds: seq<Delivery>, ss: seq<Go>)
    requires truth != [] && Contributed(truth[0], ds, run, |truth|, ss) && GenuineMessages(truth, run, ds)
    ensures ss == truth
  {
    forall r: nat | 1 <= r < |truth| ensures ss[r] == truth[r] {
      assert Contributes(ds, run, r, ss[r]);
      var i: nat :| IsFirst(ds, r, i) && ds[i] == (r, SummaryMessage(run, r, Some(ss[r])));
    }
  }

  /** Published totals are the true integer sums if either path is sound: exact messages that were
      not forged, or a true wrapping reduction of counters that do not overflow. */
  lemma PublishedTotalsAreTrue(truth: seq<Go>, run: nat, ds: seq<Delivery>, reduced: seq<int>, p: Published)
    requires truth != [] && forall i :: 0 <= i < |truth| ==> ValidGo(truth[i])
    requires PublishedFrom(p, truth[0], ds, run, |truth|, reduced)
    requires GenuineMessages(truth, run, ds) || (reduced == WrapTotals(truth) && InRange(Totals(truth)))
    ensures p.totals == Totals(truth)
  {
    var ss :| Contributed(truth[0], ds, run, |truth|, ss) && Publishable(ss, reduced) && Publishes(p, ss);
    if GenuineMessages(truth, run, ds) {
      GenuineSummaries(truth, run, ds, ss);
    } else {
      WrapExact(truth);
    }
  }

  /** With both paths sound, publication depends on the ranks alone: it happens exactly when their
      counters fit 64 bits, their layouts agree and their histograms count their successes. */
  lemma HonestRanksPublish(truth: seq<Go>, run: nat, ds: seq<Delivery>)
    requires truth != [] && forall i :: 0 <= i < |truth| ==> ValidGo(truth[i])
    requires AllContribute(ds, run, |truth|) && GenuineMessages(truth, run, ds)
    ensures CanPublish(truth[0], ds, run, |truth|, WrapTotals(truth)) <==> InRange(Totals(truth)) && Consistent(truth)
  {
    var ss := ContributionsExist(truth[0], ds, run, |truth|);
    GenuineSummaries(truth, run, ds, ss);
    CanPublishIff(truth[0], ds, run, |truth|, WrapTotals(truth), ss);
    PublishableIff(truth);
  }

  /** One layout, and histograms that count the successes. */
  ghost predicate Consistent(ss: seq<Go>) {
    && OneLayout(ss)
    && Sum(CountOf, Hists(ss)) == Sum(Completed, ss) - Sum(Errors, ss)
  }

  lemma PublishableIff(ss: seq<Go>)
    requires ss != [] && forall i :: 0 <= i < |ss| ==> ValidGo(ss[i])
    ensures Publishable(ss, WrapTotals(ss)) <==> InRange(Totals(ss)) && Consistent(ss)
  {
    WrapExact(ss);
  }

  /** Summaries written from records are consistent: their histograms merge to the histogram of all
      successful requests, and publication can fail only on overflow. */
  lemma RecordsPublishable(bounds: seq<int>, parts: seq<seq<Record>>, truth: seq<Go>)
    requires bounds != [] && bounds[0] >= 0 && Increasing(bounds)
    requires |truth| == |parts| > 0
    requires forall i :: 0 <= i < |truth| ==> Describes(truth[i], bounds, parts[i])
    ensures Consistent(truth) && (Publishable(truth, WrapTotals(truth)) <==> InRange(Totals(truth)))
    ensures MergeAll(Hists(truth)) == HistOf(bounds, Latencies(Flatten(parts)))
    ensures TotalsDescribe(truth, Flatten(parts))
  {
    SummariesOfRecords(bounds, parts, truth);
    PublishableIff(truth);
  }

  /** The ranks' own counters fit when the totals do. */
  lemma OwnFits(truth: seq<Go>)
    requires OneLayout(truth) && InRange(Totals(truth))
    ensures InRange(Fields(truth[0]))
  {
    SumsOrdered(truth[1..]);
    var t, own := Totals(truth), Fields(truth[0]);
    HeadAtMost(Completed, truth);
    HeadAtMost(Scheduled, truth);
    HeadAtMost(Errors, truth);
    HeadAtMost(InTokens, truth);
    HeadAtMost(OutTokens, truth);
    assert own[0] <= t[0] && own[1] <= t[1] && own[2] <= t[2] && own[3] <= t[3] && own[4] <= t[4];
  }

  lemma HeadAtMost(f: Go -> int, ss: seq<Go>)
    requires ss != [] && Sum(f, ss[1..]) >= 0
    ensures f(ss[0]) <= Sum(f, ss)
  {
  }

  /** What the call publishes about the records: true totals, and the quantiles of one histogram of all
      successful requests of all ranks. */
  ghost predicate DescribesAll(p: Published, bounds: seq<int>, rs: seq<Record>) {
    && p.totals == [Sum(IsPopulated, rs), Sum(IsPopulated, rs), Sum(IsError, rs),
                    Sum(InputTokens, rs), Sum(OutputTokens, rs)]
    && ValidHist(HistOf(bounds, Latencies(rs)))
    && p.p50 == Quantile(HistOf(bounds, Latencies(rs)), 0.50) && p.p99 == Quantile(HistOf(bounds, Latencies(rs)), 0.99)
  }

  /** End to end: over summaries written from records, honest messages and a true wrapping reduction, the call
      returns exactly when the counters fit, and what it publishes describes all records of all ranks. */
  method ReduceRecords(bounds: seq<int>, ghost parts: seq<seq<Record>>, ghost truth: seq<Go>, run: nat, own: Go,
                       size: nat, deliveries: seq<Delivery>, reduced: seq<int>)
    returns (r: Result<Published, ReduceError>)
    requires bounds != [] && bounds[0] >= 0 && Increasing(bounds)
    requires |truth| == |parts| == size >= 1 && own == truth[0]
    requires forall i :: 0 <= i < size ==> Describes(truth[i], bounds, parts[i])
    requires AllContribute(deliveries, run, size) && GenuineMessages(truth, run, deliveries)
    requires reduced == WrapTotals(truth)
    ensures r.Ok? <==> size == 1 || InRange(Totals(truth))
    ensures r.Ok? ==> DescribesAll(r.value, bounds, Flatten(parts))
  {
    var meta;
    r, meta := ReduceSummary(run, own, size, deliveries, Some(reduced));
    if size == 1 {
      OwnDescribes(bounds, parts, truth);
    } else {
      RanksDescribe(bounds, parts, truth);
      HonestRanksPublish(truth, run, deliveries);
      if r.Ok? { PublishedDescribes(bounds, parts, truth, run, deliveries, reduced, r.value); }
    }
  }

  lemma OwnDescribes(bounds: seq<int>, parts: seq<seq<Record>>, truth: seq<Go>)
    requires |truth| == |parts| == 1 && Describes(truth[0], bounds, parts[0])
    ensures ValidGo(truth[0])
    ensures DescribesAll(Published(Fields(truth[0]), truth[0].p50, truth[0].p99), bounds, Flatten(parts))
  {
    DescribedIsValid(truth[0], bounds, parts[0]);
    assert Flatten(parts) == parts[0] + Flatten(parts[1..]) == parts[0];
  }

  lemma RanksDescribe(bounds: seq<int>, parts: seq<seq<Record>>, truth: seq<Go>)
    requires bounds != [] && bounds[0] >= 0 && Increasing(bounds)
    requires |truth| == |parts| > 0 && forall i :: 0 <= i < |truth| ==> Describes(truth[i], bounds, parts[i])
    ensures Consistent(truth) && forall i :: 0 <= i < |truth| ==> ValidGo(truth[i])
    ensures InRange(Totals(truth)) ==> InRange(Fields(truth[0]))
  {
    RecordsPublishable(bounds, parts, truth);
    if InRange(Totals(truth)) { OwnFits(truth); }
  }

  lemma PublishedDescribes(bounds: seq<int>, parts: seq<seq<Record>>, truth: seq<Go>, run: nat, ds: seq<Delivery>,
                           reduced: seq<int>, p: Published)
    requires bounds != [] && bounds[0] >= 0 && Increasing(bounds)
    requires |truth| == |parts| > 0 && forall i :: 0 <= i < |truth| ==> Describes(truth[i], bounds, parts[i])
    requires GenuineMessages(truth, run, ds) && PublishedFrom(p, truth[0], ds, run, |truth|, reduced)
    ensures DescribesAll(p, bounds, Flatten(parts))
  {
    var ss :| Contributed(truth[0], ds, run, |truth|, ss) && Publishable(ss, reduced) && Publishes(p, ss);
    GenuineSummaries(truth, run, ds, ss);
    RecordsPublishable(bounds, parts, truth);
  }

  /** So the published percentiles are within two percent of the true order statistics of all successful
      requests of all ranks, however the requests were spread over them. */
  lemma PublishedWithinTwoPercent(p: Published, bounds: seq<int>, rs: seq<Record>, sorted: seq<int>, k50: int, k99: int)
    requires TwoPercent(bounds) && DescribesAll(p, bounds, rs)
    requires Sorted(sorted) && multiset(sorted) == multiset(Latencies(rs)) && sorted != []
    requires AsksFor(|sorted|, 0.50, k50) && AsksFor(|sorted|, 0.99, k99)
    ensures 1 <= k50 <= |sorted| && Accurate(p.p50, sorted[k50 - 1])
    ensures 1 <= k99 <= |sorted| && Accurate(p.p99, sorted[k99 - 1])
  {
    SuccessSplit(rs);
    AccurateOnAll(bounds, Latencies(rs), sorted, HistOf(bounds, Latencies(rs)), 0.50, k50);
    AccurateOnAll(bounds, Latencies(rs), sorted, HistOf(bounds, Latencies(rs)), 0.99, k99);
  }

  lemma AccurateOnAll(bounds: seq<int>, all: seq<int>, sorted: seq<int>, h: Hist, p: real, k: int)
    requires TwoPercent(bounds) && h == HistOf(bounds, all) && forall i :: 0 <= i < |all| ==> all[i] >= 0
    requires Sorted(sorted) && multiset(sorted) == multiset(all) && sorted != [] && 0.0 < p <= 1.0
    requires AsksFor(|sorted|, p, k)
    ensures ValidHist(h) && 1 <= k <= |sorted| && Accurate(Quantile(h, p), sorted[k - 1])
  {
    SortedSamples(all, sorted);
    HistOfValid(bounds, all);
    QuantileIff(h, p, Quantile(h, p));
    TwoPercentError(bounds, all, sorted, p, k, Quantile(h, p));
  }

  lemma SortedSamples(all: seq<int>, sorted: seq<int>)
    requires multiset(sorted) == multiset(all) && forall i :: 0 <= i < |all| ==> all[i] >= 0
    ensures |sorted| == |all| && forall i :: 0 <= i < |sorted| ==> sorted[i] >= 0
  {
    assert |all| == |multiset(all)| == |multiset(sorted)| == |sorted|;
    forall i | 0 <= i < |sorted| ensures sorted[i] >= 0 {
      assert sorted[i] in multiset(all);
    }
  }
}
