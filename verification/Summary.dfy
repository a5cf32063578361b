/** Per-process summaries and their composition on one rank. */
module Summary {
  import opened Common
  import opened Bounds
  import opened Histogram
  import opened Percentile
  import opened PercentileError

  datatype Record = Record(
    hasId: bool, success: bool, hasError: bool, ended: bool, latencyNs: int,
    inputLen: nat, outputLen: nat, promptTokens: Option<nat>, completionTokens: Option<nat>,
    errorClass: string, error: string)

  /** A result cell some worker wrote. */
  predicate Populated(r: Record) { r.hasId || r.success || r.hasError || r.ended }

  function IsPopulated(r: Record): int { if Populated(r) then 1 else 0 }
  function IsError(r: Record): int { if Populated(r) && !r.success then 1 else 0 }
  function IsSuccess(r: Record): int { if r.success then 1 else 0 }

  function InputTokens(r: Record): int {
    if !r.success then 0 else if r.promptTokens.Some? then r.promptTokens.value else r.inputLen
  }

  function OutputTokens(r: Record): int {
    if !r.success then 0 else if r.completionTokens.Some? then r.completionTokens.value else r.outputLen
  }

  function ClassOf(r: Record): string { if r.errorClass == "" then "unknown" else r.errorClass }

  predicate IsErrorOf(r: Record, c: string) { Populated(r) && !r.success && ClassOf(r) == c }

  function ErrorOf(c: string): Record -> int { (r: Record) => if IsErrorOf(r, c) then 1 else 0 }

  const MAX_SAMPLE := 300

  function Sample(r: Record): string { if |r.error| > MAX_SAMPLE then r.error[..MAX_SAMPLE] else r.error }

  /** The message kept for an error class: that of its first error, cut off. */
  function FirstError(rs: seq<Record>, c: string): Option<string> {
    if rs == [] then None
    else
      var earlier := FirstError(rs[..|rs| - 1], c);
      if earlier.Some? then earlier
      else if IsErrorOf(rs[|rs| - 1], c) then Some(Sample(rs[|rs| - 1]))
      else None
  }

  type ErrorTally = map<string, (int, string)>

  /** Exactly the classes that occur, each with its number of errors and its first message. */
  ghost predicate ErrorsTallied(rs: seq<Record>, errors: ErrorTally) {
    forall c :: && (c in errors <==> FirstError(rs, c).Some?)
                && (c in errors ==> errors[c] == (Sum(ErrorOf(c), rs), FirstError(rs, c).value))
                && (c !in errors ==> Sum(ErrorOf(c), rs) == 0)
  }

  /** Counting one more record. */
  function Tallied(errors: ErrorTally, r: Record): ErrorTally {
    if !Populated(r) || r.success then errors
    else
      var c := ClassOf(r);
      errors[c := if c in errors then (errors[c].0 + 1, errors[c].1) else (1, Sample(r))]
  }

  lemma TalliedNext(rs: seq<Record>, r: Record, errors: ErrorTally)
    requires ErrorsTallied(rs, errors)
    ensures ErrorsTallied(rs + [r], Tallied(errors, r))
  {
    assert (rs + [r])[..|rs|] == rs;
    forall c ensures Sum(ErrorOf(c), rs + [r]) == Sum(ErrorOf(c), rs) + ErrorOf(c)(r) {
      SumAppend(ErrorOf(c), rs, [r]);
    }
  }

  /** Latencies of the successful requests, in cell order. */
  function Latencies(rs: seq<Record>): seq<int> { Flatten(Map(Latency, rs)) }

  function Latency(r: Record): seq<int> { if r.success then [Clamp(r.latencyNs)] else [] }

  datatype Go = Go(
    completed: int, scheduled: int, errors: int, inputTokens: int, outputTokens: int,
    p50: real, p99: real, hist: Hist, times: Times, runT0: real)

  /** When the last request was fired, started and read to its end. */
  datatype Times = Times(fire: real, start: real, done: real)

  /** The checks of the shared summary contract that the arithmetic depends on. */
  predicate ValidGo(s: Go) {
    && 0 <= s.errors <= s.completed <= s.scheduled
    && s.inputTokens >= 0 && s.outputTokens >= 0 && s.p50 >= 0.0 && s.p99 >= 0.0
    && ValidHist(s.hist) && s.hist.sum >= 0.0
  }

  /** What a summary of all records of a run must say. */
  ghost predicate Describes(s: Go, bounds: seq<int>, rs: seq<Record>) {
    && s.completed == s.scheduled == Sum(IsPopulated, rs)
    && s.errors == Sum(IsError, rs)
    && s.inputTokens == Sum(InputTokens, rs) && s.outputTokens == Sum(OutputTokens, rs)
    && s.hist == HistOf(bounds, Latencies(rs))
    && ValidHist(s.hist)
    && s.p50 == Quantile(s.hist, 0.50) && s.p99 == Quantile(s.hist, 0.99)
  }

  /** First pass: how many cells were written. */
  method CountResults(results: seq<seq<Record>>) returns (total: int)
    ensures total == Sum(IsPopulated, Flatten(results))
  {
    total := 0;
    for w := 0 to |results|
      invariant total == Sum(IsPopulated, Flatten(results[..w]))
    {
      assert Flatten(results[..w]) + results[w][..0] == Flatten(results[..w]);
      for i := 0 to |results[w]|
        invariant total == Sum(IsPopulated, Flatten(results[..w]) + results[w][..i])
      {
        SumNext(IsPopulated, results, w, i);
        if Populated(results[w][i]) {
          total := total + 1;
        }
      }
      RowDone(results, w);
    }
    assert results[..|results|] == results;
  }

  /** The accumulators of the second pass. */
  datatype Acc = Acc(completed: int, errors: int, inTokens: int, outTokens: int, classes: ErrorTally)

  /** The accumulators after one more record. */
  ghost function Added(acc: Acc, rec: Record): Acc {
    Acc(acc.completed + IsSuccess(rec), acc.errors + IsError(rec), acc.inTokens + InputTokens(rec),
        acc.outTokens + OutputTokens(rec), Tallied(acc.classes, rec))
  }

  method AddRecord(acc0: Acc, rec: Record) returns (acc: Acc)
    ensures acc == Added(acc0, rec)
  {
    acc := acc0;
    if Populated(rec) {
      if rec.success {
        acc := acc.(completed := acc.completed + 1, inTokens := acc.inTokens + InputTokens(rec),
                    outTokens := acc.outTokens + OutputTokens(rec));
      } else {
        var cls := if rec.errorClass == "" then "unknown" else rec.errorClass;
        var entry := if cls in acc.classes then (acc.classes[cls].0 + 1, acc.classes[cls].1) else (1, Sample(rec));
        acc := acc.(errors := acc.errors + 1, classes := acc.classes[cls := entry]);
      }
    }
  }

  /** One row of the second pass. */
  method AccumulateRow(row: seq<Record>, hist: DurationHistogram, acc0: Acc, ghost before: seq<Record>)
    returns (acc: Acc)
    requires hist.Valid() && Counted(before, acc0, hist.samples)
    modifies hist, hist.counts
    ensures hist.Valid() && hist.counts == old(hist.counts)
    ensures Counted(before + row, acc, hist.samples)
  {
    acc := acc0;
    assert before + row[..0] == before;
    for i := 0 to |row|
      invariant hist.Valid() && hist.counts == old(hist.counts)
      invariant Counted(before + row[..i], acc, hist.samples)
    {
      var rec := row[i];
      CountedNext(before + row[..i], rec, acc, hist.samples);
      RowNext(before, row, i);
      if Populated(rec) && rec.success {
        hist.Observe(rec.latencyNs);
      }
      acc := AddRecord(acc, rec);
    }
    assert row[..|row|] == row;
  }

  /** Second pass: outcomes, tokens, latencies and error classes. */
  method Accumulate(results: seq<seq<Record>>, hist: DurationHistogram) returns (acc: Acc)
    requires hist.Valid() && hist.samples == []
    modifies hist, hist.counts
    ensures hist.Valid() && hist.counts == old(hist.counts)
    ensures Counted(Flatten(results), acc, hist.samples)
  {
    acc := Acc(0, 0, 0, 0, map[]);
    for w := 0 to |results|
      invariant hist.Valid() && hist.counts == old(hist.counts)
      invariant Counted(Flatten(results[..w]), acc, hist.samples)
    {
      acc := AccumulateRow(results[w], hist, acc, Flatten(results[..w]));
      RowDone(results, w);
      assert results[w][..|results[w]|] == results[w];
    }
    assert results[..|results|] == results;
  }

  /** The summary branch of `writeResults`. */
  method WriteSummary(bounds: seq<int>, results: seq<seq<Record>>, times: Times, runT0: real)
    returns (s: Go, classes: ErrorTally)
    requires bounds != [] && bounds[0] >= 0 && Increasing(bounds)
    ensures Describes(s, bounds, Flatten(results)) && s.times == times && s.runT0 == runT0
    ensures ErrorsTallied(Flatten(results), classes)
  {
    var totalResults := CountResults(results);
    var hist := new DurationHistogram(bounds);
    var acc := Accumulate(results, hist);
    classes := acc.classes;
    SuccessSplit(Flatten(results));
    var snapshot := hist.Snapshot();
    HistOfValid(bounds, hist.samples);
    var p50, p99 := TwoPercentiles(snapshot);
    s := Go(acc.completed + acc.errors, totalResults, acc.errors, acc.inTokens, acc.outTokens,
            p50, p99, snapshot, times, runT0);
  }

  method TwoPercentiles(h: Hist) returns (p50: real, p99: real)
    requires ValidHist(h)
    ensures p50 == Quantile(h, 0.50) && p99 == Quantile(h, 0.99)
  {
    p50 := PercentileFromHistogram(h, 0.50);
    p99 := PercentileFromHistogram(h, 0.99);
  }

  ghost predicate Counted(rs: seq<Record>, acc: Acc, samples: seq<int>) {
    && acc.completed == Sum(IsSuccess, rs) && acc.errors == Sum(IsError, rs)
    && acc.inTokens == Sum(InputTokens, rs) && acc.outTokens == Sum(OutputTokens, rs)
    && samples == Latencies(rs) && ErrorsTallied(rs, acc.classes)
  }

  lemma SumNext(f: Record -> int, results: seq<seq<Record>>, w: nat, i: nat)
    requires w < |results| && i < |results[w]|
    ensures Sum(f, Flatten(results[..w]) + results[w][..i + 1])
            == Sum(f, Flatten(results[..w]) + results[w][..i]) + f(results[w][i])
  {
    var before := Flatten(results[..w]) + results[w][..i];
    assert Flatten(results[..w]) + results[w][..i + 1] == before + [results[w][i]];
    SumAppend(f, before, [results[w][i]]);
  }

  lemma RowNext(before: seq<Record>, row: seq<Record>, i: nat)
    requires i < |row|
    ensures before + row[..i + 1] == before + row[..i] + [row[i]]
  {
  }

  lemma RowDone(results: seq<seq<Record>>, w: nat)
    requires w < |results|
    ensures Flatten(results[..w + 1]) == Flatten(results[..w]) + results[w][..|results[w]|]
  {
    assert results[..w + 1] == results[..w] + [results[w]];
    FlattenSnoc(results[..w], results[w]);
    assert results[w][..|results[w]|] == results[w];
  }

  lemma CountedNext(rs: seq<Record>, rec: Record, acc: Acc, samples: seq<int>)
    requires Counted(rs, acc, samples)
    ensures Counted(rs + [rec], Added(acc, rec), samples + Latency(rec))
  {
    SumAppend(IsSuccess, rs, [rec]);
    SumAppend(IsError, rs, [rec]);
    SumAppend(InputTokens, rs, [rec]);
    SumAppend(OutputTokens, rs, [rec]);
    TalliedNext(rs, rec, acc.classes);
    LatenciesSnoc(rs, rec);
  }

  /** Every populated record is a success or an error, and successes are what is observed. */
  lemma SuccessSplit(rs: seq<Record>)
    ensures Sum(IsSuccess, rs) + Sum(IsError, rs) == Sum(IsPopulated, rs) && Sum(IsError, rs) >= 0
    ensures |Latencies(rs)| == Sum(IsSuccess, rs)
    ensures forall i :: 0 <= i < |Latencies(rs)| ==> Latencies(rs)[i] >= 0
  {
    SuccessCounts(rs);
    LatencyPerSuccess(rs);
  }

  lemma {:induction false} SuccessCounts(rs: seq<Record>)
    ensures Sum(IsSuccess, rs) + Sum(IsError, rs) == Sum(IsPopulated, rs) && Sum(IsError, rs) >= 0
  {
    if rs != [] { SuccessCounts(rs[1..]); }
  }

  lemma {:induction false} LatencyPerSuccess(rs: seq<Record>)
    ensures |Latencies(rs)| == Sum(IsSuccess, rs)
    ensures forall i :: 0 <= i < |Latencies(rs)| ==> Latencies(rs)[i] >= 0
  {
    if rs != [] {
      LatencyPerSuccess(rs[1..]);
      assert Map(Latency, rs)[1..] == Map(Latency, rs[1..]);
      assert Latencies(rs) == Latency(rs[0]) + Latencies(rs[1..]);
    }
  }

  lemma {:induction false} TokensNonnegative(rs: seq<Record>)
    ensures Sum(InputTokens, rs) >= 0 && Sum(OutputTokens, rs) >= 0
  {
    if rs != [] { TokensNonnegative(rs[1..]); }
  }

  // ---------------------------------------------------------------- what a summary says about the records

  predicate Succeeded(r: Record) { r.success }
  predicate Failed(r: Record) { !r.success && (r.hasId || r.hasError || r.ended) }
  predicate Written(r: Record) { r.hasId || r.success || r.hasError || r.ended }
  predicate ReportsInput(r: Record) { r.success && r.promptTokens.Some? }
  predicate PlansInput(r: Record) { r.success && r.promptTokens.None? }
  predicate ReportsOutput(r: Record) { r.success && r.completionTokens.Some? }
  predicate PlansOutput(r: Record) { r.success && r.completionTokens.None? }
  function PromptTokens(r: Record): int { if r.promptTokens.Some? then r.promptTokens.value else 0 }
  function CompletionTokens(r: Record): int { if r.completionTokens.Some? then r.completionTokens.value else 0 }
  function InputLen(r: Record): int { r.inputLen }
  function OutputLen(r: Record): int { r.outputLen }

  /** Input and output tokens of the successes: what the server reported, and the planned lengths where it
      reported nothing. */
  lemma TokenTotals(rs: seq<Record>)
    ensures Sum(InputTokens, rs)
            == Sum(PromptTokens, Select(ReportsInput, rs)) + Sum(InputLen, Select(PlansInput, rs))
    ensures Sum(OutputTokens, rs)
            == Sum(CompletionTokens, Select(ReportsOutput, rs)) + Sum(OutputLen, Select(PlansOutput, rs))
  {
    SumSplit(InputTokens, ReportsInput, PromptTokens, PlansInput, InputLen, rs);
    SumSplit(OutputTokens, ReportsOutput, CompletionTokens, PlansOutput, OutputLen, rs);
  }

  /** A weight that is one thing where `p` holds, another where `q` does, and nothing elsewhere. */
  lemma {:induction false} SumSplit(f: Record -> int, p: Record -> bool, g: Record -> int,
                                    q: Record -> bool, h: Record -> int, rs: seq<Record>)
    requires forall r :: !(p(r) && q(r)) && f(r) == if p(r) then g(r) else if q(r) then h(r) else 0
    ensures Sum(f, rs) == Sum(g, Select(p, rs)) + Sum(h, Select(q, rs))
  {
    if rs != [] {
      SumSplit(f, p, g, q, h, rs[1..]);
      SumAppend(g, if p(rs[0]) then [rs[0]] else [], Select(p, rs[1..]));
      SumAppend(h, if q(rs[0]) then [rs[0]] else [], Select(q, rs[1..]));
    }
  }

  /** The latencies observed are those of the successes, and a negative one counts as zero. */
  lemma {:induction false} LatenciesAre(rs: seq<Record>)
    ensures var ok := Select(Succeeded, rs);
            && |Latencies(rs)| == |ok|
            && forall i :: 0 <= i < |ok| ==> Latencies(rs)[i] == if ok[i].latencyNs < 0 then 0 else ok[i].latencyNs
  {
    if rs != [] {
      LatenciesAre(rs[1..]);
      assert Map(Latency, rs)[1..] == Map(Latency, rs[1..]);
      assert Latencies(rs) == Latency(rs[0]) + Latencies(rs[1..]);
    }
  }

  lemma CountsAre(rs: seq<Record>)
    ensures Sum(IsPopulated, rs) == |Select(Written, rs)| && Sum(IsError, rs) == |Select(Failed, rs)|
    ensures Sum(IsSuccess, rs) == |Select(Succeeded, rs)|
  {
    SumSelect(IsPopulated, Written, rs, One);
    SumSelect(IsError, Failed, rs, One);
    SumSelect(IsSuccess, Succeeded, rs, One);
    SumOnes(Select(Written, rs));
    SumOnes(Select(Failed, rs));
    SumOnes(Select(Succeeded, rs));
  }

  /** So a summary counts the cells written, the failures among them, the tokens of the successes and one
      latency for each success. */
  lemma DescribedMeans(s: Go, bounds: seq<int>, rs: seq<Record>)
    requires Describes(s, bounds, rs)
    ensures s.completed == s.scheduled == |Select(Written, rs)| && s.errors == |Select(Failed, rs)|
    ensures s.inputTokens == Sum(PromptTokens, Select(ReportsInput, rs)) + Sum(InputLen, Select(PlansInput, rs))
    ensures s.outputTokens == Sum(CompletionTokens, Select(ReportsOutput, rs)) + Sum(OutputLen, Select(PlansOutput, rs))
    ensures s.hist.count == |Select(Succeeded, rs)|
  {
    CountsAre(rs);
    TokenTotals(rs);
    LatenciesAre(rs);
  }

  /** An error of class `c`: an unnamed class is called unknown. */
  predicate ErrorIn(r: Record, c: string) {
    Failed(r) && ((r.errorClass != "" && r.errorClass == c) || (r.errorClass == "" && c == "unknown"))
  }

  function ErrorsIn(c: string): Record -> bool { (r: Record) => ErrorIn(r, c) }

  /** Record `i` is the first error of the class. */
  ghost predicate FirstErrorAt(rs: seq<Record>, c: string, i: nat) {
    i < |rs| && ErrorIn(rs[i], c) && forall j :: 0 <= j < i ==> !ErrorIn(rs[j], c)
  }

  /** A message cut to 300 characters. */
  ghost predicate CutOff(message: string, error: string) {
    message <= error && |message| <= 300 && (|message| < 300 ==> message == error)
  }

  lemma {:induction false} FirstErrorIs(rs: seq<Record>, c: string)
    ensures FirstError(rs, c).None? ==> forall i :: 0 <= i < |rs| ==> !ErrorIn(rs[i], c)
    ensures FirstError(rs, c).Some? ==> KeepsFirst(rs, c, FirstError(rs, c).value)
  {
    if rs != [] {
      var init, last := rs[..|rs| - 1], rs[|rs| - 1];
      FirstErrorIs(init, c);
      ErrorInIs(last, c);
      assert forall i :: 0 <= i < |init| ==> rs[i] == init[i];
      if FirstError(init, c).Some? {
        KeepsEarlier(rs, c, FirstError(init, c).value);
      } else if ErrorIn(last, c) {
        assert FirstErrorAt(rs, c, |init|);
        CutSample(last);
      }
    }
  }

  /** The message kept is that of the first error of the class, cut off. */
  ghost predicate KeepsFirst(rs: seq<Record>, c: string, message: string) {
    exists i: nat :: FirstErrorAt(rs, c, i) && CutOff(message, rs[i].error)
  }

  lemma KeepsEarlier(rs: seq<Record>, c: string, message: string)
    requires rs != [] && KeepsFirst(rs[..|rs| - 1], c, message)
    ensures KeepsFirst(rs, c, message)
  {
    var init := rs[..|rs| - 1];
    var i: nat :| FirstErrorAt(init, c, i) && CutOff(message, init[i].error);
    assert FirstErrorAt(rs, c, i) && rs[i] == init[i];
  }

  lemma ErrorInIs(r: Record, c: string)
    ensures ErrorIn(r, c) <==> IsErrorOf(r, c)
  {
  }

  lemma CutSample(r: Record)
    ensures CutOff(Sample(r), r.error)
  {
  }

  /** The tally names exactly the classes that occur, how often each does, and its first message. */
  lemma TallyMeans(rs: seq<Record>, errors: ErrorTally, c: string)
    requires ErrorsTallied(rs, errors)
    ensures c in errors <==> exists i :: 0 <= i < |rs| && ErrorIn(rs[i], c)
    ensures c in errors ==> errors[c].0 == |Select(ErrorsIn(c), rs)|
    ensures c in errors ==> KeepsFirst(rs, c, errors[c].1)
  {
    FirstErrorIs(rs, c);
    SumSelect(ErrorOf(c), ErrorsIn(c), rs, One);
    SumOnes(Select(ErrorsIn(c), rs));
  }

  // ---------------------------------------------------------------- processes of one rank

  function Completed(s: Go): int { s.completed }
  function Scheduled(s: Go): int { s.scheduled }
  function Errors(s: Go): int { s.errors }
  function InTokens(s: Go): int { s.inputTokens }
  function OutTokens(s: Go): int { s.outputTokens }

  function Hists(ss: seq<Go>): seq<Hist> { Map((s: Go) => s.hist, ss) }

  /** Valid summaries over one bucket layout. */
  ghost predicate OneLayout(ss: seq<Go>) {
    ss != [] && forall i :: 0 <= i < |ss| ==> ValidGo(ss[i]) && ss[i].hist.bounds == ss[0].hist.bounds
  }

  /** Summaries of one run over one bucket layout. */
  ghost predicate Compatible(ss: seq<Go>) {
    OneLayout(ss) && forall i :: 0 <= i < |ss| ==> ss[i].runT0 == ss[0].runT0
  }

  /** Such histograms are those the merge accepts. */
  lemma LayoutMergeable(ss: seq<Go>)
    requires ss != [] && forall i :: 0 <= i < |ss| ==> ValidGo(ss[i])
    ensures OneLayout(ss) <==>
            HasLayout(Hists(ss)[0].bounds) && forall i :: 0 <= i < |ss| ==> Mergeable(Hists(ss)[i], Hists(ss)[0].bounds)
  {
    assert forall i :: 0 <= i < |ss| ==> Hists(ss)[i] == ss[i].hist;
  }

  /** The counters and the histogram of a composition. */
  ghost predicate Composes(m: Go, ss: seq<Go>)
    requires ss != []
  {
    && m.completed == Sum(Completed, ss) && m.scheduled == Sum(Scheduled, ss) && m.errors == Sum(Errors, ss)
    && m.inputTokens == Sum(InTokens, ss) && m.outputTokens == Sum(OutTokens, ss)
    && m.hist == MergeAll(Hists(ss)) && ValidHist(m.hist)
    && m.p50 == Quantile(m.hist, 0.50) && m.p99 == Quantile(m.hist, 0.99)
    && AllLatest(ss, m.times)
  }

  function Fire(s: Go): real { s.times.fire }
  function Start(s: Go): real { s.times.start }
  function Done(s: Go): real { s.times.done }

  ghost predicate Latest(f: Go -> real, ss: seq<Go>, t: real) {
    (forall i :: 0 <= i < |ss| ==> f(ss[i]) <= t) && exists i :: 0 <= i < |ss| && f(ss[i]) == t
  }

  ghost predicate AllLatest(ss: seq<Go>, t: Times) {
    Latest(Fire, ss, t.fire) && Latest(Start, ss, t.start) && Latest(Done, ss, t.done)
  }

  method LatestTimes(ss: seq<Go>) returns (t: Times)
    requires ss != []
    ensures AllLatest(ss, t)
  {
    var fire := MaxOf(Fire, ss);
    var start := MaxOf(Start, ss);
    var done := MaxOf(Done, ss);
    return Times(fire, start, done);
  }

  method MaxOf(f: Go -> real, ss: seq<Go>) returns (t: real)
    requires ss != []
    ensures Latest(f, ss, t)
  {
    t := f(ss[0]);
    ghost var at := 0;
    for i := 1 to |ss|
      invariant 0 <= at < i && f(ss[at]) == t && forall j :: 0 <= j < i ==> f(ss[j]) <= t
    {
      if f(ss[i]) > t {
        t, at := f(ss[i]), i;
      }
    }
  }

  method Total(f: Go -> int, ss: seq<Go>) returns (t: int)
    ensures t == Sum(f, ss)
  {
    t := 0;
    for i := 0 to |ss|
      invariant t == Sum(f, ss[..i])
    {
      assert ss[..i + 1] == ss[..i] + [ss[i]];
      SumAppend(f, ss[..i], [ss[i]]);
      t := t + f(ss[i]);
    }
    assert ss[..|ss|] == ss;
  }

  /** The five counters. */
  method Totalled(ss: seq<Go>) returns (completed: int, scheduled: int, errors: int, inTokens: int, outTokens: int)
    ensures completed == Sum(Completed, ss) && scheduled == Sum(Scheduled, ss) && errors == Sum(Errors, ss)
    ensures inTokens == Sum(InTokens, ss) && outTokens == Sum(OutTokens, ss)
  {
    completed := Total(Completed, ss);
    scheduled := Total(Scheduled, ss);
    errors := Total(Errors, ss);
    inTokens := Total(InTokens, ss);
    outTokens := Total(OutTokens, ss);
  }

  /** The merged summary, from the merged histogram. */
  method Compose(ss: seq<Go>, hist: Hist) returns (m: Go)
    requires OneLayout(ss) && hist == MergeAll(Hists(ss))
    ensures Composes(m, ss) && m.runT0 == ss[0].runT0 && ValidGo(m)
  {
    MergedValid(ss);
    var completed, scheduled, errors, inTokens, outTokens := Totalled(ss);
    var p50 := HistogramPercentile(hist, 0.50);
    var p99 := HistogramPercentile(hist, 0.99);
    QuantileNonnegative(hist, 0.50);
    QuantileNonnegative(hist, 0.99);
    var times := LatestTimes(ss);
    m := Go(completed, scheduled, errors, inTokens, outTokens, p50.value, p99.value, hist, times, ss[0].runT0);
  }

  method MergeProcessSummaries(ss: seq<Go>) returns (r: Option<Go>)
    ensures r.Some? <==> Compatible(ss) && Sum(CountOf, Hists(ss)) == Sum(Completed, ss) - Sum(Errors, ss)
    ensures r.Some? ==> Composes(r.value, ss) && r.value.runT0 == ss[0].runT0 && ValidGo(r.value)
    ensures r.Some? ==> forall i :: 0 <= i < |ss| ==>
              ss[i].runT0 == r.value.runT0 && ss[i].hist.bounds == r.value.hist.bounds
  {
    if ss == [] || exists i :: 0 <= i < |ss| && (!ValidGo(ss[i]) || ss[i].runT0 != ss[0].runT0) {
      return None;
    }
    LayoutMergeable(ss);
    var hist := MergeLatencyHistograms(Hists(ss));
    if hist.None? {
      return None;
    }
    var merged := Compose(ss, hist.value);
    if hist.value.count != merged.completed - merged.errors {
      return None;
    }
    return Some(merged);
  }

  lemma QuantileNonnegative(h: Hist, p: real)
    requires ValidHist(h) && p <= 1.0
    ensures Quantile(h, p) >= 0.0
  {
    if h.count > 0 {
      RankInRange(h.count, p);
      RankBucketMeaning(h.counts, Rank(h.count, p));
      EstimateInBucket(h, RankBucket(h.counts, Rank(h.count, p)), Rank(h.count, p));
    }
  }

  lemma {:induction false} SumsOrdered(ss: seq<Go>)
    requires forall i :: 0 <= i < |ss| ==> ValidGo(ss[i])
    ensures 0 <= Sum(Errors, ss) <= Sum(Completed, ss) <= Sum(Scheduled, ss)
    ensures Sum(InTokens, ss) >= 0 && Sum(OutTokens, ss) >= 0
    ensures SumSeconds(Hists(ss)) >= 0.0
  {
    if ss != [] {
      var init, last := ss[..|ss| - 1], ss[|ss| - 1];
      SumsOrdered(init);
      assert ss == init + [last];
      SumAppend(Errors, init, [last]);
      SumAppend(Completed, init, [last]);
      SumAppend(Scheduled, init, [last]);
      SumAppend(InTokens, init, [last]);
      SumAppend(OutTokens, init, [last]);
      assert Hists(ss)[..|ss| - 1] == Hists(init);
    }
  }

  /** The merged buckets add up to the merged count. */
  lemma {:induction false} ColumnsAndRows(hs: seq<Hist>, n: nat)
    requires forall i :: 0 <= i < |hs| ==>
               |hs[i].counts| == n && Sum(Same, hs[i].counts) == hs[i].count && Nonnegative(hs[i].counts)
    ensures var columns := seq(n, j requires 0 <= j < n => Sum(CountAt(j), hs));
            Sum(Same, columns) == Sum(CountOf, hs) && Nonnegative(columns)
  {
    var columns := seq(n, j requires 0 <= j < n => Sum(CountAt(j), hs));
    if hs == [] {
      SumZeroSeq(columns);
    } else {
      ColumnsAndRows(hs[1..], n);
      var rest := seq(n, j requires 0 <= j < n => Sum(CountAt(j), hs[1..]));
      SumPointwise(hs[0].counts, rest, columns);
    }
  }

  lemma {:induction false} SumZeroSeq(s: seq<int>)
    requires forall i :: 0 <= i < |s| ==> s[i] == 0
    ensures Sum(Same, s) == 0
  {
    if s != [] { SumZeroSeq(s[1..]); }
  }

  lemma {:induction false} SumPointwise(a: seq<int>, b: seq<int>, c: seq<int>)
    requires |a| == |b| == |c| && forall i :: 0 <= i < |a| ==> c[i] == a[i] + b[i]
    ensures Sum(Same, c) == Sum(Same, a) + Sum(Same, b)
  {
    if a != [] { SumPointwise(a[1..], b[1..], c[1..]); }
  }

  lemma MergedValid(ss: seq<Go>)
    requires OneLayout(ss)
    ensures ValidHist(MergeAll(Hists(ss))) && MergeAll(Hists(ss)).sum >= 0.0
    ensures 0 <= Sum(Errors, ss) <= Sum(Completed, ss) <= Sum(Scheduled, ss)
    ensures Sum(InTokens, ss) >= 0 && Sum(OutTokens, ss) >= 0
  {
    SumsOrdered(ss);
    var hs := Hists(ss);
    var n := |hs[0].bounds|;
    ColumnsAndRows(hs, n);
    CountsNonnegative(hs);
    assert MergeAll(hs).counts == seq(n, j requires 0 <= j < n => Sum(CountAt(j), hs));
  }

  lemma {:induction false} CountsNonnegative(hs: seq<Hist>)
    requires forall i :: 0 <= i < |hs| ==> hs[i].count >= 0
    ensures Sum(CountOf, hs) >= 0
  {
    if hs != [] { CountsNonnegative(hs[1..]); }
  }

  // ---------------------------------------------------------------- what the composition describes

  /** Summaries of record lists satisfy the contract, share one layout, and their histograms merge
      to the histogram of all successful requests. */
  lemma SummariesOfRecords(bounds: seq<int>, parts: seq<seq<Record>>, ss: seq<Go>)
    requires bounds != [] && bounds[0] >= 0 && Increasing(bounds)
    requires |ss| == |parts| > 0
    requires forall i :: 0 <= i < |ss| ==> Describes(ss[i], bounds, parts[i])
    ensures forall i :: 0 <= i < |ss| ==> ValidGo(ss[i]) && ss[i].hist.bounds == ss[0].hist.bounds
    ensures MergeAll(Hists(ss)) == HistOf(bounds, Latencies(Flatten(parts)))
    ensures TotalsDescribe(ss, Flatten(parts))
    ensures Sum(CountOf, Hists(ss)) == Sum(Completed, ss) - Sum(Errors, ss)
  {
    var samples := Map(Latencies, parts);
    forall i | 0 <= i < |ss|
      ensures ValidGo(ss[i]) && ss[i].hist.bounds == Layout(bounds)
      ensures Hists(ss)[i] == HistOf(bounds, samples[i])
    {
      DescribedIsValid(ss[i], bounds, parts[i]);
    }
    assert Hists(ss) == HistsOf(bounds, samples);
    MergeIsObserving(bounds, samples);
    LatenciesFlatten(parts);
    TotalsOfRecords(bounds, parts, ss);
    SuccessSplit(Flatten(parts));
  }

  /** The counters of the summaries add up to what the records say. */
  ghost predicate TotalsDescribe(ss: seq<Go>, rs: seq<Record>) {
    && Sum(Completed, ss) == Sum(Scheduled, ss) == Sum(IsPopulated, rs)
    && Sum(Errors, ss) == Sum(IsError, rs)
    && Sum(InTokens, ss) == Sum(InputTokens, rs) && Sum(OutTokens, ss) == Sum(OutputTokens, rs)
  }

  lemma TotalsOfRecords(bounds: seq<int>, parts: seq<seq<Record>>, ss: seq<Go>)
    requires |ss| == |parts| && forall i :: 0 <= i < |ss| ==> Describes(ss[i], bounds, parts[i])
    ensures TotalsDescribe(ss, Flatten(parts))
  {
    TotalsOfParts(Completed, IsPopulated, parts, ss);
    TotalsOfParts(Scheduled, IsPopulated, parts, ss);
    TotalsOfParts(Errors, IsError, parts, ss);
    TotalsOfParts(InTokens, InputTokens, parts, ss);
    TotalsOfParts(OutTokens, OutputTokens, parts, ss);
  }

  lemma DescribedIsValid(s: Go, bounds: seq<int>, rs: seq<Record>)
    requires Describes(s, bounds, rs)
    ensures ValidGo(s)
  {
    SuccessSplit(rs);
    TokensNonnegative(rs);
    QuantileNonnegative(s.hist, 0.50);
    QuantileNonnegative(s.hist, 0.99);
    LatencySumNonnegative(rs);
  }

  /** Summaries written by the processes themselves are never rejected, and their composition
      describes all their records as one process would. */
  lemma ProcessesCompose(bounds: seq<int>, parts: seq<seq<Record>>, ss: seq<Go>, m: Go)
    requires bounds != [] && bounds[0] >= 0 && Increasing(bounds)
    requires |ss| == |parts| > 0
    requires forall i :: 0 <= i < |ss| ==> Describes(ss[i], bounds, parts[i]) && ss[i].runT0 == ss[0].runT0
    ensures Compatible(ss) && Sum(CountOf, Hists(ss)) == Sum(Completed, ss) - Sum(Errors, ss)
    ensures Composes(m, ss) ==> Describes(m, bounds, Flatten(parts))
  {
    SummariesOfRecords(bounds, parts, ss);
  }

  lemma {:induction false} TotalsOfParts(f: Go -> int, g: Record -> int, parts: seq<seq<Record>>, ss: seq<Go>)
    requires |ss| == |parts| && forall i :: 0 <= i < |ss| ==> f(ss[i]) == Sum(g, parts[i])
    ensures Sum(f, ss) == Sum(g, Flatten(parts))
  {
    if ss != [] {
      TotalsOfParts(f, g, parts[1..], ss[1..]);
      SumAppend(g, parts[0], Flatten(parts[1..]));
    }
  }

  lemma LatenciesAppend(a: seq<Record>, b: seq<Record>)
    ensures Latencies(a + b) == Latencies(a) + Latencies(b)
  {
    assert Map(Latency, a + b) == Map(Latency, a) + Map(Latency, b);
    FlattenAppend(Map(Latency, a), Map(Latency, b));
  }

  lemma LatenciesSnoc(rs: seq<Record>, r: Record)
    ensures Latencies(rs + [r]) == Latencies(rs) + Latency(r)
  {
    assert Map(Latency, rs + [r]) == Map(Latency, rs) + [Latency(r)];
    FlattenSnoc(Map(Latency, rs), Latency(r));
  }

  lemma {:induction false} LatenciesFlatten(parts: seq<seq<Record>>)
    ensures Flatten(Map(Latencies, parts)) == Latencies(Flatten(parts))
  {
    if parts != [] {
      LatenciesFlatten(parts[1..]);
      assert Map(Latencies, parts)[1..] == Map(Latencies, parts[1..]);
      LatenciesAppend(parts[0], Flatten(parts[1..]));
    }
  }

  lemma {:induction false} LatencySumNonnegative(rs: seq<Record>)
    ensures Sum(Same, Latencies(rs)) >= 0
  {
    if rs != [] {
      LatencySumNonnegative(rs[1..]);
      assert Map(Latency, rs)[1..] == Map(Latency, rs[1..]);
      SumAppend(Same, Latency(rs[0]), Latencies(rs[1..]));
    }
  }
}
