/** The observed peaks of the dispatcher: every increment of a counter records the new value, in any
    interleaving of the recording threads. */
module Peaks {
  import opened Common
  import P = Pool
  import M = RecordMax

  datatype Counter = Active | Outstanding

  function Value(c: Counter, st: P.State): int { if c.Active? then st.active else st.outstanding }

  /** The step that increments the counter and records its new value. */
  predicate Records(c: Counter, step: P.Step) { if c.Active? then step.Begin? else step.Count? }

  /** The most the counter can show. */
  function Limit(c: Counter, cfg: P.Config): int {
    if c.Active? then cfg.workers else cfg.slots + cfg.workers
  }

  /** The values a run records, in the order of its increments. */
  ghost function Recorded(cfg: P.Config, c: Counter, steps: seq<P.Step>): seq<int>
    requires P.Exec(cfg, steps).Some?
  {
    if steps == [] then []
    else
      Recorded(cfg, c, steps[..|steps| - 1])
      + (if Records(c, steps[|steps| - 1]) then [Value(c, P.Exec(cfg, steps).value)] else [])
  }

  /** What the counter shows after the first `k` steps. */
  ghost function ShownAt(cfg: P.Config, c: Counter, steps: seq<P.Step>, k: nat): int
    requires k <= |steps| && P.Exec(cfg, steps[..k]).Some?
  {
    Value(c, P.Exec(cfg, steps[..k]).value)
  }

  lemma {:induction false} PrefixRuns(cfg: P.Config, steps: seq<P.Step>, k: nat)
    requires P.Exec(cfg, steps).Some? && k <= |steps|
    ensures P.Exec(cfg, steps[..k]).Some?
  {
    if k == |steps| {
      assert steps[..k] == steps;
    } else {
      PrefixRuns(cfg, steps[..|steps| - 1], k);
      assert steps[..|steps| - 1][..k] == steps[..k];
    }
  }

  /** A step that does not record does not raise the counter. */
  lemma OnlyRecordedRise(cfg: P.Config, c: Counter, st: P.State, step: P.Step)
    requires P.Shaped(cfg, st) && P.Enabled(cfg, st, step) && !Records(c, step)
    ensures Value(c, P.Apply(cfg, st, step)) <= Value(c, st)
  {
  }

  /** The counter starts at zero; `v` is no more, or no more than a value recorded. */
  ghost predicate Covered(vs: seq<int>, v: int) {
    v <= 0 || exists i :: 0 <= i < |vs| && v <= vs[i]
  }

  lemma CoveredMore(vs: seq<int>, more: seq<int>, was: int, v: int)
    requires Covered(vs, was) && v <= was
    ensures Covered(vs + more, v)
  {
    if i :| 0 <= i < |vs| && was <= vs[i] {
      assert v <= (vs + more)[i];
    }
  }

  /** Whatever the counter shows has been recorded or was exceeded before. */
  lemma {:induction false} ShownIsCovered(cfg: P.Config, c: Counter, steps: seq<P.Step>)
    requires P.Exec(cfg, steps).Some?
    ensures Covered(Recorded(cfg, c, steps), Value(c, P.Exec(cfg, steps).value))
  {
    if steps != [] {
      var init, last := steps[..|steps| - 1], steps[|steps| - 1];
      var was, now := P.Exec(cfg, init).value, P.Exec(cfg, steps).value;
      var earlier := Recorded(cfg, c, init);
      ShownIsCovered(cfg, c, init);
      if Records(c, last) {
        assert (earlier + [Value(c, now)])[|earlier|] == Value(c, now);
      } else {
        OnlyRecordedRise(cfg, c, was, last);
        CoveredMore(earlier, [], Value(c, was), Value(c, now));
      }
    }
  }

  lemma {:induction false} RecordedGrows(cfg: P.Config, c: Counter, steps: seq<P.Step>, k: nat)
    requires P.Exec(cfg, steps).Some? && k <= |steps| && P.Exec(cfg, steps[..k]).Some?
    ensures Recorded(cfg, c, steps[..k]) <= Recorded(cfg, c, steps)
  {
    if k == |steps| {
      assert steps[..k] == steps;
    } else {
      assert steps[..|steps| - 1][..k] == steps[..k];
      RecordedGrows(cfg, c, steps[..|steps| - 1], k);
    }
  }

  /** Whatever is recorded was shown. */
  lemma {:induction false} RecordedIsShown(cfg: P.Config, c: Counter, steps: seq<P.Step>, i: nat) returns (k: nat)
    requires P.Exec(cfg, steps).Some? && i < |Recorded(cfg, c, steps)|
    ensures k <= |steps| && P.Exec(cfg, steps[..k]).Some? && ShownAt(cfg, c, steps, k) == Recorded(cfg, c, steps)[i]
  {
    var init := steps[..|steps| - 1];
    if i < |Recorded(cfg, c, init)| {
      k := RecordedIsShown(cfg, c, init, i);
      assert init[..k] == steps[..k];
    } else {
      k := |steps|;
      assert steps[..k] == steps;
    }
  }

  lemma WithinLimit(cfg: P.Config, c: Counter, steps: seq<P.Step>)
    requires P.Exec(cfg, steps).Some?
    ensures Value(c, P.Exec(cfg, steps).value) <= Limit(c, cfg)
  {
    P.Bounded(cfg, steps);
  }

  function Recorder(v: int): M.Thread { M.Thread(v, M.Ready) }

  /** The recording threads of a run before any of them has moved. */
  ghost predicate AllRecording(cfg: P.Config, c: Counter, steps: seq<P.Step>, st: M.State)
    requires P.Exec(cfg, steps).Some?
  {
    st == M.State(0, Map(Recorder, Recorded(cfg, c, steps)))
  }

  /** In every run, however the recording threads interleave and however far they are, the recorded peak is a
      value the counter has shown, so it is at most its limit: the workers for the active requests, the slots
      and the workers for the outstanding ones. */
  lemma PeakWasShown(cfg: P.Config, c: Counter, steps: seq<P.Step>, st: M.State, moves: seq<nat>, end: M.State)
    returns (k: nat)
    requires P.Exec(cfg, steps).Some? && AllRecording(cfg, c, steps, st) && M.Run(st, moves, end)
    ensures k <= |steps| && P.Exec(cfg, steps[..k]).Some? && ShownAt(cfg, c, steps, k) == end.target
    ensures 0 <= end.target <= Limit(c, cfg)
  {
    M.RunKeepsInv(st, moves, end, 0);
    if end.target == 0 {
      k := 0;
      assert steps[..0] == [];
    } else {
      var i :| 0 <= i < |end.threads| && end.threads[i].value == end.target;
      assert st.threads[i].value == Recorded(cfg, c, steps)[i];
      k := RecordedIsShown(cfg, c, steps, i);
    }
    WithinLimit(cfg, c, steps[..k]);
  }

  /** Once all threads have returned it is the largest value the counter ever showed. */
  lemma PeakIsMaximum(cfg: P.Config, c: Counter, steps: seq<P.Step>, st: M.State, moves: seq<nat>, end: M.State, k: nat)
    requires P.Exec(cfg, steps).Some? && AllRecording(cfg, c, steps, st) && M.Run(st, moves, end)
    requires forall i :: 0 <= i < |end.threads| ==> end.threads[i].phase == M.Done
    requires k <= |steps|
    ensures P.Exec(cfg, steps[..k]).Some? && ShownAt(cfg, c, steps, k) <= end.target
  {
    PrefixRuns(cfg, steps, k);
    ShownIsCovered(cfg, c, steps[..k]);
    RecordedGrows(cfg, c, steps, k);
    M.FinalIsMaximum(st, moves, end);
    var all, early := Recorded(cfg, c, steps), Recorded(cfg, c, steps[..k]);
    if i :| 0 <= i < |early| && ShownAt(cfg, c, steps, k) <= early[i] {
      assert early[i] == all[i] == st.threads[i].value;
    }
  }
}
