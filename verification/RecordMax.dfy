/** The lock-free maximum behind the observed-peak metrics: threads that load, compare and swap, retrying
    when another thread was faster, in any interleaving. */
module RecordMax {
  import opened Common

  datatype Phase = Ready | Loaded(current: int) | Done

  datatype Thread = Thread(value: int, phase: Phase)

  datatype State = State(target: int, threads: seq<Thread>)

  ghost predicate Initial(st: State) {
    forall i :: 0 <= i < |st.threads| ==> st.threads[i].phase == Ready
  }

  predicate Enabled(st: State, i: nat) {
    i < |st.threads| && st.threads[i].phase != Done
  }

  /** One atomic step of thread `i`: the load, or the comparison with the swap that follows it. */
  function Step(st: State, i: nat): State
    requires Enabled(st, i)
  {
    var t := st.threads[i];
    if t.phase == Ready then At(st, i, Loaded(st.target))
    else if t.value <= t.phase.current then At(st, i, Done)
    else if st.target == t.phase.current then At(st, i, Done).(target := t.value)
    else At(st, i, Ready)
  }

  function At(st: State, i: nat, p: Phase): State
    requires i < |st.threads|
  {
    st.(threads := st.threads[i := st.threads[i].(phase := p)])
  }

  ghost predicate Run(st: State, steps: seq<nat>, end: State)
    decreases |steps|
  {
    if steps == [] then end == st
    else Enabled(st, steps[0]) && Run(Step(st, steps[0]), steps[1..], end)
  }

  /** The target is the first value or one recorded, and covers every finished thread. */
  ghost predicate Inv(st: State, first: int) {
    && (st.target == first || exists i :: 0 <= i < |st.threads| && st.threads[i].value == st.target)
    && first <= st.target
    && (forall i :: 0 <= i < |st.threads| && st.threads[i].phase == Done ==> st.threads[i].value <= st.target)
    && (forall i :: 0 <= i < |st.threads| && st.threads[i].phase.Loaded? ==> st.threads[i].phase.current <= st.target)
  }

  lemma StepKeepsInv(st: State, first: int, i: nat)
    requires Inv(st, first) && Enabled(st, i)
    ensures Inv(Step(st, i), first) && st.target <= Step(st, i).target
    ensures |Step(st, i).threads| == |st.threads|
    ensures forall j :: 0 <= j < |st.threads| ==> Step(st, i).threads[j].value == st.threads[j].value
  {
    var end := Step(st, i);
    assert end.threads[i].value == st.threads[i].value;
    if st.target != first && end.target == st.target {
      var j :| 0 <= j < |st.threads| && st.threads[j].value == st.target;
      assert end.threads[j].value == st.target;
    }
  }

  lemma {:induction false} RunKeepsInv(st: State, steps: seq<nat>, end: State, first: int)
    requires Inv(st, first) && Run(st, steps, end)
    ensures Inv(end, first) && st.target <= end.target && |end.threads| == |st.threads|
    ensures forall j :: 0 <= j < |st.threads| ==> end.threads[j].value == st.threads[j].value
    decreases |steps|
  {
    if steps != [] {
      StepKeepsInv(st, first, steps[0]);
      RunKeepsInv(Step(st, steps[0]), steps[1..], end, first);
    }
  }

  /** However the threads interleave, once all have returned the target is the maximum of its first
      value and all the values recorded. */
  lemma FinalIsMaximum(st: State, steps: seq<nat>, end: State)
    requires Initial(st) && Run(st, steps, end)
    requires forall i :: 0 <= i < |end.threads| ==> end.threads[i].phase == Done
    ensures st.target <= end.target && forall i :: 0 <= i < |st.threads| ==> st.threads[i].value <= end.target
    ensures end.target == st.target || exists i :: 0 <= i < |st.threads| && st.threads[i].value == end.target
  {
    RunKeepsInv(st, steps, end, st.target);
    if end.target != st.target {
      var i :| 0 <= i < |end.threads| && end.threads[i].value == end.target;
      assert st.threads[i].value == end.target;
    }
    forall i | 0 <= i < |st.threads| ensures st.threads[i].value <= end.target {
      assert end.threads[i].value == st.threads[i].value;
    }
  }

  // ---------------------------------------------------------------- no endless retrying

  function Weight(target: int): Thread -> int {
    (t: Thread) => match t.phase
         case Ready => 2
         case Loaded(c) => if c == target then 1 else 3
         case Done => 0
  }

  function Live(t: Thread): int { if t.phase == Done then 0 else 1 }

  function Potential(st: State): int {
    Sum(Weight(st.target), st.threads) + 2 * |st.threads| * Sum(Live, st.threads)
  }

  lemma {:induction false} NewTarget(threads: seq<Thread>, was: int, now: int)
    ensures 0 <= Sum(Weight(now), threads) <= Sum(Weight(was), threads) + 2 * |threads|
    ensures 0 <= Sum(Live, threads) <= |threads| && Sum(Weight(now), threads) <= 3 * |threads|
  {
    if threads != [] { NewTarget(threads[1..], was, now); }
  }

  lemma StepSpendsPotential(st: State, first: int, i: nat)
    requires Inv(st, first) && Enabled(st, i)
    ensures Potential(Step(st, i)) < Potential(st)
  {
    var t, end, n := st.threads[i], Step(st, i), |st.threads|;
    var t' := end.threads[i];
    assert end.threads == st.threads[i := t'];
    SumUpdate(Weight(st.target), st.threads, i, t');
    SumUpdate(Live, st.threads, i, t');
    NewTarget(end.threads, st.target, end.target);
    if t'.phase == Done {
      MulPrevious(2 * n, Sum(Live, st.threads));
    }
  }

  lemma MulPrevious(c: int, a: int)
    ensures c * (a - 1) == c * a - c
  {
  }

  lemma {:induction false} RunSpends(st: State, steps: seq<nat>, end: State, first: int)
    requires Inv(st, first) && Run(st, steps, end)
    ensures Potential(end) + |steps| <= Potential(st)
    decreases |steps|
  {
    if steps != [] {
      StepKeepsInv(st, first, steps[0]);
      StepSpendsPotential(st, first, steps[0]);
      RunSpends(Step(st, steps[0]), steps[1..], end, first);
    }
  }

  /** n threads finish within 3n + 2n^2 steps together, whatever the scheduling: retries are bounded. */
  lemma RunsAreShort(st: State, steps: seq<nat>, end: State)
    requires Initial(st) && Run(st, steps, end)
    ensures |steps| <= 3 * |st.threads| + 2 * |st.threads| * |st.threads|
  {
    var n := |st.threads|;
    RunSpends(st, steps, end, st.target);
    RunKeepsInv(st, steps, end, st.target);
    NewTarget(st.threads, st.target, st.target);
    NewTarget(end.threads, end.target, end.target);
    MulBounds(2 * n, Sum(Live, st.threads), n);
    MulBounds(2 * n, 0, Sum(Live, end.threads));
  }

  lemma MulBounds(c: int, a: int, b: int)
    requires c >= 0 && a <= b
    ensures c * a <= c * b
  {
  }
}
