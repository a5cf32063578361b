/** The order of the work channel: what the workers receive from one scheduler is its partition, from the front. */
module Fifo {
  import opened Common
  import P = Pool

  function FromSched(s: nat): P.Item -> bool { (x: P.Item) => x.sched == s }

  /** What a step hands to a worker: the head of the channel, or an item passed on directly. */
  ghost function Handed(cfg: P.Config, st: P.State, step: P.Step): seq<P.Item>
    requires P.Shaped(cfg, st) && P.Enabled(cfg, st, step)
  {
    if step.Receive? then [st.buf[0]] else if step.Handoff? then [st.sched[step.s].pc.item] else []
  }

  /** The items a run has handed to workers, in order. */
  ghost function Received(cfg: P.Config, steps: seq<P.Step>): seq<P.Item>
    requires P.Exec(cfg, steps).Some?
  {
    if steps == [] then []
    else
      var init := steps[..|steps| - 1];
      Received(cfg, init) + Handed(cfg, P.Exec(cfg, init).value, steps[|steps| - 1])
  }

  /** The item a scheduler has taken and not yet sent. */
  function Hand(s: P.Sched): seq<P.Item> { if s.pc.Slotted? || s.pc.Counted? then [s.pc.item] else [] }

  /** The first `n` items of a partition. */
  function Front(cfg: P.Config, s: nat, n: nat): seq<P.Item>
    requires s < |cfg.partitions| && n <= |cfg.partitions[s]|
  {
    seq(n, i requires 0 <= i < n => P.ItemAt(cfg, s, i))
  }

  lemma FrontNext(cfg: P.Config, s: nat, n: nat)
    requires s < |cfg.partitions| && n < |cfg.partitions[s]|
    ensures Front(cfg, s, n + 1) == Front(cfg, s, n) + [P.ItemAt(cfg, s, n)]
  {
  }

  /** What was received, what is in the channel and what is in hand make up what the scheduler has taken. */
  ghost predicate InOrder(cfg: P.Config, st: P.State, received: seq<P.Item>, s: nat)
    requires P.Shaped(cfg, st) && s < |st.sched|
  {
    Select(FromSched(s), received + st.buf) + Hand(st.sched[s]) == Front(cfg, s, st.sched[s].taken)
  }

  lemma AcquireInOrder(cfg: P.Config, st: P.State, t: nat, received: seq<P.Item>, s: nat)
    requires P.Shaped(cfg, st) && P.Enabled(cfg, st, P.Acquire(t)) && s < |st.sched| && InOrder(cfg, st, received, s)
    requires P.Shaped(cfg, P.Apply(cfg, st, P.Acquire(t)))
    ensures InOrder(cfg, P.Apply(cfg, st, P.Acquire(t)), received, s)
  {
    if s == t {
      FrontNext(cfg, s, st.sched[s].taken);
      assert Select(FromSched(s), received + st.buf) + [] == Select(FromSched(s), received + st.buf);
    }
  }

  /** An item leaves a scheduler's hand for the end of what is ahead of it. */
  lemma PassedOn(cfg: P.Config, st: P.State, t: nat, before: seq<P.Item>, after: seq<P.Item>, s: nat)
    requires P.Shaped(cfg, st) && t < |st.sched| && st.sched[t].pc.Counted? && s < |st.sched|
    requires after == before + [st.sched[t].pc.item]
    ensures Select(FromSched(s), after)
            == Select(FromSched(s), before) + (if s == t then Hand(st.sched[s]) else [])
  {
    SelectSnoc(FromSched(s), before, st.sched[t].pc.item);
  }

  lemma SendInOrder(cfg: P.Config, st: P.State, t: nat, received: seq<P.Item>, s: nat)
    requires P.Shaped(cfg, st) && P.Enabled(cfg, st, P.Send(t)) && s < |st.sched| && InOrder(cfg, st, received, s)
    requires P.Shaped(cfg, P.Apply(cfg, st, P.Send(t)))
    ensures InOrder(cfg, P.Apply(cfg, st, P.Send(t)), received, s)
  {
    var now := P.Apply(cfg, st, P.Send(t));
    Assoc(received, st.buf, [st.sched[t].pc.item]);
    PassedOn(cfg, st, t, received + st.buf, received + now.buf, s);
    Kept(cfg, st, now, t, Select(FromSched(s), received + st.buf), Select(FromSched(s), received + now.buf), s);
  }

  lemma HandoffInOrder(cfg: P.Config, st: P.State, t: nat, w: nat, received: seq<P.Item>, s: nat)
    requires P.Shaped(cfg, st) && P.Enabled(cfg, st, P.Handoff(t, w)) && s < |st.sched|
    requires InOrder(cfg, st, received, s) && P.Shaped(cfg, P.Apply(cfg, st, P.Handoff(t, w)))
    ensures InOrder(cfg, P.Apply(cfg, st, P.Handoff(t, w)), received + [st.sched[t].pc.item], s)
  {
    var now := P.Apply(cfg, st, P.Handoff(t, w));
    var more := received + [st.sched[t].pc.item];
    assert received + st.buf == received && more + now.buf == more;
    PassedOn(cfg, st, t, received, more, s);
    Kept(cfg, st, now, t, Select(FromSched(s), received), Select(FromSched(s), more), s);
  }

  /** What leaves the hand is gained ahead of it. */
  lemma Kept(cfg: P.Config, st: P.State, now: P.State, t: nat, ahead: seq<P.Item>, more: seq<P.Item>, s: nat)
    requires P.Shaped(cfg, st) && P.Shaped(cfg, now) && t < |st.sched| && s < |st.sched|
    requires now.sched == st.sched[t := st.sched[t].(pc := P.Waiting)]
    requires more == ahead + (if s == t then Hand(st.sched[s]) else [])
    ensures more + Hand(now.sched[s]) == ahead + Hand(st.sched[s])
  {
    if s == t { Assoc(ahead, Hand(st.sched[s]), []); }
  }

  lemma ReceiveInOrder(cfg: P.Config, st: P.State, w: nat, received: seq<P.Item>, s: nat)
    requires P.Shaped(cfg, st) && P.Enabled(cfg, st, P.Receive(w)) && s < |st.sched| && InOrder(cfg, st, received, s)
    requires P.Shaped(cfg, P.Apply(cfg, st, P.Receive(w)))
    ensures InOrder(cfg, P.Apply(cfg, st, P.Receive(w)), received + [st.buf[0]], s)
  {
    assert (received + [st.buf[0]]) + st.buf[1..] == received + st.buf;
  }

  predicate Moves(step: P.Step) { step.Acquire? || step.Send? || step.Handoff? || step.Receive? }

  /** All other steps leave the channel alone, and what a scheduler has in hand. */
  lemma NothingMoves(cfg: P.Config, st: P.State, step: P.Step, s: nat)
    requires P.Shaped(cfg, st) && P.Enabled(cfg, st, step) && s < |st.sched| && !Moves(step)
    ensures var now := P.Apply(cfg, st, step);
            && now.buf == st.buf && |now.sched| == |st.sched|
            && Hand(now.sched[s]) == Hand(st.sched[s]) && now.sched[s].taken == st.sched[s].taken
  {
  }

  lemma StepInOrder(cfg: P.Config, st: P.State, step: P.Step, received: seq<P.Item>, s: nat)
    requires P.Shaped(cfg, st) && P.Enabled(cfg, st, step) && s < |st.sched| && InOrder(cfg, st, received, s)
    requires P.Shaped(cfg, P.Apply(cfg, st, step))
    ensures InOrder(cfg, P.Apply(cfg, st, step), received + Handed(cfg, st, step), s)
  {
    assert received + [] == received;
    if step.Acquire? {
      AcquireInOrder(cfg, st, step.s, received, s);
    } else if step.Send? {
      SendInOrder(cfg, st, step.s, received, s);
    } else if step.Handoff? {
      HandoffInOrder(cfg, st, step.s, step.w, received, s);
    } else if step.Receive? {
      ReceiveInOrder(cfg, st, step.w, received, s);
    } else {
      NothingMoves(cfg, st, step, s);
    }
  }

  lemma {:induction false} RunInOrder(cfg: P.Config, steps: seq<P.Step>, s: nat)
    requires P.Exec(cfg, steps).Some? && s < |cfg.partitions|
    ensures P.Shaped(cfg, P.Exec(cfg, steps).value)
    ensures InOrder(cfg, P.Exec(cfg, steps).value, Received(cfg, steps), s)
  {
    P.RunInv(cfg, steps);
    if steps != [] {
      var init := steps[..|steps| - 1];
      P.RunInv(cfg, init);
      RunInOrder(cfg, init, s);
      StepInOrder(cfg, P.Exec(cfg, init).value, steps[|steps| - 1], Received(cfg, init), s);
    }
  }

  /** In every run and at any time, what the workers have received from a scheduler is the front of its partition,
      in order and without a gap. */
  lemma ReceivedInOrder(cfg: P.Config, steps: seq<P.Step>, s: nat)
    requires P.Exec(cfg, steps).Some? && s < |cfg.partitions|
    ensures var got := Select(FromSched(s), Received(cfg, steps));
            && |got| <= |cfg.partitions[s]|
            && forall i :: 0 <= i < |got| ==> got[i] == P.ItemAt(cfg, s, i)
  {
    RunInOrder(cfg, steps, s);
    var st, received := P.Exec(cfg, steps).value, Received(cfg, steps);
    SelectAppend(FromSched(s), received, st.buf);
    var got, front := Select(FromSched(s), received), Front(cfg, s, st.sched[s].taken);
    assert got + Select(FromSched(s), st.buf) + Hand(st.sched[s]) == front;
    forall i | 0 <= i < |got| ensures got[i] == P.ItemAt(cfg, s, i) {
      assert got[i] == front[i];
    }
  }

  /** A finished run that was not cancelled has handed out each partition from its front to its end. */
  lemma AllReceivedInOrder(cfg: P.Config, steps: seq<P.Step>, s: nat)
    requires P.Sane(cfg) && P.Exec(cfg, steps).Some? && P.Final(P.Exec(cfg, steps).value)
    requires !P.Exec(cfg, steps).value.cancelled && s < |cfg.partitions|
    ensures Select(FromSched(s), Received(cfg, steps)) == Front(cfg, s, |cfg.partitions[s]|)
  {
    P.RunInv(cfg, steps);
    RunInOrder(cfg, steps, s);
    var st := P.Exec(cfg, steps).value;
    P.NothingRuns(cfg, st);
    assert Received(cfg, steps) + st.buf == Received(cfg, steps);
    assert st.sched[s].pc.Finished?;
  }
}
