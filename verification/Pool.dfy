/** The request dispatcher as an interleaving of schedulers, a slot semaphore, a work channel and a
    pool of workers that write into preallocated result cells. */
module Pool {
  import opened Common

  type Request = nat

  /** One unit of work: a request and the cell its result belongs to. */
  datatype Item = Item(sched: nat, cell: nat, req: Request)

  datatype SchedPc = Waiting | Slotted(item: Item) | Counted(item: Item) | Finished

  /** `taken` requests of the partition have acquired a slot so far. */
  datatype Sched = Sched(id: nat, taken: nat, pc: SchedPc)

  datatype Worker =
    | Idle | Got(item: Item) | Running(item: Item) | Ran(item: Item) | Wrote(item: Item) | Released | Exited

  datatype Config = Config(partitions: seq<seq<Request>>, workers: nat, channel: nat, slots: nat)

  ghost predicate Sane(cfg: Config) {
    cfg.workers >= 1 && cfg.slots >= 1
  }

  datatype State = State(
    sched: seq<Sched>, buf: seq<Item>, workers: seq<Worker>,
    slots: int, outstanding: int, active: int,
    closed: bool, cancelled: bool,
    results: map<(nat, nat), Request>, log: seq<Item>)

  function ItemAt(cfg: Config, s: nat, i: nat): Item
    requires s < |cfg.partitions| && i < |cfg.partitions[s]|
  {
    Item(s, i, cfg.partitions[s][i])
  }

  function Init(cfg: Config): State {
    State(seq(|cfg.partitions|, (s: nat) => Sched(s, 0, Waiting)), [], seq(cfg.workers, w => Idle),
          0, 0, 0, false, false, map[], [])
  }

  /** The atomic steps of the goroutines; `Cancel` is the interrupt signal. */
  datatype Step =
    | Acquire(s: nat) | Count(s: nat) | Send(s: nat) | Handoff(s: nat, w: nat) | Finish(s: nat) | Abandon(s: nat)
    | Receive(w: nat) | Begin(w: nat) | End(w: nat) | Write(w: nat) | Release(w: nat) | Uncount(w: nat) | Exit(w: nat)
    | Close | Cancel

  /** Indices in range, and each scheduler within its own partition. */
  ghost predicate Shaped(cfg: Config, st: State) {
    && |st.sched| == |cfg.partitions| && |st.workers| == cfg.workers
    && forall s :: 0 <= s < |st.sched| ==>
         && st.sched[s].id == s && st.sched[s].taken <= |cfg.partitions[s]|
         && (st.sched[s].pc.Slotted? || st.sched[s].pc.Counted? ==>
               && st.sched[s].taken > 0
               && st.sched[s].pc.item == ItemAt(cfg, s, st.sched[s].taken - 1))
  }

  ghost predicate AllFinished(st: State) {
    forall s :: 0 <= s < |st.sched| ==> st.sched[s].pc.Finished?
  }

  ghost predicate Enabled(cfg: Config, st: State, step: Step)
    requires Shaped(cfg, st)
  {
    match step
    case Acquire(s) => s < |st.sched| && st.sched[s].pc.Waiting?
                       && st.sched[s].taken < |cfg.partitions[s]| && st.slots < cfg.slots
    case Count(s) => s < |st.sched| && st.sched[s].pc.Slotted?
    case Send(s) => s < |st.sched| && st.sched[s].pc.Counted? && |st.buf| < cfg.channel
    case Handoff(s, w) => s < |st.sched| && st.sched[s].pc.Counted? && st.buf == []
                          && w < |st.workers| && st.workers[w].Idle?
    case Finish(s) => s < |st.sched| && st.sched[s].pc.Waiting? && st.sched[s].taken == |cfg.partitions[s]|
    case Abandon(s) => s < |st.sched| && st.sched[s].pc.Waiting? && st.cancelled
    case Receive(w) => w < |st.workers| && st.workers[w].Idle? && st.buf != []
    case Begin(w) => w < |st.workers| && st.workers[w].Got?
    case End(w) => w < |st.workers| && st.workers[w].Running?
    case Write(w) => w < |st.workers| && st.workers[w].Ran?
    case Release(w) => w < |st.workers| && st.workers[w].Wrote?
    case Uncount(w) => w < |st.workers| && st.workers[w].Released?
    case Exit(w) => w < |st.workers| && st.workers[w].Idle? && st.closed && st.buf == []
    case Close => AllFinished(st) && !st.closed
    case Cancel => !st.cancelled
  }

  ghost function Apply(cfg: Config, st: State, step: Step): State
    requires Shaped(cfg, st) && Enabled(cfg, st, step)
  {
    match step
    case Acquire(s) =>
      var me := st.sched[s];
      st.(sched := st.sched[s := Sched(s, me.taken + 1, Slotted(ItemAt(cfg, s, me.taken)))], slots := st.slots + 1)
    case Count(s) =>
      st.(sched := st.sched[s := st.sched[s].(pc := Counted(st.sched[s].pc.item))], outstanding := st.outstanding + 1)
    case Send(s) =>
      st.(sched := st.sched[s := st.sched[s].(pc := Waiting)], buf := st.buf + [st.sched[s].pc.item])
    case Handoff(s, w) =>
      st.(sched := st.sched[s := st.sched[s].(pc := Waiting)], workers := st.workers[w := Got(st.sched[s].pc.item)])
    case Finish(s) => st.(sched := st.sched[s := st.sched[s].(pc := Finished)])
    case Abandon(s) => st.(sched := st.sched[s := st.sched[s].(pc := Finished)])
    case Receive(w) => st.(workers := st.workers[w := Got(st.buf[0])], buf := st.buf[1..])
    case Begin(w) => st.(workers := st.workers[w := Running(st.workers[w].item)], active := st.active + 1)
    case End(w) => st.(workers := st.workers[w := Ran(st.workers[w].item)], active := st.active - 1)
    case Write(w) =>
      var x := st.workers[w].item;
      st.(workers := st.workers[w := Wrote(x)], results := st.results[(x.sched, x.cell) := x.req], log := st.log + [x])
    case Release(w) => st.(workers := st.workers[w := Released], slots := st.slots - 1)
    case Uncount(w) => st.(workers := st.workers[w := Idle], outstanding := st.outstanding - 1)
    case Exit(w) => st.(workers := st.workers[w := Exited])
    case Close => st.(closed := true)
    case Cancel => st.(cancelled := true)
  }

  ghost predicate Final(st: State) {
    st.closed && forall w :: 0 <= w < |st.workers| ==> st.workers[w].Exited?
  }

  // ---------------------------------------------------------------- counters

  function InHand(s: Sched): int { if s.pc.Slotted? || s.pc.Counted? then 1 else 0 }
  function IsCounted(s: Sched): int { if s.pc.Counted? then 1 else 0 }
  function HoldsSlot(w: Worker): int { if w.Got? || w.Running? || w.Ran? || w.Wrote? then 1 else 0 }
  function IsOutstanding(w: Worker): int { if w.Released? then 1 else HoldsSlot(w) }
  function IsRunning(w: Worker): int { if w.Running? then 1 else 0 }

  /** The three counters say exactly where the requests are. */
  ghost predicate Counters(cfg: Config, st: State) {
    && st.slots == Sum(InHand, st.sched) + |st.buf| + Sum(HoldsSlot, st.workers)
    && st.outstanding == Sum(IsCounted, st.sched) + |st.buf| + Sum(IsOutstanding, st.workers)
    && st.active == Sum(IsRunning, st.workers)
    && 0 <= st.slots <= cfg.slots && |st.buf| <= cfg.channel
  }

  // ---------------------------------------------------------------- conservation of requests

  function Is(x: Item): Item -> int { (y: Item) => if y == x then 1 else 0 }

  function HandOf(x: Item): Sched -> int {
    (s: Sched) => if (s.pc.Slotted? || s.pc.Counted?) && s.pc.item == x then 1 else 0
  }

  function HeldOf(x: Item): Worker -> int {
    (w: Worker) => if (w.Got? || w.Running? || w.Ran?) && w.item == x then 1 else 0
  }

  /** How many places hold `x`: schedulers' hands, the channel, workers, writes already made. */
  function Places(st: State, x: Item): int {
    Sum(HandOf(x), st.sched) + Sum(Is(x), st.buf) + Sum(HeldOf(x), st.workers) + Sum(Is(x), st.log)
  }

  /** `x` is a request its scheduler has taken from its partition. */
  ghost predicate Taken(cfg: Config, st: State, x: Item)
    requires Shaped(cfg, st)
  {
    x.sched < |st.sched| && x.cell < st.sched[x.sched].taken && x == ItemAt(cfg, x.sched, x.cell)
  }

  /** Every request taken is in exactly one place, and nothing else is anywhere. */
  ghost predicate Conserved(cfg: Config, st: State)
    requires Shaped(cfg, st)
  {
    forall x :: Places(st, x) == if Taken(cfg, st, x) then 1 else 0
  }

  /** The result cells after a sequence of writes. */
  function Cells(log: seq<Item>): map<(nat, nat), Request> {
    if log == [] then map[]
    else
      var x := log[|log| - 1];
      Cells(log[..|log| - 1])[(x.sched, x.cell) := x.req]
  }

  ghost predicate Lifecycle(cfg: Config, st: State)
    requires Shaped(cfg, st)
  {
    && (st.closed ==> AllFinished(st))
    && (!st.cancelled ==> forall s :: 0 <= s < |st.sched| && st.sched[s].pc.Finished? ==>
                            st.sched[s].taken == |cfg.partitions[s]|)
    && (forall w :: 0 <= w < |st.workers| && st.workers[w].Exited? ==> st.closed && st.buf == [])
    && st.results == Cells(st.log)
  }

  ghost predicate Inv(cfg: Config, st: State) {
    Base(cfg, st) && Conserved(cfg, st)
  }

  // ---------------------------------------------------------------- every step keeps the invariant

  ghost predicate Base(cfg: Config, st: State) {
    Shaped(cfg, st) && Counters(cfg, st) && Lifecycle(cfg, st)
  }

  /** A change of one scheduler that accounts for its slot and its count. */
  lemma SchedulerChange(cfg: Config, st: State, s: nat, me: Sched, now: State)
    requires Base(cfg, st) && s < |st.sched| && !st.sched[s].pc.Finished?
    requires now == st.(sched := st.sched[s := me], slots := now.slots, outstanding := now.outstanding)
    requires me.id == s && me.taken <= |cfg.partitions[s]|
    requires me.pc.Slotted? || me.pc.Counted? ==> me.taken > 0 && me.pc.item == ItemAt(cfg, s, me.taken - 1)
    requires me.pc.Finished? ==> st.cancelled || me.taken == |cfg.partitions[s]|
    requires now.slots - st.slots == InHand(me) - InHand(st.sched[s]) && now.slots <= cfg.slots
    requires now.outstanding - st.outstanding == IsCounted(me) - IsCounted(st.sched[s])
    ensures Base(cfg, now)
  {
    SchedulerCounts(cfg, st, s, me, now);
    assert !st.closed;
  }

  lemma SchedulerCounts(cfg: Config, st: State, s: nat, me: Sched, now: State)
    requires Counters(cfg, st) && s < |st.sched|
    requires now == st.(sched := st.sched[s := me], slots := now.slots, outstanding := now.outstanding)
    requires now.slots - st.slots == InHand(me) - InHand(st.sched[s]) && now.slots <= cfg.slots
    requires now.outstanding - st.outstanding == IsCounted(me) - IsCounted(st.sched[s])
    ensures Counters(cfg, now)
  {
    SumUpdate(InHand, st.sched, s, me);
    SumUpdate(IsCounted, st.sched, s, me);
    AtLeastZero(InHand, now.sched);
    AtLeastZero(HoldsSlot, now.workers);
  }

  /** A change of one worker that accounts for its slot, its count and its activity. */
  lemma WorkerChange(cfg: Config, st: State, w: nat, me: Worker, now: State)
    requires Base(cfg, st) && w < |st.workers| && !st.workers[w].Exited?
    requires now == st.(workers := st.workers[w := me], slots := now.slots, outstanding := now.outstanding,
                        active := now.active, results := now.results, log := now.log)
    requires me.Exited? ==> st.closed && st.buf == []
    requires now.results == Cells(now.log)
    requires now.slots - st.slots == HoldsSlot(me) - HoldsSlot(st.workers[w]) <= 0
    requires now.outstanding - st.outstanding == IsOutstanding(me) - IsOutstanding(st.workers[w])
    requires now.active - st.active == IsRunning(me) - IsRunning(st.workers[w])
    ensures Base(cfg, now)
  {
    SumUpdate(HoldsSlot, st.workers, w, me);
    SumUpdate(IsOutstanding, st.workers, w, me);
    SumUpdate(IsRunning, st.workers, w, me);
    AtLeastZero(InHand, now.sched);
    AtLeastZero(HoldsSlot, now.workers);
  }

  lemma {:induction false} AtLeastZero<T>(f: T -> int, s: seq<T>)
    requires forall i :: 0 <= i < |s| ==> f(s[i]) >= 0
    ensures Sum(f, s) >= 0
  {
    if s != [] { AtLeastZero(f, s[1..]); }
  }

  predicate OfScheduler(step: Step) { step.Acquire? || step.Count? || step.Finish? || step.Abandon? }

  predicate OfWorker(step: Step) {
    step.Begin? || step.End? || step.Write? || step.Release? || step.Uncount? || step.Exit?
  }

  lemma SchedulerSteps(cfg: Config, st: State, step: Step)
    requires Base(cfg, st) && Enabled(cfg, st, step)
    requires OfScheduler(step)
    ensures Base(cfg, Apply(cfg, st, step))
  {
    var now := Apply(cfg, st, step);
    SchedulerChange(cfg, st, step.s, now.sched[step.s], now);
  }

  lemma WorkerSteps(cfg: Config, st: State, step: Step)
    requires Base(cfg, st) && Enabled(cfg, st, step)
    requires OfWorker(step)
    ensures Base(cfg, Apply(cfg, st, step))
  {
    var now := Apply(cfg, st, step);
    if step.Write? {
      WriteStep(cfg, st, step.w);
    } else {
      WorkerChange(cfg, st, step.w, now.workers[step.w], now);
    }
  }

  lemma WriteStep(cfg: Config, st: State, w: nat)
    requires Base(cfg, st) && Enabled(cfg, st, Write(w))
    ensures Base(cfg, Apply(cfg, st, Write(w)))
  {
    var now := Apply(cfg, st, Write(w));
    WriteFillsCell(st.log, st.workers[w].item);
    WorkerChange(cfg, st, w, now.workers[w], now);
  }

  lemma WriteFillsCell(log: seq<Item>, x: Item)
    ensures Cells(log + [x]) == Cells(log)[(x.sched, x.cell) := x.req]
  {
    assert (log + [x])[..|log|] == log;
  }

  /** Passing an item on moves its slot and its count along with it. */
  lemma SendKeepsBase(cfg: Config, st: State, s: nat)
    requires Base(cfg, st) && Enabled(cfg, st, Send(s))
    ensures Base(cfg, Apply(cfg, st, Send(s)))
  {
    var now := Apply(cfg, st, Send(s));
    SumUpdate(InHand, st.sched, s, now.sched[s]);
    SumUpdate(IsCounted, st.sched, s, now.sched[s]);
    assert !st.closed;
  }

  lemma HandoffKeepsBase(cfg: Config, st: State, s: nat, w: nat)
    requires Base(cfg, st) && Enabled(cfg, st, Handoff(s, w))
    ensures Base(cfg, Apply(cfg, st, Handoff(s, w)))
  {
    var now := Apply(cfg, st, Handoff(s, w));
    SumUpdate(InHand, st.sched, s, now.sched[s]);
    SumUpdate(IsCounted, st.sched, s, now.sched[s]);
    SumUpdate(HoldsSlot, st.workers, w, now.workers[w]);
    SumUpdate(IsOutstanding, st.workers, w, now.workers[w]);
    SumUpdate(IsRunning, st.workers, w, now.workers[w]);
  }

  lemma ReceiveKeepsBase(cfg: Config, st: State, w: nat)
    requires Base(cfg, st) && Enabled(cfg, st, Receive(w))
    ensures Base(cfg, Apply(cfg, st, Receive(w)))
  {
    var now := Apply(cfg, st, Receive(w));
    SumUpdate(HoldsSlot, st.workers, w, now.workers[w]);
    SumUpdate(IsOutstanding, st.workers, w, now.workers[w]);
    SumUpdate(IsRunning, st.workers, w, now.workers[w]);
  }

  lemma StepKeepsBase(cfg: Config, st: State, step: Step)
    requires Base(cfg, st) && Enabled(cfg, st, step)
    ensures Base(cfg, Apply(cfg, st, step))
  {
    match step
    case Send(s) => SendKeepsBase(cfg, st, s);
    case Handoff(s, w) => HandoffKeepsBase(cfg, st, s, w);
    case Receive(w) => ReceiveKeepsBase(cfg, st, w);
    case Close =>
    case Cancel =>
    case Acquire(_) => SchedulerSteps(cfg, st, step);
    case Count(_) => SchedulerSteps(cfg, st, step);
    case Finish(_) => SchedulerSteps(cfg, st, step);
    case Abandon(_) => SchedulerSteps(cfg, st, step);
    case _ => WorkerSteps(cfg, st, step);
  }

  /** What a step adds to the places of `x`. */
  ghost function Added(cfg: Config, st: State, step: Step, x: Item): int
    requires Shaped(cfg, st) && Enabled(cfg, st, step)
  {
    if step.Acquire? && x == ItemAt(cfg, step.s, st.sched[step.s].taken) then 1 else 0
  }

  lemma SchedulerMoves(cfg: Config, st: State, step: Step, x: Item)
    requires Shaped(cfg, st) && Enabled(cfg, st, step) && OfScheduler(step)
    ensures Places(Apply(cfg, st, step), x) - Places(st, x) == Added(cfg, st, step, x)
  {
    SumUpdate(HandOf(x), st.sched, step.s, Apply(cfg, st, step).sched[step.s]);
  }

  lemma WorkerMoves(cfg: Config, st: State, step: Step, x: Item)
    requires Shaped(cfg, st) && Enabled(cfg, st, step) && OfWorker(step)
    ensures Places(Apply(cfg, st, step), x) == Places(st, x)
  {
    if step.Write? {
      WriteMoves(cfg, st, step.w, x);
    } else {
      SumUpdate(HeldOf(x), st.workers, step.w, Apply(cfg, st, step).workers[step.w]);
    }
  }

  lemma WriteMoves(cfg: Config, st: State, w: nat, x: Item)
    requires Shaped(cfg, st) && Enabled(cfg, st, Write(w))
    ensures Places(Apply(cfg, st, Write(w)), x) == Places(st, x)
  {
    SumUpdate(HeldOf(x), st.workers, w, Apply(cfg, st, Write(w)).workers[w]);
    SumAppend(Is(x), st.log, [st.workers[w].item]);
  }

  lemma ChannelMoves(cfg: Config, st: State, step: Step, x: Item)
    requires Shaped(cfg, st) && Enabled(cfg, st, step) && (step.Send? || step.Handoff? || step.Receive?)
    ensures Places(Apply(cfg, st, step), x) == Places(st, x)
  {
    match step
    case Send(s) => SendMoves(cfg, st, s, x);
    case Handoff(s, w) => HandoffMoves(cfg, st, s, w, x);
    case Receive(w) => SumUpdate(HeldOf(x), st.workers, w, Apply(cfg, st, step).workers[w]);
  }

  lemma SendMoves(cfg: Config, st: State, s: nat, x: Item)
    requires Shaped(cfg, st) && Enabled(cfg, st, Send(s))
    ensures Places(Apply(cfg, st, Send(s)), x) == Places(st, x)
  {
    SumUpdate(HandOf(x), st.sched, s, Apply(cfg, st, Send(s)).sched[s]);
    SumAppend(Is(x), st.buf, [st.sched[s].pc.item]);
  }

  lemma HandoffMoves(cfg: Config, st: State, s: nat, w: nat, x: Item)
    requires Shaped(cfg, st) && Enabled(cfg, st, Handoff(s, w))
    ensures Places(Apply(cfg, st, Handoff(s, w)), x) == Places(st, x)
  {
    var now := Apply(cfg, st, Handoff(s, w));
    SumUpdate(HandOf(x), st.sched, s, now.sched[s]);
    SumUpdate(HeldOf(x), st.workers, w, now.workers[w]);
  }

  /** A step moves an item from one place to another; only `Acquire` takes a new one. */
  lemma StepMoves(cfg: Config, st: State, step: Step, x: Item)
    requires Shaped(cfg, st) && Enabled(cfg, st, step)
    ensures Places(Apply(cfg, st, step), x) - Places(st, x) == Added(cfg, st, step, x)
  {
    if OfScheduler(step) {
      SchedulerMoves(cfg, st, step, x);
    } else if OfWorker(step) {
      WorkerMoves(cfg, st, step, x);
    } else if !step.Close? && !step.Cancel? {
      ChannelMoves(cfg, st, step, x);
    }
  }

  lemma StepKeepsInv(cfg: Config, st: State, step: Step)
    requires Inv(cfg, st) && Enabled(cfg, st, step)
    ensures Inv(cfg, Apply(cfg, st, step))
  {
    StepKeepsBase(cfg, st, step);
    var now := Apply(cfg, st, step);
    forall x ensures Places(now, x) == if Taken(cfg, now, x) then 1 else 0 {
      StepMoves(cfg, st, step, x);
      assert Places(st, x) == if Taken(cfg, st, x) then 1 else 0;
    }
  }

  lemma InitInv(cfg: Config)
    ensures Inv(cfg, Init(cfg))
  {
    var st := Init(cfg);
    assert Shaped(cfg, st);
    AllZero(InHand, st.sched);
    AllZero(IsCounted, st.sched);
    AllZero(HoldsSlot, st.workers);
    AllZero(IsOutstanding, st.workers);
    AllZero(IsRunning, st.workers);
    forall x ensures Places(st, x) == 0 {
      AllZero(HandOf(x), st.sched);
      AllZero(HeldOf(x), st.workers);
    }
  }

  lemma {:induction false} AllZero<T>(f: T -> int, s: seq<T>)
    requires forall i :: 0 <= i < |s| ==> f(s[i]) == 0
    ensures Sum(f, s) == 0
  {
    if s != [] { AllZero(f, s[1..]); }
  }

  // ---------------------------------------------------------------- whole runs

  /** The state after a sequence of steps, or `None` when some step was not enabled. */
  ghost function Exec(cfg: Config, steps: seq<Step>): Option<State> {
    if steps == [] then Some(Init(cfg))
    else
      match Exec(cfg, steps[..|steps| - 1])
      case None => None
      case Some(st) =>
        if Shaped(cfg, st) && Enabled(cfg, st, steps[|steps| - 1])
        then Some(Apply(cfg, st, steps[|steps| - 1])) else None
  }

  lemma {:induction false} RunInv(cfg: Config, steps: seq<Step>)
    requires Exec(cfg, steps).Some?
    ensures Inv(cfg, Exec(cfg, steps).value)
  {
    if steps == [] {
      InitInv(cfg);
    } else {
      RunInv(cfg, steps[..|steps| - 1]);
      StepKeepsInv(cfg, Exec(cfg, steps[..|steps| - 1]).value, steps[|steps| - 1]);
    }
  }

  /** In every interleaving: slots, channel and concurrency stay within their capacities, the
      outstanding counter strays from the held slots by at most the workers above and the schedulers
      below, and whoever is about to send finds the channel open. */
  lemma Bounded(cfg: Config, steps: seq<Step>)
    requires Exec(cfg, steps).Some?
    ensures var st := Exec(cfg, steps).value;
            && 0 <= st.slots <= cfg.slots
            && 0 <= st.active <= cfg.workers
            && |st.buf| <= cfg.channel
            && st.slots - |cfg.partitions| <= st.outstanding <= st.slots + cfg.workers
            && forall s :: 0 <= s < |st.sched| && InHand(st.sched[s]) == 1 ==> !st.closed
  {
    RunInv(cfg, steps);
    var st := Exec(cfg, steps).value;
    SumGap(IsRunning, IsRunning, st.workers, 0);
    SumGap(HoldsSlot, IsOutstanding, st.workers, 1);
    SumGap(IsCounted, InHand, st.sched, 1);
    AtLeastZero(IsRunning, st.workers);
    SumGap(NoOne, IsRunning, st.workers, 1);
    AllZero(NoOne, st.workers);
  }

  function NoOne(w: Worker): int { 0 }

  lemma {:induction false} SumGap<T>(f: T -> int, g: T -> int, s: seq<T>, d: nat)
    requires forall i :: 0 <= i < |s| ==> f(s[i]) <= g(s[i]) <= f(s[i]) + d
    ensures Sum(f, s) <= Sum(g, s) <= Sum(f, s) + d * |s|
  {
    if s != [] {
      SumGap(f, g, s[1..], d);
      assert d * |s| == d * |s[1..]| + d;
    }
  }

  /** No reachable state short of the end is stuck, even if no signal ever arrives. */
  lemma Progress(cfg: Config, steps: seq<Step>) returns (step: Step)
    requires Sane(cfg) && Exec(cfg, steps).Some? && !Final(Exec(cfg, steps).value)
    ensures step != Cancel && Exec(cfg, steps + [step]).Some?
  {
    RunInv(cfg, steps);
    var st := Exec(cfg, steps).value;
    step := NextStep(cfg, st);
    assert (steps + [step])[..|steps|] == steps;
  }

  lemma NextStep(cfg: Config, st: State) returns (step: Step)
    requires Sane(cfg) && Base(cfg, st) && !Final(st)
    ensures step != Cancel && Enabled(cfg, st, step)
  {
    assert st.workers[0].Exited? ==> st.closed;
    if w :| 0 <= w < |st.workers| && !st.workers[w].Idle? && !st.workers[w].Exited? {
      step := if st.workers[w].Got? then Begin(w)
              else if st.workers[w].Running? then End(w)
              else if st.workers[w].Ran? then Write(w)
              else if st.workers[w].Wrote? then Release(w)
              else Uncount(w);
    } else if w :| 0 <= w < |st.workers| && st.workers[w].Idle? {
      if st.buf != [] {
        step := Receive(w);
      } else if s :| 0 <= s < |st.sched| && st.sched[s].pc.Slotted? {
        step := Count(s);
      } else if s :| 0 <= s < |st.sched| && st.sched[s].pc.Counted? {
        step := Handoff(s, w);
      } else if s :| 0 <= s < |st.sched| && st.sched[s].pc.Waiting? {
        AllZero(InHand, st.sched);
        AllZero(HoldsSlot, st.workers);
        step := if st.sched[s].taken < |cfg.partitions[s]| then Acquire(s) else Finish(s);
      } else {
        step := if st.closed then Exit(w) else Close;
      }
    } else {
      assert false;
    }
  }

  // ---------------------------------------------------------------- every run ends

  function SchedWork(cfg: Config): Sched -> int {
    (s: Sched) =>
      if s.pc.Finished? || s.id >= |cfg.partitions| then 0
      else 1 + 9 * (|cfg.partitions[s.id]| - s.taken)
           + (if s.pc.Slotted? then 8 else if s.pc.Counted? then 7 else 0)
  }

  function WorkerWork(w: Worker): int {
    match w
    case Exited => 0 case Idle => 1 case Released => 2 case Wrote(_) => 3
    case Ran(_) => 4 case Running(_) => 5 case Got(_) => 6
  }

  /** Steps still to come. */
  function Potential(cfg: Config, st: State): int {
    Sum(SchedWork(cfg), st.sched) + 6 * |st.buf| + Sum(WorkerWork, st.workers)
    + (if st.closed then 0 else 1) + (if st.cancelled then 0 else 1)
  }

  lemma SchedulerSpends(cfg: Config, st: State, step: Step)
    requires Shaped(cfg, st) && Enabled(cfg, st, step) && OfScheduler(step)
    ensures Potential(cfg, Apply(cfg, st, step)) < Potential(cfg, st)
  {
    SumUpdate(SchedWork(cfg), st.sched, step.s, Apply(cfg, st, step).sched[step.s]);
  }

  lemma WorkerSpends(cfg: Config, st: State, step: Step)
    requires Shaped(cfg, st) && Enabled(cfg, st, step) && OfWorker(step)
    ensures Potential(cfg, Apply(cfg, st, step)) < Potential(cfg, st)
  {
    SumUpdate(WorkerWork, st.workers, step.w, Apply(cfg, st, step).workers[step.w]);
  }

  lemma ChannelSpends(cfg: Config, st: State, step: Step)
    requires Shaped(cfg, st) && Enabled(cfg, st, step) && (step.Send? || step.Handoff? || step.Receive?)
    ensures Potential(cfg, Apply(cfg, st, step)) < Potential(cfg, st)
  {
    var now := Apply(cfg, st, step);
    match step
    case Send(s) => SumUpdate(SchedWork(cfg), st.sched, s, now.sched[s]);
    case Handoff(s, w) => HandoffSpends(cfg, st, s, w);
    case Receive(w) => SumUpdate(WorkerWork, st.workers, w, now.workers[w]);
  }

  lemma HandoffSpends(cfg: Config, st: State, s: nat, w: nat)
    requires Shaped(cfg, st) && Enabled(cfg, st, Handoff(s, w))
    ensures Potential(cfg, Apply(cfg, st, Handoff(s, w))) < Potential(cfg, st)
  {
    var now := Apply(cfg, st, Handoff(s, w));
    SumUpdate(SchedWork(cfg), st.sched, s, now.sched[s]);
    SumUpdate(WorkerWork, st.workers, w, now.workers[w]);
  }

  lemma StepSpendsPotential(cfg: Config, st: State, step: Step)
    requires Shaped(cfg, st) && Enabled(cfg, st, step)
    ensures Potential(cfg, Apply(cfg, st, step)) < Potential(cfg, st)
  {
    if OfScheduler(step) {
      SchedulerSpends(cfg, st, step);
    } else if OfWorker(step) {
      WorkerSpends(cfg, st, step);
    } else if !step.Close? && !step.Cancel? {
      ChannelSpends(cfg, st, step);
    }
  }

  lemma {:induction false} RunSpends(cfg: Config, steps: seq<Step>)
    requires Exec(cfg, steps).Some?
    ensures |steps| + Potential(cfg, Exec(cfg, steps).value) <= Potential(cfg, Init(cfg))
  {
    if steps != [] {
      var init := steps[..|steps| - 1];
      RunInv(cfg, init);
      RunSpends(cfg, init);
      StepSpendsPotential(cfg, Exec(cfg, init).value, steps[|steps| - 1]);
    }
  }

  /** Every run is finite: at most nine steps per request, one per goroutine, one close and one
      signal. With `Progress`, every maximal run ends in a final state. */
  lemma RunsEnd(cfg: Config, steps: seq<Step>)
    requires Exec(cfg, steps).Some?
    ensures |steps| <= 9 * |Flatten(cfg.partitions)| + |cfg.partitions| + cfg.workers + 2
  {
    RunInv(cfg, steps);
    RunSpends(cfg, steps);
    PotentialNonnegative(cfg, Exec(cfg, steps).value);
    InitialPotential(cfg);
  }

  lemma PotentialNonnegative(cfg: Config, st: State)
    requires Shaped(cfg, st)
    ensures Potential(cfg, st) >= 0
  {
    AtLeastZero(SchedWork(cfg), st.sched);
    AtLeastZero(WorkerWork, st.workers);
  }

  lemma InitialPotential(cfg: Config)
    ensures Potential(cfg, Init(cfg)) == 9 * |Flatten(cfg.partitions)| + |cfg.partitions| + cfg.workers + 2
  {
    var init, n := Init(cfg), |cfg.partitions|;
    InitialWork(cfg, init.sched, n);
    assert init.sched[..n] == init.sched && cfg.partitions[..n] == cfg.partitions;
    SumGap(One, WorkerWork, init.workers, 0);
    SumOnes(init.workers);
  }

  lemma {:induction false} InitialWork(cfg: Config, ss: seq<Sched>, n: nat)
    requires |ss| == |cfg.partitions| && forall s :: 0 <= s < |ss| ==> ss[s] == Sched(s, 0, Waiting)
    requires n <= |ss|
    ensures Sum(SchedWork(cfg), ss[..n]) == 9 * |Flatten(cfg.partitions[..n])| + n
  {
    if n > 0 {
      InitialWork(cfg, ss, n - 1);
      SumSnoc(SchedWork(cfg), ss, n - 1);
      TakeFlatten(cfg.partitions, n - 1);
      assert SchedWork(cfg)(ss[n - 1]) == 1 + 9 * |cfg.partitions[n - 1]|;
    }
  }

  lemma TakeFlatten<T>(parts: seq<seq<T>>, n: nat)
    requires n < |parts|
    ensures |Flatten(parts[..n + 1])| == |Flatten(parts[..n])| + |parts[n]|
  {
    assert parts[..n + 1] == parts[..n] + [parts[n]];
    FlattenSnoc(parts[..n], parts[n]);
  }

  lemma SumSnoc<T>(f: T -> int, s: seq<T>, n: nat)
    requires n < |s|
    ensures Sum(f, s[..n + 1]) == Sum(f, s[..n]) + f(s[n])
  {
    assert s[..n + 1] == s[..n] + [s[n]];
    SumAppend(f, s[..n], [s[n]]);
  }

  // ---------------------------------------------------------------- exactly once

  lemma {:induction false} InLog(log: seq<Item>, x: Item)
    ensures x in log <==> Sum(Is(x), log) > 0
    ensures Sum(Is(x), log) >= 0
  {
    if log != [] { InLog(log[1..], x); }
  }

  /** Cells hold what the log says when the log writes each cell with one request only. */
  lemma {:induction false} CellsAgree(cfg: Config, log: seq<Item>)
    requires forall x :: x in log ==>
               x.sched < |cfg.partitions| && x.cell < |cfg.partitions[x.sched]| && x == ItemAt(cfg, x.sched, x.cell)
    ensures forall s: nat, i: nat :: (s, i) in Cells(log) <==>
              s < |cfg.partitions| && i < |cfg.partitions[s]| && ItemAt(cfg, s, i) in log
    ensures forall s: nat, i: nat :: (s, i) in Cells(log) ==>
              s < |cfg.partitions| && i < |cfg.partitions[s]| && Cells(log)[(s, i)] == cfg.partitions[s][i]
  {
    if log != [] {
      var init, last := log[..|log| - 1], log[|log| - 1];
      CellsAgree(cfg, init);
      assert forall x :: x in log <==> x in init || x == last;
    }
  }

  /** At any time no cell has been written twice, and a written cell holds its own request. */
  lemma AtMostOnce(cfg: Config, steps: seq<Step>, x: Item)
    requires Exec(cfg, steps).Some?
    ensures var st := Exec(cfg, steps).value;
            && 0 <= Sum(Is(x), st.log) <= 1
            && (x in st.log ==> x.sched < |cfg.partitions| && x.cell < |cfg.partitions[x.sched]|
                                && x == ItemAt(cfg, x.sched, x.cell)
                                && (x.sched, x.cell) in st.results && st.results[(x.sched, x.cell)] == x.req)
  {
    RunInv(cfg, steps);
    var st := Exec(cfg, steps).value;
    LogIsTaken(cfg, st);
    CellsAgree(cfg, st.log);
    InLog(st.log, x);
    PlacesBound(cfg, st, x);
  }

  lemma PlacesBound(cfg: Config, st: State, x: Item)
    requires Inv(cfg, st)
    ensures Sum(Is(x), st.log) <= Places(st, x)
  {
    AtLeastZero(HandOf(x), st.sched);
    AtLeastZero(Is(x), st.buf);
    AtLeastZero(HeldOf(x), st.workers);
  }

  lemma LogIsTaken(cfg: Config, st: State)
    requires Inv(cfg, st)
    ensures forall x :: x in st.log ==> Taken(cfg, st, x)
  {
    forall x | x in st.log ensures Taken(cfg, st, x) {
      InLog(st.log, x);
      PlacesBound(cfg, st, x);
      assert Places(st, x) == if Taken(cfg, st, x) then 1 else 0;
    }
  }

  /** At the end every request that was dispatched is written exactly once; without cancellation
      that is every request of every partition, each into its own cell. */
  lemma ExactlyOnce(cfg: Config, steps: seq<Step>, s: nat, i: nat)
    requires Sane(cfg) && Exec(cfg, steps).Some? && Final(Exec(cfg, steps).value)
    requires s < |cfg.partitions| && i < |cfg.partitions[s]|
    ensures var st := Exec(cfg, steps).value;
            && Sum(Is(ItemAt(cfg, s, i)), st.log) == (if i < st.sched[s].taken then 1 else 0)
            && (!st.cancelled ==> st.sched[s].taken == |cfg.partitions[s]|)
            && ((s, i) in st.results <==> i < st.sched[s].taken)
            && ((s, i) in st.results ==> st.results[(s, i)] == cfg.partitions[s][i])
            && st.slots == st.outstanding == st.active == 0
  {
    RunInv(cfg, steps);
    var st := Exec(cfg, steps).value;
    var x := ItemAt(cfg, s, i);
    NothingRuns(cfg, st);
    OnlyWritten(cfg, st, x);
    LogIsTaken(cfg, st);
    CellsAgree(cfg, st.log);
    InLog(st.log, x);
  }

  lemma NothingRuns(cfg: Config, st: State)
    requires Sane(cfg) && Base(cfg, st) && Final(st)
    ensures st.buf == [] && st.slots == st.outstanding == st.active == 0
  {
    assert st.workers[0].Exited?;
    AllZero(InHand, st.sched);
    AllZero(IsCounted, st.sched);
    AllZero(HoldsSlot, st.workers);
    AllZero(IsOutstanding, st.workers);
    AllZero(IsRunning, st.workers);
  }

  /** At the end the only place an item can be in is the log. */
  lemma OnlyWritten(cfg: Config, st: State, x: Item)
    requires Inv(cfg, st) && Final(st) && st.buf == []
    ensures Sum(Is(x), st.log) == if Taken(cfg, st, x) then 1 else 0
  {
    assert Places(st, x) == if Taken(cfg, st, x) then 1 else 0;
    AllZero(HandOf(x), st.sched);
    AllZero(HeldOf(x), st.workers);
  }
}
