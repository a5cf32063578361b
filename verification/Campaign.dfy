/** The fenced submission of one campaign: any number of submit calls, the scheduler, and the native
    job that may start before its submission is recorded. Crashes may happen between any two steps
    and release the leases a process holds. */
module Campaign {
  import opened Common

  type JobId = nat

  datatype Phase = Prepared | Rejected | Submitting | Submitted | Running | Succeeded | Failed

  /** The durable state file. */
  datatype File = File(phase: Phase, job: Option<JobId>)

  /** What the scheduler made of one `qsub` call. */
  datatype Call = Flying | Accepted(job: JobId) | Refused

  /** The writes a process makes: read the file, change some fields, replace the file. */
  datatype Update = Intent | Publish(job: JobId) | Reject | Run | Succeed | Fail

  function Updated(f: File, u: Update): File {
    match u
    case Intent => f.(phase := Submitting)
    case Publish(j) => File(Submitted, Some(j))
    case Reject => f.(phase := Rejected)
    case Run => f.(phase := Running)
    case Succeed => f.(phase := Succeeded)
    case Fail => f.(phase := Failed)
  }

  /** A submit call; every state but `SIdle` holds the submit lease. */
  datatype Sub =
    | SIdle
    | SHeld
    | SNeed(u: Update)
    | SWrite(u: Update, snap: File)
    | SCalling
    | SWaiting(c: nat)

  /** An execution of the native job. */
  datatype Exe =
    | EIdle
    | EBinding(job: JobId)
    | EHold(job: JobId)
    | EBound(job: JobId)
    | EAcquired(job: JobId)
    | ERunning(job: JobId)
    | EPublished(job: JobId)
    | ENeed(u: Update, job: JobId)
    | EWrite(u: Update, snap: File, job: JobId)

  datatype Owner = Submitter(i: nat) | Executor(e: nat)

  /** `acquired` says that the acquisition record exists: it is created once and never replaced. */
  datatype State = State(
    file: File, calls: seq<Call>, subs: seq<Sub>, exes: seq<Exe>,
    lease: Option<Owner>, execLease: Option<nat>, acquired: bool)

  datatype Step =
    | SAcquire(i: nat) | SDecide(i: nat, found: JobId) | SSnap(i: nat) | SCommit(i: nat)
    | SIssue(i: nat) | SAnswer(i: nat) | SLeave(i: nat)
    | Accept(c: nat, job: JobId) | Refuse(c: nat)
    | EStart(e: nat, job: JobId) | ESeen(e: nat) | ETake(e: nat) | EDecide(e: nat) | ECreate(e: nat)
    | EGo(e: nat) | ESnap(e: nat) | ECommit(e: nat) | EFail(e: nat) | ELeave(e: nat)

  ghost predicate IsAccepted(calls: seq<Call>, j: JobId) {
    Accepted(j) in calls
  }

  ghost predicate AllRefused(calls: seq<Call>) {
    forall c :: 0 <= c < |calls| ==> calls[c].Refused?
  }

  ghost predicate Init(st: State) {
    && st.file == File(Prepared, None) && st.calls == []
    && (forall i :: 0 <= i < |st.subs| ==> st.subs[i].SIdle?)
    && (forall e :: 0 <= e < |st.exes| ==> st.exes[e].EIdle?)
    && st.lease == None && st.execLease == None && !st.acquired
  }

  /** Executor states that hold the submit lease. */
  predicate Binds(x: Exe) {
    x.EHold? || ((x.ENeed? || x.EWrite?) && x.u.Publish?)
  }

  /** Executor states after the execute lease was given up: only the failure is left to publish. */
  predicate Failing(x: Exe) {
    (x.ENeed? || x.EWrite?) && x.u.Fail?
  }

  /** The executor knows the recorded job is its own. */
  predicate Owns(x: Exe) {
    x.EBound? || x.EAcquired? || x.ERunning? || x.EPublished? || ((x.ENeed? || x.EWrite?) && !x.u.Publish?)
  }

  ghost predicate Enabled(st: State, step: Step) {
    match step
    case SAcquire(i) => i < |st.subs| && st.subs[i].SIdle? && st.lease.None?
    case SDecide(i, found) =>
      i < |st.subs| && st.subs[i].SHeld?
      && (|| st.file.phase.Prepared? || st.file.phase.Rejected?
          || (st.file.phase.Submitting? && IsAccepted(st.calls, found)))
    case SSnap(i) => i < |st.subs| && st.subs[i].SNeed?
    case SCommit(i) => i < |st.subs| && st.subs[i].SWrite?
    case SIssue(i) => i < |st.subs| && st.subs[i].SCalling?
    case SAnswer(i) =>
      i < |st.subs| && st.subs[i].SWaiting? && st.subs[i].c < |st.calls| && !st.calls[st.subs[i].c].Flying?
    case SLeave(i) => i < |st.subs| && !st.subs[i].SIdle?
    case Accept(c, job) => c < |st.calls| && st.calls[c].Flying? && !IsAccepted(st.calls, job)
    case Refuse(c) => c < |st.calls| && st.calls[c].Flying?
    case EStart(e, job) =>
      e < |st.exes| && st.exes[e].EIdle? && st.execLease.None? && IsAccepted(st.calls, job)
      && (st.file.phase.Submitting? || st.file.phase.Submitted?)
    case ESeen(e) => e < |st.exes| && st.exes[e].EBinding? && st.file == File(Submitted, Some(st.exes[e].job))
    case ETake(e) =>
      e < |st.exes| && st.exes[e].EBinding? && st.file == File(Submitting, None) && st.lease.None?
    case EDecide(e) =>
      e < |st.exes| && st.exes[e].EHold?
      && (st.file == File(Submitting, None) || st.file == File(Submitted, Some(st.exes[e].job)))
    case ECreate(e) => e < |st.exes| && st.exes[e].EBound? && !st.acquired
    case EGo(e) => e < |st.exes| && (st.exes[e].EAcquired? || st.exes[e].ERunning?)
    case ESnap(e) => e < |st.exes| && st.exes[e].ENeed?
    case ECommit(e) => e < |st.exes| && st.exes[e].EWrite?
    case EFail(e) => e < |st.exes| && Owns(st.exes[e]) && !Failing(st.exes[e])
    case ELeave(e) => e < |st.exes| && !st.exes[e].EIdle?
  }

  function SetSub(st: State, i: nat, x: Sub): State
    requires i < |st.subs|
  {
    st.(subs := st.subs[i := x], lease := if x.SIdle? then None else st.lease)
  }

  /** Replacing an executor's state gives up the leases the new state does not hold. */
  function SetExe(st: State, e: nat, x: Exe): State
    requires e < |st.exes|
  {
    st.(exes := st.exes[e := x],
        lease := if Binds(st.exes[e]) && !Binds(x) then None else st.lease,
        execLease := if !st.exes[e].EIdle? && !Failing(st.exes[e]) && (x.EIdle? || Failing(x)) then None
                     else st.execLease)
  }

  ghost function Apply(st: State, step: Step): State
    requires Enabled(st, step)
  {
    match step
    case SAcquire(i) => SetSub(st, i, SHeld).(lease := Some(Submitter(i)))
    case SDecide(i, found) => SetSub(st, i, SNeed(if st.file.phase.Submitting? then Publish(found) else Intent))
    case SSnap(i) => SetSub(st, i, SWrite(st.subs[i].u, st.file))
    case SCommit(i) =>
      SetSub(st, i, if st.subs[i].u.Intent? then SCalling else SIdle)
        .(file := Updated(st.subs[i].snap, st.subs[i].u))
    case SIssue(i) => SetSub(st, i, SWaiting(|st.calls|)).(calls := st.calls + [Flying])
    case SAnswer(i) =>
      var call := st.calls[st.subs[i].c];
      SetSub(st, i, SNeed(if call.Accepted? then Publish(call.job) else Reject))
    case SLeave(i) => SetSub(st, i, SIdle)
    case Accept(c, job) => st.(calls := st.calls[c := Accepted(job)])
    case Refuse(c) => st.(calls := st.calls[c := Refused])
    case EStart(e, job) => SetExe(st, e, EBinding(job)).(execLease := Some(e))
    case ESeen(e) => SetExe(st, e, EBound(st.exes[e].job))
    case ETake(e) => SetExe(st, e, EHold(st.exes[e].job)).(lease := Some(Executor(e)))
    case EDecide(e) =>
      var j := st.exes[e].job;
      SetExe(st, e, if st.file.phase.Submitting? then ENeed(Publish(j), j) else EBound(j))
    case ECreate(e) => SetExe(st, e, EAcquired(st.exes[e].job)).(acquired := true)
    case EGo(e) =>
      var j := st.exes[e].job;
      SetExe(st, e, if st.exes[e].EAcquired? then ENeed(Run, j) else ENeed(Succeed, j))
    case ESnap(e) => SetExe(st, e, EWrite(st.exes[e].u, st.file, st.exes[e].job))
    case ECommit(e) =>
      var me := st.exes[e];
      SetExe(st, e, match me.u
                    case Publish(_) => EBound(me.job)
                    case Run => ERunning(me.job)
                    case Succeed => EPublished(me.job)
                    case _ => EIdle).(file := Updated(me.snap, me.u))
    case EFail(e) => SetExe(st, e, ENeed(Fail, st.exes[e].job))
    case ELeave(e) => SetExe(st, e, EIdle)
  }

  // ---------------------------------------------------------------- the invariant

  predicate Early(p: Phase) { p.Prepared? || p.Rejected? || p.Submitting? }

  /** Before publication nothing is recorded; afterwards an accepted job is. */
  ghost predicate Recorded(st: State) {
    if Early(st.file.phase) then st.file.job == None
    else st.file.job.Some? && IsAccepted(st.calls, st.file.job.value)
  }

  /** Every call but the last was refused, and without an intent all of them were. */
  ghost predicate OneCall(st: State) {
    && (forall c :: 0 <= c < |st.calls| - 1 ==> st.calls[c].Refused?)
    && (st.file.phase.Prepared? || st.file.phase.Rejected? ==> AllRefused(st.calls))
  }

  ghost predicate SubOk(st: State, i: nat)
    requires i < |st.subs|
  {
    var x := st.subs[i];
    && (st.lease == Some(Submitter(i)) <==> !x.SIdle?)
    && (x.SWrite? ==> x.snap == st.file)
    && (x.SCalling? ==> st.file.phase.Submitting? && AllRefused(st.calls))
    && (x.SWaiting? ==> st.file.phase.Submitting? && x.c == |st.calls| - 1)
    && (x.SNeed? || x.SWrite? ==>
          match x.u
          case Intent => st.file.phase.Prepared? || st.file.phase.Rejected?
          case Publish(j) => st.file.phase.Submitting? && IsAccepted(st.calls, j)
          case Reject => st.file.phase.Submitting? && AllRefused(st.calls)
          case _ => false)
  }

  ghost predicate ExeOk(st: State, e: nat)
    requires e < |st.exes|
  {
    var x := st.exes[e];
    && (st.lease == Some(Executor(e)) <==> Binds(x))
    && (st.execLease == Some(e) <==> !x.EIdle? && !Failing(x))
    && (!x.EIdle? ==> IsAccepted(st.calls, x.job))
    && (Owns(x) ==> st.file.job == Some(x.job))
    && (x.EWrite? ==> x.snap.job == st.file.job)
    && (x.ENeed? || x.EWrite? ==> x.u.Run? || x.u.Succeed? || x.u.Fail? || x.u == Publish(x.job))
    && ((x.ENeed? || x.EWrite?) && x.u.Publish? ==> st.file.phase.Submitting? && (x.EWrite? ==> x.snap == st.file))
  }

  ghost predicate LeasesOwned(st: State) {
    && (st.lease.Some? && st.lease.value.Submitter? ==> st.lease.value.i < |st.subs|)
    && (st.lease.Some? && st.lease.value.Executor? ==> st.lease.value.e < |st.exes|)
    && (st.execLease.Some? ==> st.execLease.value < |st.exes|)
  }

  ghost predicate Inv(st: State) {
    && Recorded(st) && OneCall(st) && LeasesOwned(st)
    && (forall i :: 0 <= i < |st.subs| ==> SubOk(st, i))
    && (forall e :: 0 <= e < |st.exes| ==> ExeOk(st, e))
  }

  lemma InitInv(st: State)
    requires Init(st)
    ensures Inv(st) && Phased(st)
  {
  }

  // ---------------------------------------------------------------- every step keeps it

  lemma SubmitterMoves(st: State, step: Step)
    requires Inv(st) && Enabled(st, step)
    requires step.SAcquire? || step.SDecide? || step.SSnap? || step.SAnswer? || step.SLeave?
    ensures Inv(Apply(st, step))
  {
    assert SubOk(st, step.i);
    var now := Apply(st, step);
    forall i | 0 <= i < |now.subs| ensures SubOk(now, i) {
      assert SubOk(st, i);
    }
    forall e | 0 <= e < |now.exes| ensures ExeOk(now, e) {
      assert ExeOk(st, e);
    }
  }

  lemma SubmitterCommits(st: State, step: Step)
    requires Inv(st) && Enabled(st, step)
    requires step.SCommit?
    ensures Inv(Apply(st, step))
  {
    assert SubOk(st, step.i);
    var now := Apply(st, step);
    forall i | 0 <= i < |now.subs| ensures SubOk(now, i) {
      assert SubOk(st, i);
    }
    forall e | 0 <= e < |now.exes| ensures ExeOk(now, e) {
      assert ExeOk(st, e);
    }
  }

  lemma CallIssued(st: State, step: Step)
    requires Inv(st) && Enabled(st, step)
    requires step.SIssue?
    ensures Inv(Apply(st, step))
  {
    assert SubOk(st, step.i);
    var now := Apply(st, step);
    forall i | 0 <= i < |now.subs| ensures SubOk(now, i) {
      assert SubOk(st, i);
    }
    forall e | 0 <= e < |now.exes| ensures ExeOk(now, e) {
      assert ExeOk(st, e);
    }
  }

  lemma SchedulerAnswers(st: State, step: Step)
    requires Inv(st) && Enabled(st, step)
    requires step.Accept? || step.Refuse?
    ensures Inv(Apply(st, step))
  {
    var now := Apply(st, step);
    forall i | 0 <= i < |now.subs| ensures SubOk(now, i) {
      assert SubOk(st, i);
    }
    forall e | 0 <= e < |now.exes| ensures ExeOk(now, e) {
      assert ExeOk(st, e);
    }
  }

  lemma ExecutorStarts(st: State, step: Step)
    requires Inv(st) && Enabled(st, step)
    requires step.EStart? || step.ESeen?
    ensures Inv(Apply(st, step))
  {
    assert ExeOk(st, step.e);
    var now := Apply(st, step);
    forall i | 0 <= i < |now.subs| ensures SubOk(now, i) {
      assert SubOk(st, i);
    }
    forall e | 0 <= e < |now.exes| ensures ExeOk(now, e) {
      assert ExeOk(st, e);
    }
  }

  lemma ExecutorBinds(st: State, step: Step)
    requires Inv(st) && Enabled(st, step)
    requires step.ETake? || step.EDecide?
    ensures Inv(Apply(st, step))
  {
    assert ExeOk(st, step.e);
    var now := Apply(st, step);
    forall i | 0 <= i < |now.subs| ensures SubOk(now, i) {
      assert SubOk(st, i);
    }
    forall e | 0 <= e < |now.exes| ensures ExeOk(now, e) {
      assert ExeOk(st, e);
    }
  }

  lemma ExecutorAdvances(st: State, step: Step)
    requires Inv(st) && Enabled(st, step)
    requires step.ECreate? || step.EGo? || step.ESnap?
    ensures Inv(Apply(st, step))
  {
    assert ExeOk(st, step.e);
    var now := Apply(st, step);
    forall i | 0 <= i < |now.subs| ensures SubOk(now, i) {
      assert SubOk(st, i);
    }
    forall e | 0 <= e < |now.exes| ensures ExeOk(now, e) {
      assert ExeOk(st, e);
    }
  }

  lemma ExecutorMoves(st: State, step: Step)
    requires Inv(st) && Enabled(st, step)
    requires step.EFail? || step.ELeave?
    ensures Inv(Apply(st, step))
  {
    assert ExeOk(st, step.e);
    var now := Apply(st, step);
    forall i | 0 <= i < |now.subs| ensures SubOk(now, i) {
      assert SubOk(st, i);
    }
    forall e | 0 <= e < |now.exes| ensures ExeOk(now, e) {
      assert ExeOk(st, e);
    }
  }

  lemma ExecutorCommits(st: State, step: Step)
    requires Inv(st) && Enabled(st, step)
    requires step.ECommit?
    ensures Inv(Apply(st, step))
  {
    assert ExeOk(st, step.e);
    var now := Apply(st, step);
    forall i | 0 <= i < |now.subs| ensures SubOk(now, i) {
      assert SubOk(st, i);
    }
    forall e | 0 <= e < |now.exes| ensures ExeOk(now, e) {
      assert ExeOk(st, e);
    }
  }

  lemma StepKeepsInv(st: State, step: Step)
    requires Inv(st) && Enabled(st, step)
    ensures Inv(Apply(st, step))
  {
    if step.SCommit? { SubmitterCommits(st, step); }
    else if step.SIssue? { CallIssued(st, step); }
    else if step.Accept? || step.Refuse? { SchedulerAnswers(st, step); }
    else if step.ECommit? { ExecutorCommits(st, step); }
    else if step.EStart? || step.ESeen? { ExecutorStarts(st, step); }
    else if step.ETake? || step.EDecide? { ExecutorBinds(st, step); }
    else if step.ECreate? || step.EGo? || step.ESnap? { ExecutorAdvances(st, step); }
    else if step.EFail? || step.ELeave? { ExecutorMoves(st, step); }
    else { SubmitterMoves(st, step); }
  }

  // ---------------------------------------------------------------- whole runs

  ghost function Next(st: State, step: Step): Option<State> {
    if Enabled(st, step) then Some(Apply(st, step)) else None
  }

  /** The state after a sequence of steps, or `None` when some step was not enabled. */
  ghost function RunFrom(st: State, steps: seq<Step>): Option<State> {
    Steps(Next, st, steps)
  }

  lemma {:induction false} RunKeepsInv(st: State, steps: seq<Step>)
    requires Inv(st) && RunFrom(st, steps).Some?
    ensures Inv(RunFrom(st, steps).value)
    decreases |steps|
  {
    if steps != [] {
      StepKeepsInv(st, steps[0]);
      RunKeepsInv(Apply(st, steps[0]), steps[1..]);
    }
  }

  /** Over any run the scheduler accepts at most one of all the calls ever made, so every accepted
      job is the same job. */
  lemma AtMostOneJob(start: State, steps: seq<Step>, c: nat, d: nat)
    requires Init(start) && RunFrom(start, steps).Some?
    requires c < |RunFrom(start, steps).value.calls| && d < |RunFrom(start, steps).value.calls|
    ensures var calls := RunFrom(start, steps).value.calls;
            calls[c].Accepted? && calls[d].Accepted? ==> c == d
  {
    InitInv(start);
    RunKeepsInv(start, steps);
  }

  /** A recorded job id is the accepted job and survives every later step. */
  lemma {:induction false} RecordedJobIsFinal(start: State, steps: seq<Step>, later: seq<Step>)
    requires Init(start) && RunFrom(start, steps).Some?
    requires RunFrom(start, steps).value.file.job.Some?
    requires RunFrom(RunFrom(start, steps).value, later).Some?
    ensures var st, end := RunFrom(start, steps).value, RunFrom(RunFrom(start, steps).value, later).value;
            end.file.job == st.file.job && IsAccepted(st.calls, st.file.job.value)
  {
    InitInv(start);
    RunKeepsInv(start, steps);
    JobKept(RunFrom(start, steps).value, later);
  }

  lemma {:induction false} JobKept(st: State, steps: seq<Step>)
    requires Inv(st) && st.file.job.Some? && RunFrom(st, steps).Some?
    ensures RunFrom(st, steps).value.file.job == st.file.job
    decreases |steps|
  {
    if steps != [] {
      StepKeepsInv(st, steps[0]);
      StepEdges(st, steps[0]);
      JobKept(Apply(st, steps[0]), steps[1..]);
    }
  }

  /** One step, under any interleaving: an intent leads only to a rejection or a publication,
      publication is never undone, and SUBMITTED overwrites nothing but SUBMITTING. */
  lemma StepEdges(st: State, step: Step)
    requires Inv(st) && Enabled(st, step)
    ensures var p, q := st.file.phase, Apply(st, step).file.phase;
            && (p.Prepared? || p.Rejected? ==> q == p || q.Submitting?)
            && (p.Submitting? ==> q.Submitting? || q.Rejected? || q.Submitted?)
            && (!Early(p) ==> !Early(q))
            && (q.Submitted? ==> p.Submitting? || p.Submitted?)
    ensures st.file.job.Some? ==> Apply(st, step).file.job == st.file.job
  {
    if step.SCommit? {
      assert SubOk(st, step.i);
    } else if step.ECommit? {
      assert ExeOk(st, step.e);
      assert st.exes[step.e].u.Fail? || st.exes[step.e].u.Run? || st.exes[step.e].u.Succeed? ==> Owns(st.exes[step.e]);
    }
  }

  /** So in every run SUBMITTED overwrites nothing but SUBMITTING, a published job is never unpublished,
      and a job that already runs keeps RUNNING against a late submitter. */
  lemma ReachableEdges(start: State, steps: seq<Step>, step: Step)
    requires Init(start) && RunFrom(start, steps).Some? && Enabled(RunFrom(start, steps).value, step)
    ensures var st := RunFrom(start, steps).value;
            var p, q := st.file.phase, Apply(st, step).file.phase;
            && (q.Submitted? && p != q ==> p.Submitting?)
            && (!Early(p) ==> !Early(q))
            && (p.Running? && q != p ==> q.Succeeded? || q.Failed?)
  {
    InitInv(start);
    RunKeepsInv(start, steps);
    StepEdges(RunFrom(start, steps).value, step);
  }

  // ---------------------------------------------------------------- phases of one execution

  /** The intended life of a campaign; SUCCEEDED may still fail through the guard that follows it. */
  predicate Edge(p: Phase, q: Phase) {
    || p == q
    || (p.Prepared? && q.Submitting?) || (p.Rejected? && q.Submitting?)
    || (p.Submitting? && (q.Rejected? || q.Submitted?))
    || (p.Submitted? && (q.Running? || q.Failed?))
    || (p.Running? && (q.Succeeded? || q.Failed?))
    || (p.Succeeded? && q.Failed?)
  }

  /** No earlier execution is still about to publish its failure. */
  ghost predicate NoneFailing(st: State) {
    forall e :: 0 <= e < |st.exes| ==> !Failing(st.exes[e])
  }

  /** An execution starts beside a failing one only when the acquisition record already exists; it then
      cannot get past it. */
  ghost predicate FencedStart(st: State, step: Step) {
    step.EStart? ==> NoneFailing(st) || st.acquired
  }

  /** Executor states past the creation of the acquisition record. */
  predicate Created(x: Exe) {
    x.EAcquired? || x.ERunning? || x.EPublished? || ((x.ENeed? || x.EWrite?) && (x.u.Run? || x.u.Succeed?))
  }

  ghost predicate Alone(st: State, e: nat) {
    forall f :: 0 <= f < |st.exes| && f != e ==> st.exes[f].EIdle?
  }

  ghost predicate PhaseOk(st: State, e: nat)
    requires e < |st.exes|
  {
    var x := st.exes[e];
    && (Created(x) ==> st.acquired)
    && (x.EAcquired? || ((x.ENeed? || x.EWrite?) && x.u.Run?) ==> st.file.phase.Submitted?)
    && (x.ERunning? || ((x.ENeed? || x.EWrite?) && x.u.Succeed?) ==> st.file.phase.Running?)
    && (x.EPublished? ==> st.file.phase.Succeeded?)
    && (x.EBound? && !st.acquired ==> st.file.phase.Submitted?)
    && (!x.EIdle? && !Failing(x) && (Created(x) || !st.acquired) ==> Alone(st, e))
  }

  ghost predicate Phased(st: State) {
    forall e :: 0 <= e < |st.exes| ==> PhaseOk(st, e)
  }

  predicate OfExecutor(step: Step) {
    || step.EStart? || step.ESeen? || step.ETake? || step.EDecide? || step.ECreate? || step.EGo? || step.ESnap?
    || step.ECommit? || step.EFail? || step.ELeave?
  }

  lemma FencedStep(st: State, step: Step)
    requires Inv(st) && Phased(st) && Enabled(st, step) && FencedStart(st, step)
    ensures Phased(Apply(st, step))
    ensures Edge(st.file.phase, Apply(st, step).file.phase)
  {
    StepFollowsEdge(st, step);
    StepKeepsPhased(st, step);
  }

  lemma StepFollowsEdge(st: State, step: Step)
    requires Inv(st) && Phased(st) && Enabled(st, step)
    ensures Edge(st.file.phase, Apply(st, step).file.phase)
  {
    StepEdges(st, step);
    if step.SCommit? {
      assert SubOk(st, step.i);
    } else if step.ECommit? {
      assert ExeOk(st, step.e) && PhaseOk(st, step.e);
    }
  }

  lemma StepKeepsPhased(st: State, step: Step)
    requires Inv(st) && Phased(st) && Enabled(st, step) && FencedStart(st, step)
    ensures Phased(Apply(st, step))
  {
    forall e | 0 <= e < |Apply(st, step).exes| ensures PhaseOk(Apply(st, step), e) {
      assert PhaseOk(st, e);
      if step.ECommit? {
        CommitPhase(st, step, e);
      } else if step.EStart? {
        StartPhase(st, step, e);
      } else if step.ESeen? || step.ETake? || step.EDecide? {
        BindPhase(st, step, e);
      } else if OfExecutor(step) {
        MovePhase(st, step, e);
      } else if step.SCommit? {
        SubmitPhase(st, step, e);
      }
    }
  }

  lemma SubmitPhase(st: State, step: Step, e: nat)
    requires Inv(st) && Phased(st) && Enabled(st, step) && step.SCommit? && e < |st.exes|
    ensures PhaseOk(Apply(st, step), e)
  {
    assert SubOk(st, step.i) && ExeOk(st, e) && PhaseOk(st, e);
  }

  lemma CommitPhase(st: State, step: Step, e: nat)
    requires Inv(st) && Phased(st) && Enabled(st, step) && step.ECommit? && e < |st.exes|
    ensures PhaseOk(Apply(st, step), e)
  {
    assert ExeOk(st, e) && PhaseOk(st, e) && ExeOk(st, step.e) && PhaseOk(st, step.e);
  }

  lemma StartPhase(st: State, step: Step, e: nat)
    requires Inv(st) && Phased(st) && Enabled(st, step) && FencedStart(st, step) && step.EStart? && e < |st.exes|
    ensures PhaseOk(Apply(st, step), e)
  {
    StartsAlone(st);
    assert PhaseOk(st, e);
  }

  lemma BindPhase(st: State, step: Step, e: nat)
    requires Inv(st) && Phased(st) && Enabled(st, step) && e < |st.exes|
    requires step.ESeen? || step.ETake? || step.EDecide?
    ensures PhaseOk(Apply(st, step), e)
  {
    assert PhaseOk(st, e) && ExeOk(st, step.e) && PhaseOk(st, step.e);
  }

  lemma MovePhase(st: State, step: Step, e: nat)
    requires Inv(st) && Phased(st) && Enabled(st, step) && e < |st.exes|
    requires step.ECreate? || step.EGo? || step.ESnap? || step.EFail? || step.ELeave?
    ensures PhaseOk(Apply(st, step), e)
  {
    assert PhaseOk(st, e) && ExeOk(st, step.e) && PhaseOk(st, step.e);
  }

  /** Whoever takes the execute lease finds only executions that are idle or failing. */
  lemma StartsAlone(st: State)
    requires Inv(st) && st.execLease.None?
    ensures forall f :: 0 <= f < |st.exes| ==> st.exes[f].EIdle? || Failing(st.exes[f])
  {
    forall f | 0 <= f < |st.exes| ensures st.exes[f].EIdle? || Failing(st.exes[f]) {
      assert ExeOk(st, f);
    }
  }

  /** If no execution starts beside a failing one before the acquisition record exists, every step of
      every run follows an intended edge. */
  lemma {:induction false} FencedRunsFollowEdges(st: State, steps: seq<Step>, k: nat)
    requires Inv(st) && Phased(st) && k < |steps|
    requires RunFrom(st, steps[..k + 1]).Some?
    requires forall i :: 0 <= i <= k && RunFrom(st, steps[..i]).Some? ==>
               FencedStart(RunFrom(st, steps[..i]).value, steps[i])
    ensures RunFrom(st, steps[..k]).Some?
    ensures Edge(RunFrom(st, steps[..k]).value.file.phase, RunFrom(st, steps[..k + 1]).value.file.phase)
    decreases k
  {
    assert steps[..0] == [] && RunFrom(st, steps[..0]).value == st;
    FencedStep(st, steps[0]);
    StepKeepsInv(st, steps[0]);
    var now, rest := Apply(st, steps[0]), steps[1..];
    if k == 0 {
      RunOne(st, steps[0]);
      assert steps[..1] == [steps[0]];
    } else {
      forall i | 0 <= i <= k
        ensures RunFrom(st, steps[..i + 1]) == RunFrom(now, rest[..i])
      {
        assert steps[..i + 1][1..] == rest[..i];
      }
      FencedRunsFollowEdges(now, rest, k - 1);
    }
  }

  /** The condition is exact: wherever an execution may start beside a failing one and the record does not
      exist yet, the run can go on to publish SUCCEEDED over FAILED. */
  lemma OverlapBreaksEdges(st: State, failing: nat, e: nat, j: JobId) returns (steps: seq<Step>)
    requires Inv(st) && failing < |st.exes| && Failing(st.exes[failing]) && !st.acquired
    requires Enabled(st, EStart(e, j))
    ensures |steps| > 1 && steps[0] == EStart(e, j)
    ensures RunFrom(st, steps[..|steps| - 1]).Some? && RunFrom(st, steps).Some?
    ensures RunFrom(st, steps[..|steps| - 1]).value.file.phase.Failed? && RunFrom(st, steps).value.file.phase.Succeeded?
  {
    assert ExeOk(st, failing);
    assert st.file == File(Submitted, Some(j));
    RunOne(st, EStart(e, j));
    var s1 := Apply(st, EStart(e, j));
    var s2 := RunSnoc(st, [EStart(e, j)], s1, ESeen(e));
    var s3 := RunSnoc(st, [EStart(e, j)] + [ESeen(e)], s2, ECreate(e));
    steps := [EStart(e, j)] + [ESeen(e)] + [ECreate(e)];
    var s4, s5, s6;
    steps, s4 := PublishNext(st, steps, s3, e);
    steps, s5 := PublishFailure(st, steps, s4, failing);
    steps, s6 := PublishNext(st, steps, s5, e);
  }

  /** The next phase of an execution: read the file, then write it. */
  lemma PublishNext(st: State, steps: seq<Step>, mid: State, e: nat) returns (more: seq<Step>, now: State)
    requires RunFrom(st, steps) == Some(mid) && e < |mid.exes| && (mid.exes[e].EAcquired? || mid.exes[e].ERunning?)
    ensures more == steps + [EGo(e), ESnap(e), ECommit(e)] && RunFrom(st, more) == Some(now)
    ensures RunFrom(st, more[..|more| - 1]).Some?
    ensures RunFrom(st, more[..|more| - 1]).value.file == mid.file
    ensures mid.exes[e].EAcquired? ==>
              now == mid.(file := mid.file.(phase := Running), exes := mid.exes[e := ERunning(mid.exes[e].job)])
    ensures mid.exes[e].ERunning? ==> now.file == mid.file.(phase := Succeeded) && now.acquired == mid.acquired
  {
    var s1, s2;
    s1, s2, now := PhaseSteps(mid, e);
    more := steps + [EGo(e), ESnap(e), ECommit(e)];
    RunThree(Next, st, steps, mid, EGo(e), s1, ESnap(e), s2, ECommit(e), now);
  }

  lemma PhaseSteps(mid: State, e: nat) returns (s1: State, s2: State, now: State)
    requires e < |mid.exes| && (mid.exes[e].EAcquired? || mid.exes[e].ERunning?)
    ensures Next(mid, EGo(e)) == Some(s1) && Next(s1, ESnap(e)) == Some(s2) && Next(s2, ECommit(e)) == Some(now)
    ensures s2.file == mid.file
    ensures mid.exes[e].EAcquired? ==>
              now == mid.(file := mid.file.(phase := Running), exes := mid.exes[e := ERunning(mid.exes[e].job)])
    ensures mid.exes[e].ERunning? ==> now.file == mid.file.(phase := Succeeded) && now.acquired == mid.acquired
  {
    s1 := Apply(mid, EGo(e));
    s2 := Apply(s1, ESnap(e));
    now := Apply(s2, ECommit(e));
    assert mid.exes[e].EAcquired? ==> now.exes == mid.exes[e := ERunning(mid.exes[e].job)];
  }

  lemma PublishFailure(st: State, steps: seq<Step>, mid: State, f: nat) returns (more: seq<Step>, now: State)
    requires RunFrom(st, steps) == Some(mid) && f < |mid.exes| && Failing(mid.exes[f])
    ensures steps <= more && RunFrom(st, more) == Some(now)
    ensures now.file.phase.Failed? && now.exes == mid.exes[f := EIdle]
  {
    more, now := steps, mid;
    if mid.exes[f].ENeed? {
      now := RunSnoc(st, more, now, ESnap(f));
      more := more + [ESnap(f)];
    }
    now := RunSnoc(st, more, now, ECommit(f));
    more := more + [ECommit(f)];
  }

  lemma RunSnoc(st: State, steps: seq<Step>, mid: State, step: Step) returns (now: State)
    requires RunFrom(st, steps) == Some(mid) && Enabled(mid, step)
    ensures now == Apply(mid, step)
    ensures RunFrom(st, steps + [step]) == Some(now)
  {
    now := Apply(mid, step);
    RunNext(Next, st, steps, mid, step);
  }

  lemma RunOne(st: State, step: Step)
    requires Enabled(st, step)
    ensures RunFrom(st, [step]) == Some(Apply(st, step))
  {
    RunNext(Next, st, [], st, step);
    assert [] + [step] == [step];
  }

  lemma RunConcat(st: State, a: seq<Step>, b: seq<Step>)
    requires RunFrom(st, a).Some?
    ensures RunFrom(st, a + b) == RunFrom(RunFrom(st, a).value, b)
  {
    RunAppend(Next, st, a, RunFrom(st, a).value, b);
  }

  /** A campaign with one submitter and two executions, at rest with the given file and calls. */
  function AtRest(file: File, calls: seq<Call>, sub: Sub): State {
    State(file, calls, [sub], [EIdle, EIdle], if sub.SIdle? then None else Some(Submitter(0)), None, false)
  }

  lemma IntentRun() returns (steps: seq<Step>)
    ensures RunFrom(AtRest(File(Prepared, None), [], SIdle), steps)
            == Some(AtRest(File(Submitting, None), [], SCalling))
  {
    var start := AtRest(File(Prepared, None), [], SIdle);
    var s1 := RunSnoc(start, [], start, SAcquire(0));
    var s2 := RunSnoc(start, [SAcquire(0)], s1, SDecide(0, 0));
    var s3 := RunSnoc(start, [SAcquire(0)] + [SDecide(0, 0)], s2, SSnap(0));
    var s4 := RunSnoc(start, [SAcquire(0)] + [SDecide(0, 0)] + [SSnap(0)], s3, SCommit(0));
    steps := [SAcquire(0)] + [SDecide(0, 0)] + [SSnap(0)] + [SCommit(0)];
    assert s4.subs == [SCalling];
  }

  lemma CallRun() returns (steps: seq<Step>)
    ensures RunFrom(AtRest(File(Submitting, None), [], SCalling), steps)
            == Some(AtRest(File(Submitting, None), [Accepted(7)], SNeed(Publish(7))))
  {
    var start := AtRest(File(Submitting, None), [], SCalling);
    var s1 := RunSnoc(start, [], start, SIssue(0));
    var s2 := RunSnoc(start, [SIssue(0)], s1, Accept(0, 7));
    var s3 := RunSnoc(start, [SIssue(0)] + [Accept(0, 7)], s2, SAnswer(0));
    steps := [SIssue(0)] + [Accept(0, 7)] + [SAnswer(0)];
    assert s3.subs == [SNeed(Publish(7))] && s3.calls == [Accepted(7)];
  }

  lemma PublishRun() returns (steps: seq<Step>)
    ensures RunFrom(AtRest(File(Submitting, None), [Accepted(7)], SNeed(Publish(7))), steps)
            == Some(AtRest(File(Submitted, Some(7)), [Accepted(7)], SIdle))
  {
    var start := AtRest(File(Submitting, None), [Accepted(7)], SNeed(Publish(7)));
    var s1 := RunSnoc(start, [], start, SSnap(0));
    var s2 := RunSnoc(start, [SSnap(0)], s1, SCommit(0));
    steps := [SSnap(0)] + [SCommit(0)];
    assert s2.subs == [SIdle];
  }

  /** The submitted campaign with its first execution in state `x`. */
  function Executing(x: Exe): State {
    State(File(Submitted, Some(7)), [Accepted(7)], [SIdle], [x, EIdle], None,
          if Failing(x) then None else Some(0), false)
  }

  lemma StartRun() returns (steps: seq<Step>)
    ensures RunFrom(AtRest(File(Submitted, Some(7)), [Accepted(7)], SIdle), steps) == Some(Executing(EBound(7)))
  {
    var start := AtRest(File(Submitted, Some(7)), [Accepted(7)], SIdle);
    assert start.calls[0] == Accepted(7);
    var s1 := RunSnoc(start, [], start, EStart(0, 7));
    assert s1 == Executing(EBinding(7));
    var s2 := RunSnoc(start, [EStart(0, 7)], s1, ESeen(0));
    steps := [EStart(0, 7)] + [ESeen(0)];
    assert s2.exes == [EBound(7), EIdle];
  }

  lemma FailRun() returns (steps: seq<Step>, st: State)
    ensures RunFrom(Executing(EBound(7)), steps) == Some(st)
    ensures |st.exes| == 2 && Failing(st.exes[0]) && !st.acquired && Enabled(st, EStart(1, 7))
  {
    var start := Executing(EBound(7));
    st := RunSnoc(start, [], start, EFail(0));
    steps := [] + [EFail(0)];
    assert st.calls[0] == Accepted(7);
  }

  /** Such a state is reached: a job is submitted, its first execution fails before it created the record,
      and a second one may start. */
  lemma OverlapIsReachable() returns (start: State, steps: seq<Step>, st: State)
    ensures Init(start) && RunFrom(start, steps) == Some(st)
    ensures |st.exes| == 2 && Failing(st.exes[0]) && !st.acquired && Enabled(st, EStart(1, 7))
  {
    start := AtRest(File(Prepared, None), [], SIdle);
    var a := IntentRun();
    var b := CallRun();
    var c := PublishRun();
    var d := StartRun();
    var e;
    e, st := FailRun();
    RunConcat(start, a, b);
    RunConcat(start, a + b, c);
    RunConcat(start, a + b + c, d);
    RunConcat(start, a + b + c + d, e);
    steps := a + b + c + d + e;
  }

  // ---------------------------------------------------------------- RUNNING is published once

  /** The step publishes RUNNING. */
  ghost predicate PublishesRunning(st: State, step: Step) {
    step.ECommit? && step.e < |st.exes| && st.exes[step.e].EWrite? && st.exes[step.e].u.Run?
  }

  /** How often a run publishes RUNNING. */
  ghost function RunningCount(st: State, steps: seq<Step>): nat
    requires RunFrom(st, steps).Some?
    decreases |steps|
  {
    if steps == [] then 0
    else (if PublishesRunning(st, steps[0]) then 1 else 0) + RunningCount(Apply(st, steps[0]), steps[1..])
  }

  function MayRun(x: Exe): int {
    if x.EAcquired? || ((x.ENeed? || x.EWrite?) && x.u.Run?) then 1 else 0
  }

  /** Publications of RUNNING still possible: one before the record exists, and one for each execution
      that has created it and not yet published. */
  function RunsLeft(st: State): int {
    (if st.acquired then 0 else 1) + Sum(MayRun, st.exes)
  }

  lemma StepSpendsRun(st: State, step: Step)
    requires Enabled(st, step)
    ensures RunsLeft(Apply(st, step)) + (if PublishesRunning(st, step) then 1 else 0) <= RunsLeft(st)
  {
    if OfExecutor(step) {
      SumUpdate(MayRun, st.exes, step.e, Apply(st, step).exes[step.e]);
    }
  }

  lemma {:induction false} RunSpendsRuns(st: State, steps: seq<Step>)
    requires RunFrom(st, steps).Some?
    ensures RunningCount(st, steps) + RunsLeft(RunFrom(st, steps).value) <= RunsLeft(st)
    decreases |steps|
  {
    if steps != [] {
      StepSpendsRun(st, steps[0]);
      RunSpendsRuns(Apply(st, steps[0]), steps[1..]);
    }
  }

  /** Over any run, whatever starts beside whatever, RUNNING is published at most once. */
  lemma RunningPublishedOnce(start: State, steps: seq<Step>)
    requires Init(start) && RunFrom(start, steps).Some?
    ensures RunningCount(start, steps) <= 1
  {
    RunSpendsRuns(start, steps);
    NoneMayRun(start.exes, MayRun);
    RunsNonnegative(RunFrom(start, steps).value.exes);
  }

  lemma {:induction false} NoneMayRun(exes: seq<Exe>, f: Exe -> int)
    requires forall e :: 0 <= e < |exes| ==> f(exes[e]) == 0
    ensures Sum(f, exes) == 0
  {
    if exes != [] { NoneMayRun(exes[1..], f); }
  }

  lemma {:induction false} RunsNonnegative(exes: seq<Exe>)
    ensures Sum(MayRun, exes) >= 0
  {
    if exes != [] { RunsNonnegative(exes[1..]); }
  }
}
