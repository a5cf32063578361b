/** A campaign can always go on: from any state in which the lease is free, a submission, a retry, the recovery of a
    lost answer and an execution each run to their end when nobody interferes. */
module Recovery {
  import opened Common
  import opened Campaign

  /** A submit call reads the file, decides, and replaces the file. */
  lemma SubmitWrites(st: State, i: nat, found: JobId) returns (steps: seq<Step>, end: State)
    requires i < |st.subs| && st.subs[i].SIdle? && st.lease.None? && Enabled(Apply(st, SAcquire(i)), SDecide(i, found))
    ensures RunFrom(st, steps) == Some(end) && end.calls == st.calls && |end.subs| == |st.subs|
    ensures st.file.phase.Submitting? ==> end.file == File(Submitted, Some(found)) && end.subs[i].SIdle?
    ensures !st.file.phase.Submitting? ==> end.file == st.file.(phase := Submitting) && end.subs[i].SCalling?
  {
    RunOne(st, SAcquire(i));
    var s1 := Apply(st, SAcquire(i));
    var s2 := RunSnoc(st, [SAcquire(i)], s1, SDecide(i, found));
    var s3 := RunSnoc(st, [SAcquire(i)] + [SDecide(i, found)], s2, SSnap(i));
    end := RunSnoc(st, [SAcquire(i)] + [SDecide(i, found)] + [SSnap(i)], s3, SCommit(i));
    steps := [SAcquire(i)] + [SDecide(i, found)] + [SSnap(i)] + [SCommit(i)];
  }

  /** A prepared campaign, and one whose last call was rejected, can be submitted: the intent is written before the
      scheduler is called. */
  lemma SubmissionGoesOn(st: State, i: nat) returns (steps: seq<Step>, end: State)
    requires i < |st.subs| && st.subs[i].SIdle? && st.lease.None?
    requires st.file.phase.Prepared? || st.file.phase.Rejected?
    ensures RunFrom(st, steps) == Some(end)
    ensures end.file == st.file.(phase := Submitting) && end.calls == st.calls + [Flying]
  {
    var before, mid := SubmitWrites(st, i, 0);
    end := RunSnoc(st, before, mid, SIssue(i));
    steps := before + [SIssue(i)];
  }

  /** The answer to a call is published: the job id, or the rejection, after which the lease is free again. */
  lemma AnswerGoesOn(st: State, i: nat) returns (steps: seq<Step>, end: State)
    requires i < |st.subs| && st.subs[i].SWaiting? && st.subs[i].c < |st.calls| && !st.calls[st.subs[i].c].Flying?
    ensures RunFrom(st, steps) == Some(end) && end.lease == None
    ensures var call := st.calls[st.subs[i].c];
            end.file == if call.Accepted? then File(Submitted, Some(call.job)) else st.file.(phase := Rejected)
  {
    RunOne(st, SAnswer(i));
    var s1 := Apply(st, SAnswer(i));
    var s2 := RunSnoc(st, [SAnswer(i)], s1, SSnap(i));
    end := RunSnoc(st, [SAnswer(i)] + [SSnap(i)], s2, SCommit(i));
    steps := [SAnswer(i)] + [SSnap(i)] + [SCommit(i)];
  }

  /** After a crash between the scheduler's answer and its publication, the next submit call publishes the job that
      was accepted instead of submitting another. */
  lemma LostAnswerIsRecovered(st: State, i: nat, j: JobId) returns (steps: seq<Step>, end: State)
    requires i < |st.subs| && st.subs[i].SIdle? && st.lease.None?
    requires st.file.phase.Submitting? && IsAccepted(st.calls, j)
    ensures RunFrom(st, steps) == Some(end) && end.file == File(Submitted, Some(j)) && end.calls == st.calls
  {
    steps, end := SubmitWrites(st, i, j);
  }

  /** So does the job itself when it starts before its submission is recorded. */
  lemma EarlyJobBindsItself(st: State, e: nat) returns (steps: seq<Step>, end: State)
    requires e < |st.exes| && st.exes[e].EBinding? && st.file == File(Submitting, None) && st.lease.None?
    ensures RunFrom(st, steps) == Some(end)
    ensures end.file == File(Submitted, Some(st.exes[e].job)) && end.lease == None && end.acquired == st.acquired
    ensures |end.exes| == |st.exes| && end.exes[e] == EBound(st.exes[e].job)
  {
    RunOne(st, ETake(e));
    var s1 := Apply(st, ETake(e));
    var s2 := RunSnoc(st, [ETake(e)], s1, EDecide(e));
    var s3 := RunSnoc(st, [ETake(e)] + [EDecide(e)], s2, ESnap(e));
    end := RunSnoc(st, [ETake(e)] + [EDecide(e)] + [ESnap(e)], s3, ECommit(e));
    steps := [ETake(e)] + [EDecide(e)] + [ESnap(e)] + [ECommit(e)];
  }

  /** And an execution that is bound and finds no acquisition record runs and succeeds. */
  lemma ExecutionGoesOn(st: State, e: nat) returns (steps: seq<Step>, end: State)
    requires e < |st.exes| && st.exes[e].EBound? && !st.acquired
    ensures RunFrom(st, steps) == Some(end) && end.file == st.file.(phase := Succeeded) && end.acquired
  {
    RunOne(st, ECreate(e));
    var s1 := Apply(st, ECreate(e));
    var s2;
    steps, s2 := PublishNext(st, [ECreate(e)], s1, e);
    steps, end := PublishNext(st, steps, s2, e);
  }
}
