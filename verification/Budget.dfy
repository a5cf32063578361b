/** The time budget of an allocation campaign: the walltime demanded up front, the admission test
    before each child, and the graceful-then-forced stop that must end before the parent deadline.
    Times are seconds on the head's monotonic clock, zero when the campaign starts. */
module Budget {
  import opened Common

  const CLEANUP := 900.0
  const FORCE := 30.0

  function Min(a: real, b: real): real { if a <= b then a else b }

  function Max(a: real, b: real): real { if a >= b then a else b }

  /** How long a child may take to clean up after an interrupt. */
  function Grace(watchdog: real): real {
    watchdog + Min(30.0, Max(5.0, watchdog * 0.1))
  }

  /** The test on the campaign's walltime. */
  predicate WalltimeCovers(walltime: real, timeout: real, children: nat) {
    walltime >= Reserve(timeout) * children as real
  }

  /** The test before a child starts. */
  predicate Admitted(timeout: real, deadline: real, started: real, watchdog: real) {
    Min(timeout, deadline - started - Grace(watchdog) - FORCE) >= timeout
  }

  /** The grace given to a child that is stopped at `now`. */
  function StopGrace(watchdog: real, deadline: real, now: real): real {
    Max(0.0, Min(Grace(watchdog), deadline - now - FORCE))
  }

  /** An amount of time within the grace of a watchdog: the watchdog itself and a tenth more, but at least five
      and at most thirty seconds more. */
  predicate WithinGrace(watchdog: real, e: real) {
    e <= watchdog + 30.0 && (e <= watchdog + 5.0 || e <= watchdog + watchdog / 10.0)
  }

  lemma GraceIff(watchdog: real, e: real)
    ensures e <= Grace(watchdog) <==> WithinGrace(watchdog, e)
  {
  }

  /** A stopped child is given its grace, unless the deadline with its forced stop comes before. */
  lemma StopGraceIff(watchdog: real, deadline: real, now: real, e: real)
    ensures StopGrace(watchdog, deadline, now) >= 0.0
    ensures e > 0.0 ==>
              (e <= StopGrace(watchdog, deadline, now) <==> WithinGrace(watchdog, e) && now + e + 30.0 <= deadline)
  {
    GraceIff(watchdog, e);
  }

  /** A child is admitted exactly when its timeout, its grace and the forced stop fit before the deadline. */
  lemma AdmittedMeans(timeout: real, deadline: real, started: real, watchdog: real)
    ensures Admitted(timeout, deadline, started, watchdog) <==>
            var left := deadline - started - timeout - 30.0 - watchdog;
            left >= 30.0 || (left >= 5.0 && left >= watchdog / 10.0)
  {
  }

  // ---------------------------------------------------------------- one child

  /** How an interrupted process ends: it exits after `exits` seconds, if it does; it may leave its
      group behind; and killing takes `kill` seconds. */
  datatype Dying = Dying(exits: Option<real>, leavesGroup: bool, kill: real) {
    predicate Physical() {
      0.0 <= kill <= FORCE && (exits.Some? ==> exits.value >= 0.0)
    }
  }

  /** The graceful-then-forced stop. */
  method OwnedStop(d: Dying, now: real, grace: real) returns (ends: real, clean: bool)
    requires d.Physical() && grace >= 0.0
    ensures now <= ends <= now + grace + FORCE
    ensures clean <==> d.exits.Some? && d.exits.value <= grace && !d.leavesGroup
    ensures clean ==> ends == now + d.exits.value
  {
    if d.exits.None? || d.exits.value > grace {
      return now + grace + d.kill, false;
    }
    if d.leavesGroup {
      return now + d.exits.value + d.kill, false;
    }
    return now + d.exits.value, true;
  }

  /** A child that exits is checked for a group it left behind; one that is stopped fails the campaign; the
      second child of a qualification is interrupted on purpose once it is ready. */
  datatype Outcome =
    | Rejected
    | Exited(at: real, ends: real, clean: bool)
    | Interrupted(at: real, ends: real, clean: bool)
    | Stopped(at: real, ends: real)

  /** What the polling loop sees: the clock, whether the child runs, whether something asks it to stop, and
      whether it is ready. */
  datatype Polls = Polls(clock: nat -> real, running: nat -> bool, cancelled: nat -> bool, ready: nat -> bool)

  /** The clock readings do not go back, and two readings are at most `delay` apart. */
  ghost predicate Clock(clock: nat -> real, started: real, delay: real) {
    started <= clock(0) <= started + delay && forall k: nat :: clock(k) <= clock(k + 1) <= clock(k) + delay
  }

  predicate MustStop(p: Polls, timeout: real, started: real, k: nat) {
    p.cancelled(k) || p.clock(k) - started > timeout
  }

  /** A poll after which the loop goes on: the child runs, is in time, nothing asks it to stop, and it is not yet
      to be interrupted. */
  predicate GoesOn(p: Polls, timeout: real, started: real, planned: bool, k: nat) {
    p.running(k) && !MustStop(p, timeout, started, k) && !(planned && p.ready(k))
  }

  /** Poll `k` is the first that ends the loop. */
  ghost predicate EndsAt(p: Polls, timeout: real, started: real, planned: bool, k: nat) {
    && !GoesOn(p, timeout, started, planned, k)
    && forall j: nat :: j < k ==> GoesOn(p, timeout, started, planned, j)
  }

  /** How the poll that ends the loop decides. */
  ghost predicate Decided(p: Polls, timeout: real, started: real, k: nat, r: Outcome) {
    && !r.Rejected? && r.at == p.clock(k)
    && (r.Exited? <==> !p.running(k))
    && (r.Stopped? <==> p.running(k) && MustStop(p, timeout, started, k))
  }

  /** An interrupted child that leaves no group and exits within `e` seconds ends cleanly whenever these lie within
      its grace and half a minute before the deadline; for a positive `e`, only then. */
  ghost predicate InterruptedWell(d: Dying, watchdog: real, deadline: real, r: Outcome)
    requires r.Interrupted?
  {
    && (r.clean ==> d.exits.Some? && !d.leavesGroup && r.ends == r.at + d.exits.value)
    && (d.exits.Some? && !d.leavesGroup ==>
          var e := d.exits.value;
          && (WithinGrace(watchdog, e) && r.at + e + 30.0 <= deadline ==> r.clean)
          && (e > 0.0 && r.clean ==> WithinGrace(watchdog, e) && r.at + e + 30.0 <= deadline))
  }

  /** Running a child: the admission test, then polling until it exits, is to be stopped or is interrupted as
      planned, and the stop. `zero` says whether its exit code is zero, `last` is a poll by which the loop has
      ended, and the child met its contract if it ended cleanly in the way planned. */
  method RunChild(timeout: real, deadline: real, started: real, watchdog: real, p: Polls, planned: bool,
                  d: Dying, zero: bool, ghost delay: real, ghost last: nat)
    returns (r: Outcome, met: bool)
    requires timeout > 0.0 && watchdog >= 0.0 && delay >= 0.0 && d.Physical()
    requires Clock(p.clock, started, delay)
    requires !GoesOn(p, timeout, started, planned, last)
    ensures r.Rejected? <==> !Admitted(timeout, deadline, started, watchdog)
    ensures r.Interrupted? ==> InterruptedWell(d, watchdog, deadline, r)
    ensures r.Stopped? && d.exits.Some? && !d.leavesGroup ==>
              WithinGrace(watchdog, d.exits.value) && r.at + d.exits.value + 30.0 <= deadline ==>
                r.ends == r.at + d.exits.value
    ensures !r.Rejected? ==>
              exists k: nat :: EndsAt(p, timeout, started, planned, k) && Decided(p, timeout, started, k, r)
    ensures !r.Rejected? ==> r.at <= started + timeout + delay
    ensures r.Exited? ==> r.at <= r.ends <= r.at + FORCE
                          && (r.clean <==> !d.leavesGroup) && (r.clean ==> r.ends == r.at)
    ensures r.Stopped? || r.Interrupted? ==> r.at <= r.ends <= r.at + StopGrace(watchdog, deadline, r.at) + FORCE
    ensures r.Interrupted? ==>
              (r.clean <==> d.exits.Some? && d.exits.value <= StopGrace(watchdog, deadline, r.at) && !d.leavesGroup)
    ensures !r.Rejected? && delay <= Grace(watchdog) ==> r.ends <= deadline
    ensures met <==> if planned then r.Interrupted? && r.clean && !zero else r.Exited? && r.clean && zero
  {
    met := false;
    var budget := Min(timeout, deadline - started - Grace(watchdog) - FORCE);
    if budget < timeout {
      return Rejected, met;
    }
    var k := PollChild(p, timeout, started, planned, delay, last);
    var now := p.clock(k);
    var ends, clean;
    if !p.running(k) {
      ends, clean := OwnedStop(d.(exits := Some(0.0)), now, 0.0);
      r, met := Exited(now, ends, clean), !planned && clean && zero;
    } else {
      ends, clean := OwnedStop(d, now, StopGrace(watchdog, deadline, now));
      if d.exits.Some? { StopGraceIff(watchdog, deadline, now, d.exits.value); }
      if MustStop(p, timeout, started, k) {
        r := Stopped(now, ends);
      } else {
        r, met := Interrupted(now, ends, clean), clean && !zero;
      }
    }
    assert Decided(p, timeout, started, k, r);
  }

  /** The polling loop. */
  method PollChild(p: Polls, timeout: real, started: real, planned: bool, ghost delay: real, ghost last: nat)
    returns (k: nat)
    requires timeout > 0.0 && delay >= 0.0 && Clock(p.clock, started, delay)
    requires !GoesOn(p, timeout, started, planned, last)
    ensures EndsAt(p, timeout, started, planned, k) && p.clock(k) <= started + timeout + delay
  {
    k := 0;
    while GoesOn(p, timeout, started, planned, k)
      invariant k <= last && p.clock(k) <= started + timeout + delay
      invariant forall j: nat :: j < k ==> GoesOn(p, timeout, started, planned, j)
      decreases last - k
    {
      assert p.clock(k + 1) <= p.clock(k) + delay;
      k := k + 1;
    }
  }

  /** A stop that uses all its time ends by the deadline exactly when it began before the last moment
      at which it could still be forced. */
  lemma StopMeetsDeadlineIff(watchdog: real, deadline: real, now: real)
    requires watchdog >= 0.0
    ensures now + StopGrace(watchdog, deadline, now) + FORCE <= deadline <==> now <= deadline - FORCE
  {
  }

  // ---------------------------------------------------------------- all children

  /** A child as the campaign spends time on it: what comes before it, and the child itself. */
  datatype Child = Child(watchdog: real, overhead: real, used: real)

  /** The longest an admitted child can take: its timeout, its grace and the forced stop. */
  function Longest(timeout: real, c: Child): real {
    timeout + Grace(c.watchdog) + FORCE
  }

  ghost predicate Reasonable(timeout: real, children: seq<Child>) {
    forall i :: 0 <= i < |children| ==>
      0.0 <= children[i].watchdog <= CLEANUP && children[i].overhead >= 0.0
      && 0.0 <= children[i].used <= Longest(timeout, children[i])
  }

  function Overheads(children: seq<Child>): real {
    if children == [] then 0.0 else Overheads(children[..|children| - 1]) + children[|children| - 1].overhead
  }

  function Used(children: seq<Child>): real {
    if children == [] then 0.0 else Used(children[..|children| - 1]) + children[|children| - 1].used
  }

  /** The most the children can take together. */
  function AllLongest(timeout: real, children: seq<Child>): real {
    if children == [] then 0.0
    else AllLongest(timeout, children[..|children| - 1]) + Longest(timeout, children[|children| - 1])
  }

  /** When the last of the children starts. */
  function StartOf(children: seq<Child>): real
    requires children != []
  {
    Overheads(children) + Used(children[..|children| - 1])
  }

  lemma {:induction false} UsedAtMost(timeout: real, children: seq<Child>)
    requires Reasonable(timeout, children)
    ensures Used(children) <= AllLongest(timeout, children)
  {
    if children != [] { UsedAtMost(timeout, children[..|children| - 1]); }
  }

  function Reserve(timeout: real): real { timeout + CLEANUP + 2.0 * FORCE }

  /** What the reserves of the children exceed their longest times by. */
  function Spare(children: seq<Child>): real {
    if children == [] then 0.0
    else Spare(children[..|children| - 1]) + (CLEANUP + FORCE - Grace(children[|children| - 1].watchdog))
  }

  lemma {:induction false} ReserveIsLongestAndSpare(timeout: real, children: seq<Child>)
    requires Reasonable(timeout, children)
    ensures Spare(children) >= 0.0
    ensures AllLongest(timeout, children) + Spare(children) == Reserve(timeout) * |children| as real
  {
    if children != [] {
      ReserveIsLongestAndSpare(timeout, children[..|children| - 1]);
      MulNext(Reserve(timeout), |children| - 1);
    }
  }

  lemma MulNext(r: real, n: int)
    ensures r * (n + 1) as real == r * n as real + r
  {
  }

  /** The overhead that still leaves room for the last of some children, all taking their longest. */
  function Slack(timeout: real, walltime: real, children: seq<Child>): real {
    walltime - AllLongest(timeout, children)
  }

  /** When the earlier children take their longest, the next is admitted if and only if the overhead so
      far fits the slack. */
  lemma AdmittedIff(timeout: real, walltime: real, children: seq<Child>)
    requires children != [] && Reasonable(timeout, children)
    requires Used(children[..|children| - 1]) == AllLongest(timeout, children[..|children| - 1])
    ensures Admitted(timeout, walltime, StartOf(children), children[|children| - 1].watchdog)
            <==> Overheads(children) <= Slack(timeout, walltime, children)
  {
  }

  /** With watchdogs at their maximum the reserves leave nothing over: a campaign with exactly the walltime
      demanded, whose earlier children take their longest, rejects its last child after any overhead. */
  lemma {:induction false} NoSpareAtMaximum(children: seq<Child>)
    requires forall i :: 0 <= i < |children| ==> children[i].watchdog == CLEANUP
    ensures Spare(children) == 0.0
  {
    if children != [] { NoSpareAtMaximum(children[..|children| - 1]); }
  }

  lemma LastChildRejected(timeout: real, children: seq<Child>)
    requires children != [] && Reasonable(timeout, children)
    requires forall i :: 0 <= i < |children| ==> children[i].watchdog == CLEANUP
    requires Used(children[..|children| - 1]) == AllLongest(timeout, children[..|children| - 1])
    ensures var walltime := Reserve(timeout) * |children| as real;
            && WalltimeCovers(walltime, timeout, |children|)
            && (Admitted(timeout, walltime, StartOf(children), CLEANUP) <==> Overheads(children) <= 0.0)
  {
    var walltime := Reserve(timeout) * |children| as real;
    NoSpareAtMaximum(children);
    ReserveIsLongestAndSpare(timeout, children);
    AdmittedIff(timeout, walltime, children);
  }

  /** The overhead before child `k` fits the reserves not needed by the children before it: those of
      the children after it, and what the longest times leave over. */
  ghost predicate FitsReserve(timeout: real, children: seq<Child>, k: nat)
    requires k < |children|
  {
    Overheads(children[..k + 1]) <= Reserve(timeout) * (|children| - (k + 1)) as real + Spare(children[..k + 1])
  }

  lemma ReserveFitsSlack(timeout: real, walltime: real, children: seq<Child>, k: nat)
    requires k < |children| && Reasonable(timeout, children) && WalltimeCovers(walltime, timeout, |children|)
    requires FitsReserve(timeout, children, k)
    ensures Overheads(children[..k + 1]) <= Slack(timeout, walltime, children[..k + 1])
  {
    ReserveIsLongestAndSpare(timeout, children[..k + 1]);
    Distribute(Reserve(timeout), |children| - (k + 1), k + 1);
  }

  lemma Distribute(r: real, a: int, b: int)
    ensures r * (a + b) as real == r * a as real + r * b as real
  {
  }

  /** Each of the first `n` children is admitted when the time before it has been spent. */
  ghost predicate AllAdmitted(timeout: real, walltime: real, children: seq<Child>, n: nat)
    requires n <= |children|
  {
    forall i :: 0 <= i < n ==> Admitted(timeout, walltime, StartOf(children[..i + 1]), children[i].watchdog)
  }

  lemma SpentNext(children: seq<Child>, i: nat)
    requires i < |children|
    ensures StartOf(children[..i + 1]) == Overheads(children[..i]) + Used(children[..i]) + children[i].overhead
    ensures Overheads(children[..i + 1]) + Used(children[..i + 1]) == StartOf(children[..i + 1]) + children[i].used
  {
    assert children[..i + 1][..i] == children[..i];
  }

  /** A child that is not admitted comes after more overhead than fits. */
  lemma RejectedOverSlack(timeout: real, walltime: real, children: seq<Child>, i: nat)
    requires i < |children| && Reasonable(timeout, children)
    requires !Admitted(timeout, walltime, StartOf(children[..i + 1]), children[i].watchdog)
    ensures Overheads(children[..i + 1]) > Slack(timeout, walltime, children[..i + 1])
    ensures !WalltimeCovers(walltime, timeout, |children|) || !FitsReserve(timeout, children, i)
  {
    assert children[..i + 1][..i] == children[..i];
    UsedAtMost(timeout, children[..i]);
    if WalltimeCovers(walltime, timeout, |children|) && FitsReserve(timeout, children, i) {
      ReserveFitsSlack(timeout, walltime, children, i);
    }
  }

  /** The campaign loop over the children; the result is the number admitted. A campaign whose walltime
      was accepted admits every child while the overhead fits the reserve. */
  method RunCampaign(timeout: real, walltime: real, children: seq<Child>) returns (admitted: nat)
    requires timeout > 0.0 && Reasonable(timeout, children)
    ensures admitted <= |children| && AllAdmitted(timeout, walltime, children, admitted)
    ensures admitted < |children| ==>
              Overheads(children[..admitted + 1]) > Slack(timeout, walltime, children[..admitted + 1])
    ensures WalltimeCovers(walltime, timeout, |children|)
            && (forall k :: 0 <= k < |children| ==> FitsReserve(timeout, children, k))
            ==> admitted == |children|
  {
    var now := 0.0;
    for i := 0 to |children|
      invariant now == Overheads(children[..i]) + Used(children[..i])
      invariant AllAdmitted(timeout, walltime, children, i)
    {
      var c := children[i];
      SpentNext(children, i);
      now := now + c.overhead;
      if !Admitted(timeout, walltime, now, c.watchdog) {
        RejectedOverSlack(timeout, walltime, children, i);
        return i;
      }
      now := now + c.used;
    }
    return |children|;
  }

  /** For example, two children of 100 seconds with watchdogs of 900 seconds need a walltime of 2120 seconds. One
      second of overhead before each is then too much for the second, if the first takes its longest. */
  lemma SecondChildRejected()
    ensures var c := Child(900.0, 1.0, 1060.0);
            && Reasonable(100.0, [c, c]) && c.used == Longest(100.0, c) && WalltimeCovers(2120.0, 100.0, 2)
            && Admitted(100.0, 2120.0, StartOf([c]), c.watchdog)
            && !Admitted(100.0, 2120.0, StartOf([c, c]), c.watchdog)
  {
    var c := Child(900.0, 1.0, 1060.0);
    var one, two := [c], [c, c];
    assert two[..1] == one && one[..0] == [] && two[1] == one[0] == c;
    assert Used(one) == Used(one[..0]) + one[0].used;
    assert Overheads(one) == Overheads(one[..0]) + one[0].overhead;
    assert Overheads(two) == Overheads(two[..1]) + two[1].overhead;
  }
}
