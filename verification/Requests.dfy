/** Ownership of MPI buffers: a point-to-point request keeps its buffer until MPI is done with it, and
    one unfinished collective is the last one the process starts. */
module Requests {
  import opened Common

  /** The answer of MPI's `Test`; a garbled transfer is complete, but what it brought is rejected. */
  datatype Answer = Completed | NotYet | Raises | Garbled

  predicate Ends(a: Answer) { a == Completed || a == Garbled }

  /** A posted point-to-point transfer and its buffer. */
  class Request {
    var complete: bool
    ghost var cancelAsked: bool

    constructor ()
      ensures !complete && !cancelAsked
    {
      complete, cancelAsked := false, false;
    }
  }

  datatype Collective = Collective(id: nat)

  /** The process-wide state of the transport. */
  class Transport {
    /** Cancelled transfers that may still be in use. */
    var retained: seq<Request>
    /** The unfinished collective whose buffers are kept until the process ends. */
    var failed: Option<Collective>
    ghost var requests: set<Request>
    ghost var started: seq<Collective>
    ghost var finished: set<Collective>

    /** A transfer whose cancellation was asked for is complete or retained. */
    ghost predicate Transfers()
      reads this, requests
    {
      && (forall r :: r in retained ==> r in requests)
      && Distinct(retained)
      && forall r :: r in requests && r.cancelAsked && !r.complete ==> r in retained
    }

    /** Every collective started is finished, or is the last one and fills the slot. */
    ghost predicate Valid()
      reads this, requests
    {
      && Transfers()
      && (forall c :: c in started ==> c in finished || failed == Some(c))
      && (failed.Some? ==> started != [] && started[|started| - 1] == failed.value)
    }

    constructor ()
      ensures Valid() && retained == [] && failed == None && requests == {} && started == []
    {
      retained, failed, requests, started, finished := [], None, {}, [], {};
    }

    /** Polling a transfer. */
    method Test(r: Request, answer: Answer) returns (complete: bool, raised: bool)
      requires Transfers() && r in requests
      modifies r`complete
      ensures Transfers()
      ensures complete == r.complete == (old(r.complete) || Ends(answer))
      ensures raised <==> !old(r.complete) && (answer == Raises || answer == Garbled)
    {
      if r.complete {
        return true, false;
      }
      if Ends(answer) {
        r.complete := true;
      }
      return r.complete, answer == Raises || answer == Garbled;
    }

    /** Cancelling is only a request: the transfer is retained first and let go only once MPI reports
        it complete, whatever raises in between. */
    method Cancel(r: Request, cancelRaises: bool, answer: Answer) returns (raised: bool)
      requires Transfers() && r in requests
      modifies this`retained, r
      ensures Transfers()
      ensures old(r.complete) ==> retained == old(retained) && r.complete
      ensures r.complete || r in retained
      ensures forall q :: q != r && q in old(retained) ==> q in retained
      ensures r.complete ==> old(r.complete) || (!cancelRaises && Ends(answer) && r !in retained)
    {
      if r.complete {
        return false;
      }
      if r !in retained {
        retained := retained + [r];
      }
      r.cancelAsked := true;
      if cancelRaises || answer == Raises {
        return true;
      }
      if Ends(answer) {
        r.complete := true;
        WithoutKeeps(retained, r);
        retained := Without(retained, r);
      }
      return false;
    }

    /** Cancelling every pending transfer of a failed exchange; what a cancellation raises is ignored. */
    method CancelAll(rs: seq<Request>, raises: nat -> bool, answers: nat -> Answer)
      requires Transfers() && forall i :: 0 <= i < |rs| ==> rs[i] in requests
      modifies this`retained, rs
      ensures Transfers()
      ensures forall i :: 0 <= i < |rs| ==> rs[i].complete || rs[i] in retained
      ensures forall r :: r in old(retained) ==> r in retained || r.complete
    {
      for k := 0 to |rs|
        invariant Transfers()
        invariant forall i :: 0 <= i < k ==> rs[i].complete || rs[i] in retained
        invariant forall r :: r in old(retained) ==> r in retained || r.complete
      {
        var _ := Cancel(rs[k], raises(k), answers(k));
      }
    }

    /** One round of the polling loop over the transfers: it stops at the first that raises. */
    method TestAll(rs: seq<Request>, answers: nat -> Answer) returns (raised: bool, done: bool)
      requires Transfers() && Distinct(rs) && forall i :: 0 <= i < |rs| ==> rs[i] in requests
      modifies rs
      ensures Transfers() && forall i :: 0 <= i < |rs| ==> rs[i].cancelAsked == old(rs[i].cancelAsked)
      ensures raised ==> exists i :: 0 <= i < |rs| && (answers(i) == Raises || answers(i) == Garbled)
      ensures !raised ==> (done <==> forall i :: 0 <= i < |rs| ==> rs[i].complete)
      ensures !raised ==> forall i :: 0 <= i < |rs| && Ends(answers(i)) ==> rs[i].complete
    {
      done := true;
      for k := 0 to |rs|
        invariant Transfers() && forall i :: 0 <= i < |rs| ==> rs[i].cancelAsked == old(rs[i].cancelAsked)
        invariant done <==> forall i :: 0 <= i < k ==> rs[i].complete
        invariant forall i :: 0 <= i < k && Ends(answers(i)) ==> rs[i].complete
      {
        var complete;
        complete, raised := Test(rs[k], answers(k));
        if raised {
          return;
        }
        done := done && complete;
      }
      raised := false;
    }

    /** A nonblocking reduction with the transfers that go along with it, polled until both are done, one
        raises, or the deadline ends the polls. `polls` are MPI's answers about the collective, `answers(k, i)`
        those about transfer `i` in poll `k`. On every way out an unfinished collective fills the slot and
        every unfinished transfer is retained; once the slot is filled nothing more is posted. */
    method Reduce(c: Collective, rs: seq<Request>, polls: seq<Answer>, answers: (nat, nat) -> Answer,
                  cancelRaises: nat -> bool, cancelAnswers: nat -> Answer)
      returns (ok: bool, ghost seen: nat)
      requires Valid() && Distinct(rs) && forall i :: 0 <= i < |rs| ==> rs[i] in requests
      modifies this`failed, this`started, this`finished, this`retained, rs
      ensures Valid() && seen <= |polls|
      ensures old(failed).Some? ==> !ok && seen == 0 && failed == old(failed) && started == old(started)
      ensures old(failed).None? ==>
                && started == old(started) + [c]
                && failed == (if exists k :: 0 <= k < seen && polls[k] == Completed then None else Some(c))
                && (forall i :: 0 <= i < |rs| ==> rs[i].complete || rs[i] in retained)
                && (ok ==> failed.None? && forall i :: 0 <= i < |rs| ==> rs[i].complete)
                && (rs == [] ==> (ok <==> failed.None?))
                && (!ok ==> seen == |polls| || (seen > 0 && RaisesIn(polls[seen - 1], |rs|, In(answers, seen - 1))))
      ensures old(failed).None? && AllAnswered(polls, |rs|, answers) ==> ok
    {
      seen := 0;
      if failed.Some? {
        return false, seen;
      }
      started := started + [c];
      var reducing, pending, raised := true, rs != [], false;
      var k: nat := 0;
      ghost var held := retained;
      while (reducing || pending) && !raised && k < |polls|
        invariant k <= |polls| && started == old(started) + [c] && failed == None && retained == held
        invariant Transfers() && forall d :: d in started ==> d == c || d in finished
        invariant reducing <==> forall j :: 0 <= j < k ==> polls[j] != Completed
        invariant !reducing ==> c in finished
        invariant !pending && !raised ==> forall i :: 0 <= i < |rs| ==> rs[i].complete
        invariant pending && !raised && k > 0 ==> !AllEnd(|rs|, In(answers, k - 1))
        invariant raised ==> reducing || rs != []
        invariant k == 0 ==> reducing
        invariant raised ==> k > 0 && RaisesIn(polls[k - 1], |rs|, In(answers, k - 1))
        decreases |polls| - k
      {
        if reducing {
          if polls[k] == Completed {
            reducing := false;
            finished := finished + {c};
          } else if polls[k] != NotYet {
            raised := true;
          }
        }
        if !raised && pending {
          var done;
          raised, done := TestAll(rs, In(answers, k));
          pending := !done;
        }
        k := k + 1;
      }
      seen := k;
      ok := !reducing && !pending && !raised;
      if reducing {
        failed := Some(c);
      }
      if !ok {
        CancelAll(rs, cancelRaises, cancelAnswers);
      }
    }

    /** Posting the transfers of an exchange. */
    method Post(n: nat) returns (rs: seq<Request>)
      requires Valid()
      modifies this`requests
      ensures Valid() && fresh(rs) && |rs| == n && Distinct(rs) && requests == old(requests) + set r | r in rs
      ensures forall i :: 0 <= i < |rs| ==> !rs[i].complete
    {
      rs := [];
      for k := 0 to n
        invariant Valid() && fresh(rs) && |rs| == k && Distinct(rs) && requests == old(requests) + set r | r in rs
        invariant forall i :: 0 <= i < k ==> !rs[i].complete
      {
        var r := new Request();
        requests := requests + {r};
        rs := rs + [r];
      }
    }

    /** The summary exchange: nothing is posted while a failed collective fills the slot; otherwise `n` transfers
        go along with the reduction, and none of them is ever lost track of. */
    method Exchange(c: Collective, n: nat, polls: seq<Answer>, answers: (nat, nat) -> Answer,
                    cancelRaises: nat -> bool, cancelAnswers: nat -> Answer)
      returns (ok: bool, rs: seq<Request>)
      requires Valid()
      modifies this
      ensures Valid() && fresh(rs) && requests == old(requests) + set r | r in rs
      ensures old(failed).Some? ==> !ok && rs == [] && failed == old(failed) && started == old(started)
      ensures old(failed).None? ==> |rs| == n && started == old(started) + [c]
      ensures forall i :: 0 <= i < |rs| ==> rs[i].complete || rs[i] in retained
      ensures ok ==> failed.None? && forall i :: 0 <= i < |rs| ==> rs[i].complete
    {
      if failed.Some? {
        return false, [];
      }
      rs := Post(n);
      ghost var seen;
      ok, seen := Reduce(c, rs, polls, answers, cancelRaises, cancelAnswers);
    }
  }

  /** The answers of one poll. */
  function In(answers: (nat, nat) -> Answer, k: nat): nat -> Answer { (i: nat) => answers(k, i) }

  ghost predicate AllEnd(n: nat, answers: nat -> Answer) {
    forall i :: 0 <= i < n ==> Ends(answers(i))
  }

  /** MPI reports everything complete by the last poll, and nothing raises. */
  ghost predicate AllAnswered(polls: seq<Answer>, n: nat, answers: (nat, nat) -> Answer) {
    && Completed in polls && AllEnd(n, In(answers, |polls| - 1))
    && forall k :: 0 <= k < |polls| ==> !RaisesIn(polls[k], n, In(answers, k))
  }

  /** Some answer of a poll raises. */
  ghost predicate RaisesIn(poll: Answer, n: nat, answers: nat -> Answer) {
    poll == Raises || poll == Garbled || exists i :: 0 <= i < n && (answers(i) == Raises || answers(i) == Garbled)
  }

  ghost predicate Distinct(rs: seq<Request>) {
    forall i, j :: 0 <= i < j < |rs| ==> rs[i] != rs[j]
  }

  function Without(rs: seq<Request>, r: Request): seq<Request> {
    if rs == [] then [] else if rs[0] == r then rs[1..] else [rs[0]] + Without(rs[1..], r)
  }

  lemma {:induction false} WithoutKeeps(rs: seq<Request>, r: Request)
    requires Distinct(rs)
    ensures forall q :: q in Without(rs, r) <==> q in rs && q != r
    ensures Distinct(Without(rs, r))
  {
    if rs != [] {
      WithoutKeeps(rs[1..], r);
      assert rs == [rs[0]] + rs[1..] && rs[0] !in rs[1..];
      var rest := Without(rs[1..], r);
      assert forall i :: 0 <= i < |rest| ==> rest[i] in rest && rest[i] != rs[0];
    }
  }
}
