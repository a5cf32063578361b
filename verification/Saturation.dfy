/** The saturation search: a doubling probe for an unhealthy rate, then bisection, written once in Go
    and once in Python. A measurement is an answer of `ask`, which may depend on when it is asked. */
module Saturation {
  import opened Common

  datatype Step = Step(rate: int, healthy: bool)

  type Ask = (nat, int) -> bool

  const MAX_CEILING_PROBES := 30

  function Pow2(n: nat): int {
    if n == 0 then 1 else 2 * Pow2(n - 1)
  }

  /** The rate after `n` doublings. */
  function Doubling(initial: int, n: nat): int {
    if n == 0 then initial else 2 * Doubling(initial, n - 1)
  }

  /** The stopping test of the bisection. */
  predicate Converged(lo: int, hi: int, tol: real)
    requires hi > 0
  {
    (hi - lo) as real / hi as real <= tol
  }

  /** The bracket is within the tolerance of its upper end, or holds no rate in between. */
  ghost predicate CloseEnough(lo: int, hi: int, tol: real) {
    (hi - lo) as real <= tol * hi as real || hi - lo <= 1
  }

  lemma ConvergedIff(lo: int, hi: int, tol: real)
    requires hi > 0
    ensures Converged(lo, hi, tol) <==> (hi - lo) as real <= tol * hi as real
  {
    var d, z := (hi - lo) as real, hi as real;
    var q := d / z;
    assert d == q * z;
    if q <= tol {
      MulMonotone(z, q, tol);
      assert z * q == q * z && z * tol == tol * z;
    } else {
      PositiveProduct(z, q - tol);
      Spread(z, tol, q);
      assert z * q == q * z && z * tol == tol * z;
    }
  }

  function Mid(lo: int, hi: int): int { (lo + hi) / 2 }

  /** The midpoint is strictly inside the bracket exactly when the bisection goes on. */
  lemma GoesOnIff(lo: int, hi: int, tol: real)
    requires 0 <= lo && 0 < hi && 0.0 < tol
    ensures Converged(lo, hi, tol) || Mid(lo, hi) == lo <==> CloseEnough(lo, hi, tol)
  {
    ConvergedIff(lo, hi, tol);
    if hi <= lo { CrossedConverges(lo, hi); }
  }

  /** The uncancelled bisection from a bracket, continuing a list of steps. */
  function Bisected(ask: Ask, tol: real, steps: seq<Step>, lo: int, hi: int): (seq<Step>, int)
    requires 0 <= lo && 0 < hi && 0.0 < tol
    decreases if hi > lo then hi - lo else 0
  {
    if Converged(lo, hi, tol) || Mid(lo, hi) == lo then (steps, lo)
    else
      var mid := Mid(lo, hi);
      BracketShrinks(lo, hi, tol);
      var h := ask(|steps|, mid);
      Bisected(ask, tol, steps + [Step(mid, h)], if h then mid else lo, if h then hi else mid)
  }

  lemma BracketShrinks(lo: int, hi: int, tol: real)
    requires 0 <= lo && 0 < hi && 0.0 < tol && !Converged(lo, hi, tol) && Mid(lo, hi) != lo
    ensures lo < Mid(lo, hi) < hi
  {
    if hi <= lo {
      CrossedConverges(lo, hi);
    }
  }

  lemma CrossedConverges(lo: int, hi: int)
    requires 0 < hi <= lo
    ensures (hi - lo) as real / hi as real <= 0.0
  {
  }

  /** Bisection stops where the bracket is close enough; otherwise it next measures the middle of the bracket and
      goes on with the half this leaves. */
  lemma BisectedStops(ask: Ask, tol: real, steps: seq<Step>, lo: int, hi: int) returns (mid: int, h: bool)
    requires 0 <= lo && 0 < hi && 0.0 < tol
    ensures CloseEnough(lo, hi, tol) ==> Bisected(ask, tol, steps, lo, hi) == (steps, lo)
    ensures !CloseEnough(lo, hi, tol) ==> lo < mid < hi && 2 * mid <= lo + hi <= 2 * mid + 1 && h == ask(|steps|, mid)
    ensures !CloseEnough(lo, hi, tol) ==>
              Bisected(ask, tol, steps, lo, hi)
              == Bisected(ask, tol, steps + [Step(mid, h)], if h then mid else lo, if h then hi else mid)
  {
    mid := Mid(lo, hi);
    h := ask(|steps|, mid);
    GoesOnIff(lo, hi, tol);
    if !CloseEnough(lo, hi, tol) { BracketShrinks(lo, hi, tol); }
  }

  /** What a search has learnt: tests lie within the start bracket, and the current bracket separates
      the rates tested healthy from the rates tested unhealthy. */
  ghost predicate Bracket(tests: seq<Step>, lo0: int, hi0: int, lo: int, hi: int) {
    && lo0 <= lo && hi <= hi0
    && (forall i :: 0 <= i < |tests| ==> lo0 < tests[i].rate < hi0)
    && (forall i :: 0 <= i < |tests| && tests[i].healthy ==> tests[i].rate <= lo)
    && (forall i :: 0 <= i < |tests| && !tests[i].healthy ==> hi <= tests[i].rate)
    && (lo != lo0 ==> Step(lo, true) in tests)
    && (hi != hi0 ==> Step(hi, false) in tests)
  }

  /** Every rate measured healthy is at most `lo`, every one measured unhealthy at least `hi`. */
  ghost predicate Separates(steps: seq<Step>, lo: int, hi: int) {
    && (forall i :: 0 <= i < |steps| && steps[i].healthy ==> steps[i].rate <= lo)
    && (forall i :: 0 <= i < |steps| && !steps[i].healthy ==> hi <= steps[i].rate)
  }

  ghost predicate Truthful(ask: Ask, steps: seq<Step>) {
    forall i :: 0 <= i < |steps| ==> steps[i].healthy == ask(i, steps[i].rate)
  }

  /** One more measurement inside the bracket. */
  lemma BracketNext(before: seq<Step>, steps: seq<Step>, lo0: int, hi0: int, lo: int, hi: int, mid: int, healthy: bool)
    requires before <= steps && Bracket(steps[|before|..], lo0, hi0, lo, hi) && lo < mid < hi
    ensures Bracket((steps + [Step(mid, healthy)])[|before|..], lo0, hi0,
                    if healthy then mid else lo, if healthy then hi else mid)
  {
    var tests := steps[|before|..];
    var more := tests + [Step(mid, healthy)];
    assert (steps + [Step(mid, healthy)])[|before|..] == more;
    assert more[|tests|] == Step(mid, healthy);
    assert forall s :: s in tests ==> s in more;
  }

  /** The bisection after some measurements. */
  ghost predicate Bisecting(ask: Ask, tol: real, before: seq<Step>, lo0: int, hi0: int,
                            steps: seq<Step>, lo: int, hi: int)
    requires 0 <= lo0 && 0 < hi0 && 0.0 < tol
  {
    && 0 <= lo && 0 < hi && (lo0 < hi0 ==> lo < hi)
    && before <= steps && Truthful(ask, steps) && Bracket(steps[|before|..], lo0, hi0, lo, hi)
    && Bisected(ask, tol, before, lo0, hi0) == Bisected(ask, tol, steps, lo, hi)
  }

  lemma BisectingNext(ask: Ask, tol: real, before: seq<Step>, lo0: int, hi0: int, steps: seq<Step>, lo: int, hi: int)
    requires 0 <= lo0 && 0 < hi0 && 0.0 < tol && Bisecting(ask, tol, before, lo0, hi0, steps, lo, hi)
    requires !Converged(lo, hi, tol) && Mid(lo, hi) != lo
    ensures var mid := Mid(lo, hi);
            var healthy := ask(|steps|, mid);
            && lo < mid < hi
            && Bisecting(ask, tol, before, lo0, hi0, steps + [Step(mid, healthy)],
                         if healthy then mid else lo, if healthy then hi else mid)
  {
    BracketShrinks(lo, hi, tol);
    var mid := Mid(lo, hi);
    BracketNext(before, steps, lo0, hi0, lo, hi, mid, ask(|steps|, mid));
  }

  /** Phase 2, the loop both programs share. `cancelled(k)` says whether the context is done when the
      loop head is reached after k measurements. */
  method Bisect(ask: Ask, tol: real, cancelled: nat -> bool, before: seq<Step>, lo0: int, hi0: int)
    returns (steps: seq<Step>, lo: int, hi: int)
    requires 0 <= lo0 && 0 < hi0 && 0.0 < tol
    requires Truthful(ask, before)
    ensures before <= steps && Truthful(ask, steps)
    ensures Bracket(steps[|before|..], lo0, hi0, lo, hi)
    ensures lo0 < hi0 ==> lo < hi
    ensures hi > 0 && (cancelled(|steps|) || CloseEnough(lo, hi, tol))
    ensures (forall k :: !cancelled(k)) ==> (steps, lo) == Bisected(ask, tol, before, lo0, hi0)
  {
    steps, lo, hi := before, lo0, hi0;
    while true
      invariant Bisecting(ask, tol, before, lo0, hi0, steps, lo, hi)
      decreases if hi > lo then hi - lo else 0
    {
      if cancelled(|steps|) {
        break;
      }
      if Converged(lo, hi, tol) {
        break;
      }
      var mid := Mid(lo, hi);
      if mid == lo {
        break;
      }
      BisectingNext(ask, tol, before, lo0, hi0, steps, lo, hi);
      var healthy := ask(|steps|, mid);
      steps := steps + [Step(mid, healthy)];
      if healthy {
        lo := mid;
      } else {
        hi := mid;
      }
    }
    GoesOnIff(lo, hi, tol);
  }

  // ---------------------------------------------------------------- phase 1

  /** The k-th doubling is the first one measured unhealthy. */
  ghost predicate FirstFailure(ask: Ask, initial: int, k: nat) {
    !ask(k, Doubling(initial, k)) && forall i :: 0 <= i < k ==> ask(i, Doubling(initial, i))
  }

  /** The probes up to and including doubling `k`. */
  function Probes(ask: Ask, initial: int, n: nat): seq<Step> {
    seq(n, i requires 0 <= i < n => Step(Doubling(initial, i), ask(i, Doubling(initial, i))))
  }

  /** The bracket a failed probe leaves: half the rate when it was the first. */
  function LowAfter(initial: int, k: nat): int {
    if k == 0 then initial / 2 else Doubling(initial, k - 1)
  }

  lemma {:induction false} DoublingPositive(initial: int, n: nat)
    requires initial > 0
    ensures Doubling(initial, n) > 0
  {
    if n > 0 { DoublingPositive(initial, n - 1); }
  }

  /** The lower end is exactly half the failing rate. */
  lemma LowIsHalf(initial: int, k: nat)
    requires initial > 0
    ensures LowAfter(initial, k) == Doubling(initial, k) / 2
    ensures 0 <= LowAfter(initial, k) < Doubling(initial, k)
  {
    if k > 0 { DoublingPositive(initial, k - 1); }
  }

  lemma {:induction false} DoublingGrows(initial: int, m: nat, n: nat)
    requires initial > 0 && m <= n
    ensures Doubling(initial, m) <= Doubling(initial, n)
  {
    if m < n {
      DoublingGrows(initial, m, n - 1);
      DoublingPositive(initial, n - 1);
    }
  }

  /** The probes up to the first failure lie on the right sides of the bracket it leaves. */
  lemma ProbesSeparate(ask: Ask, initial: int, k: nat)
    requires initial > 0 && FirstFailure(ask, initial, k)
    ensures Separates(Probes(ask, initial, k + 1), LowAfter(initial, k), Doubling(initial, k))
  {
    var steps := Probes(ask, initial, k + 1);
    forall i | 0 <= i < |steps|
      ensures steps[i].healthy ==> steps[i].rate <= LowAfter(initial, k)
      ensures !steps[i].healthy ==> Doubling(initial, k) <= steps[i].rate
    {
      if i < k { DoublingGrows(initial, i, k - 1); }
    }
  }

  lemma NextProbe(ask: Ask, initial: int, k: nat)
    ensures Probes(ask, initial, k + 1)
            == Probes(ask, initial, k) + [Step(Doubling(initial, k), ask(k, Doubling(initial, k)))]
  {
  }

  /** The first n doublings were all measured healthy. */
  ghost predicate HealthyUntil(ask: Ask, initial: int, n: nat) {
    forall i :: 0 <= i < n ==> ask(i, Doubling(initial, i))
  }

  function LastHealthy(initial: int, n: nat): int { if n == 0 then 0 else Doubling(initial, n - 1) }

  /** The Go ceiling probe. It doubles until a rate fails or the context is done; `limit` is a probe at
      which one of the two happens. */
  method ProbeCeiling(ask: Ask, initial: int, cancelled: nat -> bool, ghost limit: nat)
    returns (steps: seq<Step>, lo: int, hi: int, lastHealthy: int, ghost k: nat)
    requires initial > 0 && (cancelled(limit) || !ask(limit, Doubling(initial, limit)))
    ensures hi <= 0 ==> cancelled(|steps|) && steps == Probes(ask, initial, k) && HealthyUntil(ask, initial, k)
                        && lastHealthy == LastHealthy(initial, k)
    ensures hi > 0 ==> FirstFailure(ask, initial, k) && steps == Probes(ask, initial, k + 1)
                       && lo == LowAfter(initial, k) && hi == Doubling(initial, k)
  {
    steps, lo, hi, lastHealthy, k := [], initial, 0, 0, 0;
    var probe := initial;
    while true
      invariant k <= limit && steps == Probes(ask, initial, k) && probe == Doubling(initial, k)
      invariant HealthyUntil(ask, initial, k) && lastHealthy == LastHealthy(initial, k)
      decreases limit - k
    {
      if cancelled(|steps|) {
        return;
      }
      var healthy := ask(|steps|, probe);
      NextProbe(ask, initial, k);
      LowIsHalf(initial, k);
      steps := steps + [Step(probe, healthy)];
      if !healthy {
        hi := probe;
        lo := lastHealthy;
        if lo == 0 {
          lo := probe / 2;
        }
        return;
      }
      lastHealthy := probe;
      probe := probe * 2;
      k := k + 1;
    }
  }

  /** Where a search ends: the upper end separates the measurements and is close, unless it was stopped. */
  ghost predicate Settled(steps: seq<Step>, rate: int, upper: int, tol: real, stopped: bool) {
    && upper > 0 && Separates(steps, rate, upper)
    && (stopped || CloseEnough(rate, upper, tol))
  }

  /** The Go search without a given ceiling. */
  method SearchUp(ask: Ask, initial: int, tol: real, cancelled: nat -> bool, ghost limit: nat)
    returns (steps: seq<Step>, rate: int, ghost upper: int)
    requires initial > 0 && 0.0 < tol < 1.0
    requires cancelled(limit) || !ask(limit, Doubling(initial, limit))
    ensures Truthful(ask, steps)
    ensures Step(rate, true) in steps || rate == (if steps != [] && !steps[0].healthy then initial / 2 else 0)
    ensures upper <= 0 ==> cancelled(|steps|) && forall i :: 0 <= i < |steps| ==> steps[i].healthy
    ensures upper > 0 ==> Settled(steps, rate, upper, tol, cancelled(|steps|)) && Step(upper, false) in steps
    ensures forall k: nat :: (forall c :: !cancelled(c)) && FirstFailure(ask, initial, k) ==>
              (steps, rate) == Searched(ask, initial, tol, k)
  {
    var before, lo0, hi0, lastHealthy, k := ProbeCeiling(ask, initial, cancelled, limit);
    if hi0 <= 0 {
      assert k > 0 ==> before[k - 1] == Step(lastHealthy, true);
      return before, lastHealthy, hi0;
    }
    LowIsHalf(initial, k);
    OneFailure(ask, initial, k);
    ProbesSeparate(ask, initial, k);
    assert before[k] == Step(hi0, false) && before[0].healthy == (k > 0);
    assert k > 0 ==> before[k - 1] == Step(lo0, true);
    steps, rate, upper := Bisect(ask, tol, cancelled, before, lo0, hi0);
    BracketSeparates(before, steps, lo0, hi0, rate, upper);
  }

  /** The Go search. */
  method BinarySearch(ask: Ask, initial: int, maxRate: int, tol: real, cancelled: nat -> bool, ghost limit: nat)
    returns (steps: seq<Step>, rate: int, ghost start: int, ghost upper: int)
    requires initial > 0 && 0.0 < tol < 1.0
    requires maxRate <= 0 ==> cancelled(limit) || !ask(limit, Doubling(initial, limit))
    ensures Truthful(ask, steps)
    ensures Step(rate, true) in steps || rate == start
    ensures start == (if maxRate > 0 then initial else if steps != [] && !steps[0].healthy then initial / 2 else 0)
    ensures upper <= 0 ==> maxRate <= 0 && cancelled(|steps|) && forall i :: 0 <= i < |steps| ==> steps[i].healthy
    ensures upper > 0 ==> Settled(steps, rate, upper, tol, cancelled(|steps|))
                          && (upper == maxRate || Step(upper, false) in steps)
    ensures (forall k :: !cancelled(k)) && maxRate > 0 ==> (steps, rate) == Bisected(ask, tol, [], initial, maxRate)
    ensures forall k: nat :: (forall c :: !cancelled(c)) && maxRate <= 0 && FirstFailure(ask, initial, k) ==>
              (steps, rate) == Searched(ask, initial, tol, k)
  {
    if maxRate <= 0 {
      steps, rate, upper := SearchUp(ask, initial, tol, cancelled, limit);
      start := if steps != [] && !steps[0].healthy then initial / 2 else 0;
    } else {
      steps, rate, upper := Bisect(ask, tol, cancelled, [], initial, maxRate);
      start := initial;
      BracketSeparates([], steps, initial, maxRate, rate, upper);
    }
  }

  lemma BracketSeparates(before: seq<Step>, steps: seq<Step>, lo0: int, hi0: int, lo: int, hi: int)
    requires before <= steps && Separates(before, lo0, hi0) && Bracket(steps[|before|..], lo0, hi0, lo, hi)
    ensures Separates(steps, lo, hi)
    ensures lo != lo0 ==> Step(lo, true) in steps
    ensures hi != hi0 ==> Step(hi, false) in steps
    ensures forall s :: s in before ==> s in steps
  {
    var tests := steps[|before|..];
    assert steps == before + tests;
    forall i | 0 <= i < |steps|
      ensures steps[i].healthy ==> steps[i].rate <= lo
      ensures !steps[i].healthy ==> hi <= steps[i].rate
    {
      if i < |before| { assert steps[i] == before[i]; } else { assert steps[i] == tests[i - |before|]; }
    }
  }

  /** The whole uncancelled search after a first failure at doubling `k`. */
  ghost function Searched(ask: Ask, initial: int, tol: real, k: nat): (seq<Step>, int)
    requires initial > 0 && 0.0 < tol
  {
    LowIsHalf(initial, k);
    Bisected(ask, tol, Probes(ask, initial, k + 1), LowAfter(initial, k), Doubling(initial, k))
  }

  lemma OneFailure(ask: Ask, initial: int, k: nat)
    requires FirstFailure(ask, initial, k)
    ensures forall j :: FirstFailure(ask, initial, j) ==> j == k
  {
  }

  /** The Python search. Its probe gives up after thirty healthy doublings. */
  method RunSaturationMulti(ask: Ask, initial: int, maxRate: int, tol: real)
    returns (r: Option<(seq<Step>, int)>)
    requires initial > 0 && 0.0 < tol < 1.0
    ensures maxRate > 0 ==> r == Some(Bisected(ask, tol, [], initial, maxRate))
    ensures maxRate <= 0 && (forall i :: 0 <= i < MAX_CEILING_PROBES ==> ask(i, Doubling(initial, i))) ==> r == None
    ensures forall k: nat :: maxRate <= 0 && FirstFailure(ask, initial, k) ==>
              r == if k < MAX_CEILING_PROBES then Some(Searched(ask, initial, tol, k)) else None
    ensures r.Some? ==> exists upper :: Settled(r.value.0, r.value.1, upper, tol, false)
  {
    var lo, hi := initial, maxRate;
    var steps: seq<Step> := [];
    if hi <= 0 {
      var rate, lastHealthy := lo, 0;
      var probes := 0;
      while probes < MAX_CEILING_PROBES
        invariant probes <= MAX_CEILING_PROBES
        invariant |steps| == probes && steps == Probes(ask, initial, probes) && rate == Doubling(initial, probes)
        invariant forall i :: 0 <= i < probes ==> ask(i, Doubling(initial, i))
        invariant lastHealthy == (if probes == 0 then 0 else Doubling(initial, probes - 1))
      {
        var healthy := ask(|steps|, rate);
        NextProbe(ask, initial, probes);
        LowIsHalf(initial, probes);
        steps := steps + [Step(rate, healthy)];
        if !healthy {
          hi := rate;
          lo := if lastHealthy > 0 then lastHealthy else rate / 2;
          break;
        }
        lastHealthy := rate;
        rate := rate * 2;
        probes := probes + 1;
      }
      if probes == MAX_CEILING_PROBES {
        return None;
      }
      assert FirstFailure(ask, initial, probes) && lo == LowAfter(initial, probes);
      OneFailure(ask, initial, probes);
      ProbesSeparate(ask, initial, probes);
    }
    ghost var before := steps;
    var lo1, hi1;
    steps, lo1, hi1 := Bisect(ask, tol, _ => false, steps, lo, hi);
    BracketSeparates(before, steps, lo, hi, lo1, hi1);
    assert Settled(steps, lo1, hi1, tol, false);
    return Some((steps, lo1));
  }

  // ---------------------------------------------------------------- agreement

  /** For the same measurements and no cancellation the two programs visit the same rates and return
      the same answer, unless the first unhealthy doubling lies beyond the thirty the Python search
      tries; then only the Go search answers. */
  method SearchBoth(ask: Ask, initial: int, maxRate: int, tol: real, ghost k: nat)
    returns (goSteps: seq<Step>, goRate: int, py: Option<(seq<Step>, int)>)
    requires initial > 0 && 0.0 < tol < 1.0
    requires maxRate <= 0 ==> FirstFailure(ask, initial, k)
    ensures (goSteps, goRate)
            == if maxRate > 0 then Bisected(ask, tol, [], initial, maxRate) else Searched(ask, initial, tol, k)
    ensures py == if maxRate > 0 || k < MAX_CEILING_PROBES then Some((goSteps, goRate)) else None
  {
    ghost var start, upper;
    goSteps, goRate, start, upper := BinarySearch(ask, initial, maxRate, tol, _ => false, k);
    py := RunSaturationMulti(ask, initial, maxRate, tol);
  }

  // ---------------------------------------------------------------- is the answer healthy?

  /** A server that copes with a rate copes with every lower one. */
  ghost predicate DownwardClosed(ok: int -> bool) {
    forall a, b :: a <= b && ok(b) ==> ok(a)
  }

  /** Measurements of such a server, whenever they are made. */
  function Steady(ok: int -> bool): Ask { (k: nat, rate: int) => ok(rate) }

  /** Bisection answers with a healthy rate exactly when it started from one: an untested lower end that is
      already too high is returned as it stands. */
  lemma {:induction false} BisectedHealthyIff(ok: int -> bool, tol: real, steps: seq<Step>, lo: int, hi: int)
    requires DownwardClosed(ok) && 0 <= lo && 0 < hi && 0.0 < tol
    ensures ok(Bisected(Steady(ok), tol, steps, lo, hi).1) <==> ok(lo)
    decreases if hi > lo then hi - lo else 0
  {
    if !(Converged(lo, hi, tol) || Mid(lo, hi) == lo) {
      BracketShrinks(lo, hi, tol);
      var mid := Mid(lo, hi);
      var h := Steady(ok)(|steps|, mid);
      BisectedHealthyIff(ok, tol, steps + [Step(mid, h)], if h then mid else lo, if h then hi else mid);
    }
  }

  lemma SearchedHealthyIff(ok: int -> bool, initial: int, tol: real, k: nat)
    requires DownwardClosed(ok) && initial > 0 && 0.0 < tol && FirstFailure(Steady(ok), initial, k)
    ensures ok(Searched(Steady(ok), initial, tol, k).1) <==> ok(initial / 2)
  {
    LowIsHalf(initial, k);
    BisectedHealthyIff(ok, tol, Probes(Steady(ok), initial, k + 1), LowAfter(initial, k), Doubling(initial, k));
    if k > 0 {
      assert Steady(ok)(0, Doubling(initial, 0)) && Steady(ok)(k - 1, Doubling(initial, k - 1));
      assert Doubling(initial, 0) == initial;
    }
  }

  /** Whether the answer of either program is healthy depends on one rate that the search may never have
      tested: the initial rate under a given ceiling, and half of it otherwise. */
  method SearchServer(ok: int -> bool, initial: int, maxRate: int, tol: real, ghost k: nat)
    returns (go: int, py: Option<(seq<Step>, int)>)
    requires DownwardClosed(ok) && initial > 0 && 0.0 < tol < 1.0
    requires maxRate <= 0 ==> FirstFailure(Steady(ok), initial, k)
    ensures ok(go) <==> ok(if maxRate > 0 then initial else initial / 2)
    ensures py.Some? ==> (ok(py.value.1) <==> ok(if maxRate > 0 then initial else initial / 2))
    ensures py.None? <==> maxRate <= 0 && k >= MAX_CEILING_PROBES
  {
    var steps;
    steps, go, py := SearchBoth(Steady(ok), initial, maxRate, tol, k);
    if maxRate > 0 {
      BisectedHealthyIff(ok, tol, [], initial, maxRate);
    } else {
      SearchedHealthyIff(ok, initial, tol, k);
    }
  }

  /** For example, a server that copes with ten requests per second, first asked for a hundred, is
      reported to cope with fifty. */
  lemma UnhealthyAnswer()
    ensures var ok := (k: nat, rate: int) => rate <= 10;
            FirstFailure(ok, 100, 0) && Searched(ok, 100, 0.5, 0).1 == 50 && !ok(0, 50)
  {
    var ok := (k: nat, rate: int) => rate <= 10;
    assert Doubling(100, 0) == 100 && LowAfter(100, 0) == 50;
    assert Converged(50, 100, 0.5);
  }

  // ---------------------------------------------------------------- cost

  /** A bracket of width d needs at most n halvings to come within `tol` of a rate at least as large
      as the first width. */
  lemma WidthTooSmall(d: int, d0: int, hi: int, tol: real, n: nat)
    requires n >= 1 && d >= 2 && (d - 1) * Pow2(n) <= d0 - 1 && 0 < d0 <= hi
    requires Pow2(n - 1) as real * tol >= 1.0 && tol > 0.0
    ensures d as real / hi as real <= tol
  {
    var p := Pow2(n - 1);
    Pow2Positive(n - 1);
    assert d * p <= (d - 1) * Pow2(n) by {
      assert (d - 1) * (2 * p) - d * p == (d - 2) * p;
      assert (d - 2) * p >= 0;
    }
    assert d * p < d0 <= hi;
    RatioBound(d, p, hi, tol);
  }

  lemma RatioBound(d: int, p: int, hi: int, tol: real)
    requires d > 0 && p > 0 && d * p <= hi && p as real * tol >= 1.0 && tol > 0.0
    ensures d as real / hi as real <= tol
  {
    var x, y, z := d as real, p as real, hi as real;
    assert x * y == (d * p) as real <= z;
    MulMonotone(tol, x * y, z);
    MulMonotone(x, 1.0, y * tol);
    assert tol * (x * y) == x * (y * tol);
    QuotientBound(x, tol, z);
  }

  lemma QuotientBound(a: real, q: real, z: real)
    requires z > 0.0 && a <= q * z
    ensures a / z <= q
  {
    MulMonotone(1.0 / z, a, q * z);
    assert (1.0 / z) * a == a / z;
    assert (1.0 / z) * (q * z) == q;
  }

  lemma {:induction false} Pow2Positive(n: nat)
    ensures Pow2(n) >= 1
  {
    if n > 0 { Pow2Positive(n - 1); }
  }

  /** The bisection measures at most as often as it takes for the width to shrink by 2^n. `done` is
      the number of measurements already made. */
  lemma {:induction false} BisectionCost(ask: Ask, tol: real, steps: seq<Step>, lo: int, hi: int, d0: int,
                                         done: nat, n: nat)
    requires 0 <= lo < hi && 0.0 < tol && d0 >= 1
    requires (hi - lo - 1) * Pow2(done) <= d0 - 1 && lo + 1 >= d0
    requires n >= 1 && Pow2(n - 1) as real * tol >= 1.0 && done <= n
    ensures |Bisected(ask, tol, steps, lo, hi).0| <= |steps| + (n - done)
    decreases n - done
  {
    if !(Converged(lo, hi, tol) || Mid(lo, hi) == lo) {
      BracketShrinks(lo, hi, tol);
      var mid, h := Mid(lo, hi), ask(|steps|, Mid(lo, hi));
      var lo', hi' := if h then mid else lo, if h then hi else mid;
      if done == n {
        WidthTooSmall(hi - lo, d0, hi, tol, n);
        assert false;
      }
      Pow2Positive(done);
      Halved(hi' - lo' - 1, hi - lo - 1, Pow2(done), d0);
      BisectionCost(ask, tol, steps + [Step(mid, h)], lo', hi', d0, done + 1, n);
    }
  }

  lemma Halved(now: int, was: int, p: int, d0: int)
    requires 2 * now <= was && p >= 0 && was * p <= d0 - 1
    ensures now * (2 * p) <= d0 - 1
  {
    assert now * (2 * p) == (2 * now) * p <= was * p;
  }

  /** After a ceiling probe the search measures at most n more rates, where 2^(n-1) tol >= 1,
      whatever the rates are. */
  lemma SearchCost(ask: Ask, initial: int, tol: real, k: nat, n: nat)
    requires initial > 0 && 0.0 < tol && n >= 1 && Pow2(n - 1) as real * tol >= 1.0
    ensures |Searched(ask, initial, tol, k).0| <= k + 1 + n
  {
    LowIsHalf(initial, k);
    var lo, hi := LowAfter(initial, k), Doubling(initial, k);
    BisectionCost(ask, tol, Probes(ask, initial, k + 1), lo, hi, hi - lo, 0, n);
  }

  // ---------------------------------------------------------------- splitting a rate

  /** One target rate spread over the processes of a step, or over the schedulers of a process. */
  method SplitRate(total: int, n: nat) returns (rates: seq<int>)
    requires n > 0 && total >= 0
    ensures |rates| == n && Sum(Same, rates) == total
    ensures forall i, j :: 0 <= i <= j < n ==> 0 <= rates[j] <= rates[i] <= rates[j] + 1
  {
    var q, r := total / n, total % n;
    DivMod(total, n);
    rates := [];
    ghost var given := 0;
    for i := 0 to n
      invariant |rates| == i && given == i * q
      invariant forall j :: 0 <= j < i ==> rates[j] == q + (if j < r then 1 else 0)
      invariant Sum(Same, rates) == given + (if i < r then i else r)
    {
      var rate := q + (if i < r then 1 else 0);
      SumAppend(Same, rates, [rate]);
      rates := rates + [rate];
      given := given + q;
      MulNext(i, q);
    }
  }

  lemma DivMod(total: int, n: nat)
    requires n > 0 && total >= 0
    ensures total == n * (total / n) + total % n && total / n >= 0
  {
  }

  lemma MulNext(i: int, q: int)
    ensures (i + 1) * q == i * q + q
  {
  }

  /** Spread twice, over processes and then over the schedulers of each, the rates still add up to the
      target. */
  method SplitTwice(total: int, processes: nat, schedulers: nat) returns (rates: seq<seq<int>>)
    requires total >= 0 && processes > 0 && schedulers > 0
    ensures |rates| == processes && forall p :: 0 <= p < processes ==> |rates[p]| == schedulers
    ensures Sum(Total, rates) == total
  {
    var perProcess := SplitRate(total, processes);
    rates := [];
    for p := 0 to processes
      invariant |rates| == p && forall k :: 0 <= k < p ==> |rates[k]| == schedulers
      invariant Sum(Total, rates) == Sum(Same, perProcess[..p])
    {
      var split := SplitRate(perProcess[p], schedulers);
      SumAppend(Total, rates, [split]);
      SumAppend(Same, perProcess[..p], [perProcess[p]]);
      assert perProcess[..p + 1] == perProcess[..p] + [perProcess[p]];
      rates := rates + [split];
    }
    assert perProcess[..processes] == perProcess;
  }

  function Total(rates: seq<int>): int { Sum(Same, rates) }
}
