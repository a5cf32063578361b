/** The bucket boundaries of the latency histogram: two-percent geometric steps from 50
    microseconds to the two-hour request deadline, in nanoseconds. */
module Bounds {

  const FIRST := 50_000
  const LAST := 7_200_000_000_000

  /** Boundaries that increase by at most two percent from `FIRST` to exactly `LAST`. */
  ghost predicate TwoPercent(bounds: seq<int>) {
    && bounds != [] && bounds[0] == FIRST && bounds[|bounds| - 1] == LAST
    && Increasing(bounds)
    && Steps(bounds)
  }

  /** Each boundary is at most two percent above the one before. */
  ghost predicate Steps(bounds: seq<int>) {
    forall i :: 0 <= i < |bounds| - 1 ==> 100 * bounds[i + 1] <= 102 * bounds[i]
  }

  ghost predicate Increasing(bounds: seq<int>) {
    forall i, j :: 0 <= i < j < |bounds| ==> bounds[i] < bounds[j]
  }

  /** The generator. `grow` is the truncated product with 1.02; all that matters of its rounding is
      that it never exceeds two percent. */
  method LogarithmicHistogramBounds(grow: int -> int) returns (bounds: seq<int>)
    requires forall c :: c >= FIRST ==> 100 * grow(c) <= 102 * c
    ensures TwoPercent(bounds)
  {
    bounds := [];
    var current := FIRST;
    while current <= LAST
      invariant Growing(bounds, current)
      decreases LAST + 1 - current
    {
      var next := grow(current);
      if next <= current {
        next := current + 1;
      }
      GrowingNext(bounds, current, next);
      bounds := bounds + [current];
      current := next;
    }
    if bounds[|bounds| - 1] < LAST {
      GrowingLast(bounds, current);
      bounds := bounds + [LAST];
    }
  }

  /** The generator before it appends `current`. */
  ghost predicate Growing(bounds: seq<int>, current: int) {
    && current >= FIRST && Increasing(bounds) && Steps(bounds)
    && (bounds == [] ==> current == FIRST)
    && (bounds != [] ==>
          var last := bounds[|bounds| - 1];
          bounds[0] == FIRST && FIRST <= last <= LAST && last < current && 100 * current <= 102 * last)
  }

  lemma IncreasingSnoc(bounds: seq<int>, x: int)
    requires Increasing(bounds) && (bounds != [] ==> bounds[|bounds| - 1] < x)
    ensures Increasing(bounds + [x])
  {
  }

  lemma StepsSnoc(bounds: seq<int>, x: int)
    requires Steps(bounds) && (bounds != [] ==> 100 * x <= 102 * bounds[|bounds| - 1])
    ensures Steps(bounds + [x])
  {
  }

  lemma GrowingNext(bounds: seq<int>, current: int, next: int)
    requires Growing(bounds, current) && current <= LAST
    requires current < next && (100 * next <= 102 * current || next == current + 1)
    ensures Growing(bounds + [current], next)
  {
    IncreasingSnoc(bounds, current);
    StepsSnoc(bounds, current);
  }

  /** The last boundary is closed off at exactly `LAST`. */
  lemma GrowingLast(bounds: seq<int>, current: int)
    requires Growing(bounds, current) && current > LAST && bounds != [] && bounds[|bounds| - 1] < LAST
    ensures TwoPercent(bounds + [LAST])
  {
    IncreasingSnoc(bounds, LAST);
    StepsSnoc(bounds, LAST);
  }
}
