/** Small vocabulary shared by the models: optional values, fallible results, and
    flattening and summing of sequences. */
module Common {

  type byte = b: int | 0 <= b < 256
  type bytes = seq<byte>

  datatype Option<+T> = None | Some(value: T)

  datatype Result<+T, +E> = Ok(value: T) | Err(error: E)

  function Flatten<T>(parts: seq<seq<T>>): seq<T> {
    if parts == [] then [] else parts[0] + Flatten(parts[1..])
  }

  lemma Assoc<T>(a: seq<T>, b: seq<T>, c: seq<T>)
    ensures (a + b) + c == a + (b + c)
  {
  }

  lemma {:induction false} FlattenAppend<T>(a: seq<seq<T>>, b: seq<seq<T>>)
    ensures Flatten(a + b) == Flatten(a) + Flatten(b)
  {
    if a == [] {
      assert a + b == b;
    } else {
      FlattenAppend(a[1..], b);
      assert (a + b)[1..] == a[1..] + b && (a + b)[0] == a[0];
      Assoc(a[0], Flatten(a[1..]), Flatten(b));
    }
  }

  lemma FlattenSnoc<T>(a: seq<seq<T>>, x: seq<T>)
    ensures Flatten(a + [x]) == Flatten(a) + x
  {
    FlattenAppend(a, [x]);
    assert Flatten([x]) == x + Flatten([]);
  }

  function Map<A, B>(f: A -> B, xs: seq<A>): (r: seq<B>)
    ensures |r| == |xs|
    ensures forall i :: 0 <= i < |xs| ==> r[i] == f(xs[i])
  {
    seq(|xs|, i requires 0 <= i < |xs| => f(xs[i]))
  }

  /** Sum of a weight over a sequence. */
  function Sum<T>(f: T -> int, s: seq<T>): int {
    if s == [] then 0 else f(s[0]) + Sum(f, s[1..])
  }

  lemma {:induction false} SumAppend<T>(f: T -> int, a: seq<T>, b: seq<T>)
    ensures Sum(f, a + b) == Sum(f, a) + Sum(f, b)
  {
    if a == [] {
      assert a + b == b;
    } else {
      SumAppend(f, a[1..], b);
      assert (a + b)[1..] == a[1..] + b;
    }
  }

  lemma {:induction false} SumUpdate<T>(f: T -> int, s: seq<T>, i: nat, x: T)
    requires i < |s|
    ensures Sum(f, s[i := x]) == Sum(f, s) - f(s[i]) + f(x)
  {
    var a, b := s[..i], s[i+1..];
    assert s == a + ([s[i]] + b) && s[i := x] == a + ([x] + b);
    SumAppend(f, a, [s[i]] + b);
    SumAppend(f, a, [x] + b);
    assert ([s[i]] + b)[1..] == b && ([x] + b)[1..] == b;
  }

  function Same(x: int): int { x }

  function One<T>(x: T): int { 1 }

  lemma {:induction false} SumOnes<T>(s: seq<T>)
    ensures Sum<T>(One, s) == |s|
  {
    if s != [] { SumOnes(s[1..]); }
  }

  /** The ranks the root waits for. */
  function OtherRanks(size: nat): (rs: set<nat>)
    ensures forall r :: r in rs <==> 1 <= r < size
  {
    if size <= 1 then {} else OtherRanks(size - 1) + {size - 1}
  }

  /** The elements that satisfy `p`, in order. */
  function Select<T>(p: T -> bool, s: seq<T>): seq<T> {
    if s == [] then [] else (if p(s[0]) then [s[0]] else []) + Select(p, s[1..])
  }

  lemma {:induction false} SelectAppend<T>(p: T -> bool, a: seq<T>, b: seq<T>)
    ensures Select(p, a + b) == Select(p, a) + Select(p, b)
  {
    if a == [] {
      assert a + b == b;
    } else {
      SelectAppend(p, a[1..], b);
      assert (a + b)[1..] == a[1..] + b;
      Assoc(if p(a[0]) then [a[0]] else [], Select(p, a[1..]), Select(p, b));
    }
  }

  lemma SelectSnoc<T>(p: T -> bool, a: seq<T>, x: T)
    ensures Select(p, a + [x]) == Select(p, a) + (if p(x) then [x] else [])
  {
    SelectAppend(p, a, [x]);
    assert [x][1..] == [];
  }

  /** A sum over the selected elements. */
  lemma {:induction false} SumSelect<T>(f: T -> int, p: T -> bool, s: seq<T>, g: T -> int)
    requires forall i :: 0 <= i < |s| ==> f(s[i]) == if p(s[i]) then g(s[i]) else 0
    ensures Sum(f, s) == Sum(g, Select(p, s))
  {
    if s != [] {
      SumSelect(f, p, s[1..], g);
      SumAppend(g, if p(s[0]) then [s[0]] else [], Select(p, s[1..]));
    }
  }

  // ---------------------------------------------------------------- runs of a transition system

  /** The state after a sequence of steps, or `None` when some step was not possible. */
  ghost function Steps<S, X>(next: (S, X) -> Option<S>, st: S, steps: seq<X>): Option<S>
    decreases |steps|
  {
    if steps == [] then Some(st)
    else
      match next(st, steps[0])
      case None => None
      case Some(now) => Steps(next, now, steps[1..])
  }

  lemma {:induction false} RunAppend<S, X>(next: (S, X) -> Option<S>, st: S, a: seq<X>, mid: S, b: seq<X>)
    requires Steps(next, st, a) == Some(mid)
    ensures Steps(next, st, a + b) == Steps(next, mid, b)
    decreases |a|
  {
    if a == [] {
      assert a + b == b;
    } else {
      RunAppend(next, next(st, a[0]).value, a[1..], mid, b);
      assert (a + b)[1..] == a[1..] + b;
    }
  }

  lemma RunNext<S, X>(next: (S, X) -> Option<S>, st: S, a: seq<X>, mid: S, x: X)
    requires Steps(next, st, a) == Some(mid)
    ensures Steps(next, st, a + [x]) == next(mid, x)
  {
    RunAppend(next, st, a, mid, [x]);
  }

  /** Three more steps, and the state before the last of them. */
  lemma RunThree<S, X>(next: (S, X) -> Option<S>, st: S, a: seq<X>, s0: S, x: X, s1: S, y: X, s2: S, z: X, s3: S)
    requires Steps(next, st, a) == Some(s0)
    requires next(s0, x) == Some(s1) && next(s1, y) == Some(s2) && next(s2, z) == Some(s3)
    ensures var more := a + [x, y, z];
            Steps(next, st, more) == Some(s3) && Steps(next, st, more[..|more| - 1]) == Some(s2)
  {
    RunNext(next, st, a, s0, x);
    RunNext(next, st, a + [x], s1, y);
    RunNext(next, st, a + [x] + [y], s2, z);
    assert a + [x, y, z] == a + [x] + [y] + [z];
    assert (a + [x, y, z])[..|a| + 2] == a + [x] + [y];
  }

  // ---------------------------------------------------------------- products of reals

  lemma NonnegativeProduct(x: real, y: real)
    requires x >= 0.0 && y >= 0.0
    ensures x * y >= 0.0
  {
  }

  lemma PositiveProduct(x: real, y: real)
    requires x > 0.0 && y > 0.0
    ensures x * y > 0.0
  {
  }

  lemma MulMonotone(c: real, p: real, q: real)
    requires c >= 0.0 && p <= q
    ensures c * p <= c * q
  {
    NonnegativeProduct(c, q - p);
    Spread(c, p, q);
  }

  lemma Spread(c: real, p: real, q: real)
    ensures c * (q - p) == c * q - c * p
  {
  }
}
