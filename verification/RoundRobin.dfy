/** Dealing a list round-robin into `n` hands, and putting it back together. */
module RoundRobin {

  /** Every n-th element starting at `r`, dealt one element at a time. */
  function Stride<T>(xs: seq<T>, r: nat, n: nat): seq<T>
    requires n > 0
  {
    if xs == [] then []
    else Stride(xs[..|xs| - 1], r, n) + (if (|xs| - 1) % n == r then [xs[|xs| - 1]] else [])
  }

  /** How many elements land in hand `r`. */
  function Share(len: nat, r: nat, n: nat): nat
    requires r < n
  {
    (len + n - 1 - r) / n
  }

  lemma {:induction false} MulBound(a: int, b: int, n: nat)
    requires a < b
    ensures a * n + n <= b * n
    decreases b - a
  {
    if a + 1 < b { MulBound(a, b - 1, n); }
    MulNext(b - 1, n);
  }

  lemma MulNext(a: int, n: nat)
    ensures (a + 1) * n == a * n + n
  {
  }

  function Quot(a: nat, n: nat): nat
    requires n > 0
  {
    a / n
  }

  function Rem(a: nat, n: nat): nat
    requires n > 0
  {
    a % n
  }

  /** Quotient and remainder are determined by the division equation. */
  lemma DivUnique(a: int, n: nat, q: int, m: int)
    requires n > 0 && a == q * n + m && 0 <= m < n
    ensures a / n == q && a % n == m
  {
    var x, y := a / n, a % n;
    assert a == x * n + y;
    if x < q { MulBound(x, q, n); }
    if q < x { MulBound(q, x, n); }
  }

  /** The share of a hand grows exactly when the element dealt is its own. */
  lemma ShareNext(len: nat, r: nat, n: nat)
    requires r < n
    ensures Share(len + 1, r, n) == Share(len, r, n) + (if len % n == r then 1 else 0)
    ensures len % n == r ==> Share(len, r, n) == len / n
  {
    var q, m := len / n, len % n;
    assert len == q * n + m;
    if m <= r {
      DivUnique(len + n - 1 - r, n, q, m + n - 1 - r);
      if m == r {
        assert (q + 1) * n == q * n + n;
        DivUnique(len + n - r, n, q + 1, 0);
      } else {
        DivUnique(len + n - r, n, q, m + n - r);
      }
    } else {
      assert (q + 1) * n == q * n + n;
      DivUnique(len + n - 1 - r, n, q + 1, m - 1 - r);
      DivUnique(len + n - r, n, q + 1, m - r);
    }
  }

  lemma {:induction false} StrideLength<T>(xs: seq<T>, r: nat, n: nat)
    requires r < n
    ensures |Stride(xs, r, n)| == Share(|xs|, r, n)
  {
    if xs == [] {
      DivUnique(n - 1 - r, n, 0, n - 1 - r);
    } else {
      StrideLength(xs[..|xs| - 1], r, n);
      ShareNext(|xs| - 1, r, n);
    }
  }

  /** Element `g` is dealt to hand `g % n` as its `g / n`-th. */
  lemma {:induction false} StrideAt<T>(xs: seq<T>, g: nat, n: nat)
    requires n > 0 && g < |xs|
    ensures g / n < |Stride(xs, g % n, n)|
    ensures Stride(xs, g % n, n)[g / n] == xs[g]
  {
    var init := xs[..|xs| - 1];
    StrideLength(init, g % n, n);
    ShareNext(|xs| - 1, g % n, n);
    if g < |xs| - 1 {
      StrideAt(init, g, n);
    }
  }

  /** Where in the list the i-th element of a hand comes from. */
  lemma OriginOf(len: nat, r: nat, n: nat, i: nat) returns (g: nat)
    requires r < n && i < Share(len, r, n)
    ensures g == i * n + r && g < len && g % n == r && g / n == i
  {
    var a := len + n - 1 - r;
    var q, m := Quot(a, n), Rem(a, n);
    QuotRem(a, n);
    MulBound(i, q, n);
    g := i * n + r;
    DivUnique(g, n, i, r);
  }

  lemma QuotRem(a: nat, n: nat)
    requires n > 0
    ensures Quot(a, n) * n + Rem(a, n) == a
  {
  }

  /** Every place in every hand holds exactly one element of the list. */
  lemma StrideBack<T>(xs: seq<T>, r: nat, i: nat, n: nat)
    requires r < n && i < |Stride(xs, r, n)|
    ensures i * n + r < |xs| && (i * n + r) % n == r && (i * n + r) / n == i
    ensures Stride(xs, r, n)[i] == xs[i * n + r]
  {
    StrideLength(xs, r, n);
    var g := OriginOf(|xs|, r, n, i);
    StrideAt(xs, g, n);
  }

  predicate HasCard<T>(hands: seq<seq<T>>, g: nat)
    requires hands != []
  {
    g / |hands| < |hands[g % |hands|]|
  }

  function Card<T>(hands: seq<seq<T>>, g: nat): T
    requires hands != [] && HasCard(hands, g)
  {
    hands[g % |hands|][g / |hands|]
  }

  /** The list put back together from its hands. */
  function Interleave<T>(hands: seq<seq<T>>, len: nat): seq<T>
    requires hands != [] && forall g: nat :: g < len ==> HasCard(hands, g)
  {
    seq(len, g requires 0 <= g < len && HasCard(hands, g) => Card(hands, g))
  }

  lemma CardOfStrides<T>(xs: seq<T>, hands: seq<seq<T>>, g: nat)
    requires hands != [] && forall r :: 0 <= r < |hands| ==> hands[r] == Stride(xs, r, |hands|)
    requires g < |xs|
    ensures HasCard(hands, g) && Card(hands, g) == xs[g]
  {
    StrideAt(xs, g, |hands|);
    assert hands[g % |hands|] == Stride(xs, g % |hands|, |hands|);
  }

  lemma InterleaveStrides<T>(xs: seq<T>, hands: seq<seq<T>>)
    requires hands != [] && forall r :: 0 <= r < |hands| ==> hands[r] == Stride(xs, r, |hands|)
    ensures forall g: nat :: g < |xs| ==> HasCard(hands, g)
    ensures Interleave(hands, |xs|) == xs
  {
    forall g: nat | g < |xs| ensures HasCard(hands, g) && Card(hands, g) == xs[g] {
      CardOfStrides(xs, hands, g);
    }
  }
}
