/** Packing of encoded result rows into size-bounded chunks: the greedy packer, what its
    chunks hold, why no packing needs fewer of them, and how many there can be. */
module Chunker {
  import opened Common
  import opened Lines

  const RESULT_CHUNK_BYTES := 0x100000
  const MIN_CHUNK_BYTES := 1024

  datatype ChunkError = BoundTooSmall | RowTooLarge(index: nat)

  /** `groups` cuts `rows` into consecutive nonempty groups that fit the bound. */
  ghost predicate Packing(groups: seq<seq<bytes>>, rows: seq<bytes>, bound: nat) {
    && Flatten(groups) == rows
    && forall i :: 0 <= i < |groups| ==> groups[i] != [] && |Joined(groups[i])| <= bound
  }

  /** Each group was closed only because the next row no longer fitted. */
  ghost predicate Tight(groups: seq<seq<bytes>>, bound: nat) {
    forall i :: 0 <= i < |groups| - 1 && groups[i + 1] != [] ==>
      |Joined(groups[i])| + |Term(groups[i + 1][0])| > bound
  }

  /** The last group could not take `row`. */
  ghost predicate ClosedBy(groups: seq<seq<bytes>>, row: bytes, bound: nat) {
    groups != [] ==> |Joined(groups[|groups| - 1])| + |Term(row)| > bound
  }

  ghost predicate Encodes(chunks: seq<bytes>, groups: seq<seq<bytes>>) {
    |chunks| == |groups| && forall i :: 0 <= i < |chunks| ==> chunks[i] == Joined(groups[i])
  }

  /** State of the generator before row `index`: `chunks` hold the rows before `m` and `chunk`
      the pending rows from `m` on. */
  ghost predicate Packed(chunks: seq<bytes>, chunk: bytes, groups: seq<seq<bytes>>,
                         rows: seq<bytes>, m: nat, index: nat, bound: nat)
  {
    && m <= index <= |rows|
    && Encodes(chunks, groups)
    && chunk == Joined(rows[m..index]) && |chunk| <= bound
    && Packing(groups, rows[..m], bound)
    && Tight(groups, bound) && (m < index ==> ClosedBy(groups, rows[m], bound))
    && (m == index ==> m == 0 && groups == [])
  }

  ghost predicate Fits(rows: seq<bytes>, bound: nat) {
    forall i :: 0 <= i < |rows| ==> |Term(rows[i])| <= bound
  }

  /** The chunk generator. `chunks` are the values yielded; when a row is too large the chunks
      already yielded stay yielded and the pending one is lost. */
  method IterResultChunks(rows: seq<bytes>, bound: int)
    returns (chunks: seq<bytes>, error: Option<ChunkError>, ghost groups: seq<seq<bytes>>)
    ensures Encodes(chunks, groups)
    ensures bound < MIN_CHUNK_BYTES <==> error == Some(BoundTooSmall)
    ensures bound < MIN_CHUNK_BYTES ==> chunks == []
    ensures error.None? ==> Packing(groups, rows, bound) && Tight(groups, bound)
    ensures error.None? <==> MIN_CHUNK_BYTES <= bound && Fits(rows, bound)
    ensures error.Some? && error.value.RowTooLarge? ==>
              var k := error.value.index;
              && k < |rows| && |Term(rows[k])| > bound && Fits(rows[..k], bound)
              && exists m, pending :: Packed(chunks, pending, groups, rows, m, k, bound)
  {
    chunks, error, groups := [], None, [];
    if bound < MIN_CHUNK_BYTES {
      error := Some(BoundTooSmall);
      return;
    }
    var chunk: bytes := [];
    ghost var m := 0;
    var index := 0;
    while index < |rows|
      invariant Packed(chunks, chunk, groups, rows, m, index, bound)
      invariant Fits(rows[..index], bound)
    {
      var encoded := Term(rows[index]);
      if |encoded| > bound {
        assert !Fits(rows, bound);
        error := Some(RowTooLarge(index));
        return;
      }
      FitsNext(rows, index, bound);
      if chunk != [] && |chunk| + |encoded| > bound {
        YieldStep(chunks, chunk, groups, rows, m, index, bound);
        chunks := chunks + [chunk];
        groups := groups + [rows[m..index]];
        m := index;
        chunk := [];
      } else {
        ExtendStep(chunks, chunk, groups, rows, m, index, bound);
      }
      chunk := chunk + encoded;
      index := index + 1;
    }
    Finish(chunks, chunk, groups, rows, m, bound);
    if chunk != [] {
      chunks := chunks + [chunk];
      groups := groups + [rows[m..index]];
    }
  }

  lemma FitsNext(rows: seq<bytes>, index: nat, bound: nat)
    requires index < |rows| && Fits(rows[..index], bound) && |Term(rows[index])| <= bound
    ensures Fits(rows[..index + 1], bound)
  {
    assert rows[..index + 1] == rows[..index] + [rows[index]];
  }

  lemma YieldStep(chunks: seq<bytes>, chunk: bytes, groups: seq<seq<bytes>>,
                  rows: seq<bytes>, m: nat, index: nat, bound: nat)
    requires index < |rows| && Packed(chunks, chunk, groups, rows, m, index, bound)
    requires chunk != [] && |chunk| + |Term(rows[index])| > bound >= |Term(rows[index])|
    ensures Packed(chunks + [chunk], [] + Term(rows[index]), groups + [rows[m..index]],
                   rows, index, index + 1, bound)
  {
    assert rows[m..index] != [];
    CloseGroup(groups, rows, m, index, bound);
    ExtendGroup(rows, index, index);
    assert rows[index..index] == [];
  }

  lemma ExtendStep(chunks: seq<bytes>, chunk: bytes, groups: seq<seq<bytes>>,
                   rows: seq<bytes>, m: nat, index: nat, bound: nat)
    requires index < |rows| && Packed(chunks, chunk, groups, rows, m, index, bound)
    requires |chunk| + |Term(rows[index])| <= bound || (chunk == [] && |Term(rows[index])| <= bound)
    ensures Packed(chunks, chunk + Term(rows[index]), groups, rows, m, index + 1, bound)
  {
    ExtendGroup(rows, m, index);
    assert rows[m..index] != [] ==> m < index;
  }

  lemma Finish(chunks: seq<bytes>, chunk: bytes, groups: seq<seq<bytes>>,
               rows: seq<bytes>, m: nat, bound: nat)
    requires Packed(chunks, chunk, groups, rows, m, |rows|, bound)
    ensures chunk == [] ==> Packing(groups, rows, bound)
    ensures chunk != [] ==> var all := groups + [rows[m..|rows|]];
                            && Packing(all, rows, bound) && Tight(all, bound)
                            && Encodes(chunks + [chunk], all)
  {
    assert rows[..|rows|] == rows;
    if chunk == [] {
      assert |rows[m..|rows|]| == 0;
    } else {
      assert rows[m..|rows|] != [];
      CloseGroup(groups, rows, m, |rows|, bound);
    }
  }

  lemma CloseGroup(groups: seq<seq<bytes>>, rows: seq<bytes>, m: nat, index: nat, bound: nat)
    requires m < index <= |rows|
    requires Packing(groups, rows[..m], bound) && |Joined(rows[m..index])| <= bound
    requires Tight(groups, bound) && ClosedBy(groups, rows[m], bound)
    ensures Packing(groups + [rows[m..index]], rows[..index], bound)
    ensures Tight(groups + [rows[m..index]], bound)
  {
    FlattenSnoc(groups, rows[m..index]);
    assert rows[..m] + rows[m..index] == rows[..index];
  }

  lemma ExtendGroup(rows: seq<bytes>, m: nat, index: nat)
    requires m <= index < |rows|
    ensures Joined(rows[m..index + 1]) == Joined(rows[m..index]) + Term(rows[index])
  {
    assert rows[m..index + 1] == rows[m..index] + [rows[index]];
    JoinedAppend(rows[m..index], [rows[index]]);
    JoinedOne(rows[index]);
  }

  // ---------------------------------------------------------------- what the chunks carry

  /** No row is split: each chunk decodes to its own group, and all chunks to the rows sent. */
  lemma {:induction false} ChunksCarryRows(chunks: seq<bytes>, groups: seq<seq<bytes>>, rows: seq<bytes>, bound: nat)
    requires AllClean(rows) && Encodes(chunks, groups) && Packing(groups, rows, bound)
    ensures forall i :: 0 <= i < |chunks| ==> 0 < |chunks[i]| <= bound
    ensures LinesOf(chunks) == rows
    decreases |chunks|
  {
    forall i | 0 <= i < |chunks| ensures 0 < |chunks[i]| {
      assert Joined(groups[i]) == Term(groups[i][0]) + Joined(groups[i][1..]);
    }
    if chunks != [] {
      var first, later := groups[0], Flatten(groups[1..]);
      assert rows == first + later;
      assert AllClean(first) by {
        assert forall i :: 0 <= i < |first| ==> first[i] == rows[i];
      }
      assert AllClean(later) by {
        assert forall i :: 0 <= i < |later| ==> later[i] == rows[|first| + i];
      }
      ChunksCarryRows(chunks[1..], groups[1..], later, bound);
      SplitJoinedExact(first);
    }
  }

  /** Nothing but the rows is sent. */
  lemma {:induction false} ChunksCarryBytes(chunks: seq<bytes>, groups: seq<seq<bytes>>)
    requires Encodes(chunks, groups)
    ensures Flatten(chunks) == Joined(Flatten(groups))
    decreases |chunks|
  {
    if chunks != [] {
      ChunksCarryBytes(chunks[1..], groups[1..]);
      JoinedAppend(groups[0], Flatten(groups[1..]));
    }
  }

  /** Feeding chunk after chunk to a digest and a byte counter. */
  method DigestInput(chunks: seq<bytes>) returns (input: bytes, size: nat)
    ensures input == Flatten(chunks) && size == |input|
  {
    input, size := [], 0;
    for i := 0 to |chunks|
      invariant input == Flatten(chunks[..i]) && size == |input|
    {
      assert chunks[..i + 1] == chunks[..i] + [chunks[i]];
      FlattenSnoc(chunks[..i], chunks[i]);
      input := input + chunks[i];
      size := size + |chunks[i]|;
    }
    assert chunks[..|chunks|] == chunks;
  }

  // ---------------------------------------------------------------- greedy is minimal

  function Covered(groups: seq<seq<bytes>>, k: nat): nat
    requires k <= |groups|
  {
    |Flatten(groups[..k])|
  }

  lemma GroupSlice(groups: seq<seq<bytes>>, rows: seq<bytes>, k: nat)
    requires k < |groups| && Flatten(groups) == rows
    ensures Covered(groups, k + 1) == Covered(groups, k) + |groups[k]| <= |rows|
    ensures groups[k] == rows[Covered(groups, k)..Covered(groups, k + 1)]
  {
    assert groups[..k + 1] == groups[..k] + [groups[k]];
    FlattenSnoc(groups[..k], groups[k]);
    assert groups == groups[..k + 1] + groups[k + 1..];
    FlattenAppend(groups[..k + 1], groups[k + 1..]);
  }

  lemma SliceSmaller(rows: seq<bytes>, a: nat, b: nat, c: nat, d: nat)
    requires a <= b <= c <= d <= |rows|
    ensures |Joined(rows[b..c])| <= |Joined(rows[a..d])|
  {
    assert rows[a..d] == rows[a..b] + (rows[b..c] + rows[c..d]);
    JoinedAppend(rows[a..b], rows[b..c] + rows[c..d]);
    JoinedAppend(rows[b..c], rows[c..d]);
  }

  /** A slice that starts no later and reaches past `g` is at least the inner slice and row `g`. */
  lemma ReachesPast(rows: seq<bytes>, a: nat, b: nat, g: nat, o: nat)
    requires a <= b <= g < o <= |rows|
    ensures |Joined(rows[a..o])| >= |Joined(rows[b..g])| + |Term(rows[g])|
  {
    ExtendGroup(rows, b, g);
    SliceSmaller(rows, a, b, g + 1, o);
  }

  /** A group that started no earlier than another cannot have stopped before it. */
  lemma NoOvertaking(greedy: seq<seq<bytes>>, other: seq<seq<bytes>>, rows: seq<bytes>, bound: nat, k: nat)
    requires Packing(greedy, rows, bound) && Tight(greedy, bound) && Packing(other, rows, bound)
    requires k + 1 < |greedy| && k < |other| && Covered(greedy, k) >= Covered(other, k)
    ensures Covered(greedy, k + 1) >= Covered(other, k + 1)
  {
    GroupSlice(greedy, rows, k);
    GroupSlice(other, rows, k);
    var g := Covered(greedy, k + 1);
    GroupSlice(greedy, rows, k + 1);
    assert greedy[k + 1][0] == rows[g];
    if g < Covered(other, k + 1) {
      ReachesPast(rows, Covered(other, k), Covered(greedy, k), g, Covered(other, k + 1));
    }
  }

  /** After any number of chunks the greedy packing has sent at least as many rows as any other. */
  lemma {:induction false} StaysAhead(greedy: seq<seq<bytes>>, other: seq<seq<bytes>>,
                                      rows: seq<bytes>, bound: nat, k: nat)
    requires Packing(greedy, rows, bound) && Tight(greedy, bound) && Packing(other, rows, bound)
    requires k <= |greedy| && k <= |other|
    ensures Covered(greedy, k) >= Covered(other, k)
  {
    if k > 0 {
      if k < |greedy| {
        StaysAhead(greedy, other, rows, bound, k - 1);
        NoOvertaking(greedy, other, rows, bound, k - 1);
      } else {
        assert greedy[..k] == greedy;
        GroupSlice(other, rows, k - 1);
      }
    }
  }

  /** No way of sending the rows in order and unsplit needs fewer chunks. */
  lemma GreedyIsMinimal(greedy: seq<seq<bytes>>, other: seq<seq<bytes>>, rows: seq<bytes>, bound: nat)
    requires Packing(greedy, rows, bound) && Tight(greedy, bound) && Packing(other, rows, bound)
    ensures |greedy| <= |other|
  {
    assert other[..|other|] == other;
    if |other| < |greedy| {
      StaysAhead(greedy, other, rows, bound, |other|);
      GroupSlice(greedy, rows, |other|);
      assert false;
    }
  }

  /** Two adjacent chunks exceed the bound together, so the number of chunks is bounded by the
      number of bytes sent. */
  lemma {:induction false} ChunkCountBound(groups: seq<seq<bytes>>, rows: seq<bytes>, bound: nat)
    requires Packing(groups, rows, bound) && Tight(groups, bound)
    ensures forall i :: 0 <= i < |groups| - 1 ==> |Joined(groups[i])| + |Joined(groups[i + 1])| > bound
    ensures |groups| > 0 ==> (|groups| - 1) * bound <= 2 * |Joined(rows)| - |Joined(groups[0])|
    decreases |groups|
  {
    forall i | 0 <= i < |groups| - 1
      ensures |Joined(groups[i])| + |Joined(groups[i + 1])| > bound
    {
      assert Joined(groups[i + 1]) == Term(groups[i + 1][0]) + Joined(groups[i + 1][1..]);
    }
    if |groups| == 1 {
      assert groups[1..] == [];
      assert rows == groups[0] + Flatten(groups[1..]) == groups[0];
    } else if |groups| > 1 {
      var later := Flatten(groups[1..]);
      ChunkCountBound(groups[1..], later, bound);
      JoinedAppend(groups[0], later);
      assert |Joined(groups[0])| + |Joined(groups[1])| > bound;
      assert (|groups| - 1) * bound == (|groups| - 2) * bound + bound;
    }
  }
}
