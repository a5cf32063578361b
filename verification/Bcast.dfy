/** The archive broadcast: the root fills a buffer from partial reads, broadcasts it, and every writing
    rank empties it through partial writes, round after round until an empty chunk. */
module Bcast {
  import opened Common

  const INT_MAX := 0x7fff_ffff
  const BUFFER_SIZE := 0x4000_0000

  function Least(a: nat, b: nat): nat { if a <= b then a else b }

  /** How much a partial transfer moves: at most what is possible, and nothing only when it fails. */
  function Moved(offered: nat, possible: nat): nat { Least(offered, possible) }

  /** Filling the buffer from position `pos` of the archive. `read(p)` is what a read at position `p`
      offers; offering nothing before the end is a read error. */
  method FillBuffer(buf: array<byte>, archive: bytes, pos: nat, read: nat -> nat) returns (n: nat, ok: bool)
    requires pos <= |archive|
    modifies buf
    ensures n <= Least(buf.Length, |archive| - pos) && buf[..n] == archive[pos..pos + n]
    ensures ok <==> n == Least(buf.Length, |archive| - pos)
    ensures !ok ==> read(pos + n) == 0
  {
    n := 0;
    while n < buf.Length
      invariant n <= Least(buf.Length, |archive| - pos) && buf[..n] == archive[pos..pos + n]
    {
      var got := Moved(read(pos + n), Least(buf.Length - n, |archive| - (pos + n)));
      if got == 0 {
        return n, pos + n == |archive|;
      }
      for i := 0 to got
        invariant buf[..n + i] == archive[pos..pos + n + i]
      {
        buf[n + i] := archive[pos + n + i];
      }
      n := n + got;
    }
    ok := true;
  }

  /** Emptying the buffer into an output; writing nothing is an error. */
  method WriteChunk(chunk: bytes, out: bytes, write: nat -> nat) returns (r: bytes, ok: bool)
    ensures out <= r <= out + chunk
    ensures ok <==> r == out + chunk
    ensures !ok ==> write(|r|) == 0
  {
    r := out;
    var written := 0;
    while written < |chunk|
      invariant 0 <= written <= |chunk| && r == out + chunk[..written]
    {
      var n := Moved(write(|r|), |chunk| - written);
      if n == 0 {
        assert |r| < |out + chunk|;
        return r, false;
      }
      assert chunk[..written + n] == chunk[..written] + chunk[written..written + n];
      r := r + chunk[written..written + n];
      written := written + n;
    }
    assert chunk[..written] == chunk;
    ok := true;
  }

  predicate Writes(rank: nat, noRootWrite: bool) { !(rank == 0 && noRootWrite) }

  /** What a rank has written when `done` bytes of the archive have gone round. */
  function Expected(archive: bytes, done: nat, rank: nat, noRootWrite: bool): bytes
    requires done <= |archive|
  {
    if Writes(rank, noRootWrite) then archive[..done] else []
  }

  ghost predicate Written(outs: seq<bytes>, archive: bytes, done: nat, noRootWrite: bool)
    requires done <= |archive|
  {
    forall k :: 0 <= k < |outs| ==> outs[k] == Expected(archive, done, k, noRootWrite)
  }

  ghost predicate Partial(outs: seq<bytes>, archive: bytes, done: nat, noRootWrite: bool)
    requires done <= |archive|
  {
    forall k :: 0 <= k < |outs| ==> outs[k] <= Expected(archive, done, k, noRootWrite)
  }

  lemma PartialGrows(outs: seq<bytes>, archive: bytes, done: nat, noRootWrite: bool)
    requires done <= |archive| && Partial(outs, archive, done, noRootWrite)
    ensures Partial(outs, archive, |archive|, noRootWrite)
  {
    assert archive[..done] <= archive[..|archive|];
  }

  /** Rank `k` has not all of the archive, and its next write moved nothing. */
  ghost predicate WriteStalled(outs: seq<bytes>, archive: bytes, noRootWrite: bool, write: (nat, nat) -> nat, k: nat)
    requires k < |outs|
  {
    Writes(k, noRootWrite) && outs[k] < archive && write(k, |outs[k]|) == 0
  }

  /** One round of writes on every rank. */
  method WriteRound(archive: bytes, pos: nat, chunk: bytes, outs: seq<bytes>, noRootWrite: bool,
                    write: (nat, nat) -> nat)
    returns (r: seq<bytes>, ok: bool)
    requires pos + |chunk| <= |archive| && chunk == archive[pos..pos + |chunk|]
    requires Written(outs, archive, pos, noRootWrite)
    ensures |r| == |outs| && Partial(r, archive, pos + |chunk|, noRootWrite)
    ensures ok <==> Written(r, archive, pos + |chunk|, noRootWrite)
    ensures !ok ==> exists k :: 0 <= k < |r| && WriteStalled(r, archive, noRootWrite, write, k)
  {
    r := outs;
    ghost var done := pos + |chunk|;
    assert archive[..done] == archive[..pos] + chunk;
    for rank := 0 to |outs|
      invariant |r| == |outs| && forall k :: rank <= k < |outs| ==> r[k] == outs[k]
      invariant forall k :: 0 <= k < rank ==> r[k] == Expected(archive, done, k, noRootWrite)
    {
      if Writes(rank, noRootWrite) {
        var out, wrote := WriteChunk(chunk, r[rank], n => write(rank, n));
        r := r[rank := out];
        if !wrote {
          assert r[rank] != Expected(archive, done, rank, noRootWrite);
          assert out < archive[..done] <= archive;
          assert WriteStalled(r, archive, noRootWrite, write, rank);
          return r, false;
        }
      }
    }
    ok := true;
  }

  /** The chunk lengths after `total` of `length` bytes: full ones, but for a last one at the end. */
  ghost predicate Chunked(chunks: seq<int>, size: nat, total: nat, length: nat) {
    && (forall i :: 0 <= i < |chunks| - 1 ==> chunks[i] == size)
    && (chunks != [] ==> 0 < chunks[|chunks| - 1] <= size && (total < length ==> chunks[|chunks| - 1] == size))
    && total == (if chunks == [] then 0 else (|chunks| - 1) * size + chunks[|chunks| - 1])
  }

  lemma ChunkedNext(chunks: seq<int>, size: nat, total: nat, length: nat)
    requires size > 0 && total < length && Chunked(chunks, size, total, length)
    ensures Chunked(chunks + [Least(size, length - total)], size, total + Least(size, length - total), length)
  {
    var n := |chunks|;
    assert n > 0 ==> (n - 1) * size + size == n * size;
  }

  /** The broadcast after whole rounds. */
  ghost predicate Streaming(outs: seq<bytes>, archive: bytes, total: nat, chunks: seq<int>, size: nat,
                            noRootWrite: bool)
  {
    && total <= |archive| && Written(outs, archive, total, noRootWrite) && Chunked(chunks, size, total, |archive|)
  }

  /** Why a broadcast was aborted. */
  ghost predicate Stalled(outs: seq<bytes>, archive: bytes, total: nat, noRootWrite: bool,
                          read: nat -> nat, write: (nat, nat) -> nat)
  {
    || (exists p :: total <= p < |archive| && read(p) == 0)
    || (exists k :: 0 <= k < |outs| && WriteStalled(outs, archive, noRootWrite, write, k))
  }

  lemma ChunksFitInt(chunks: seq<int>, size: nat, total: nat, length: nat)
    requires 0 < size <= BUFFER_SIZE && Chunked(chunks, size, total, length)
    ensures forall i :: 0 <= i < |chunks| ==> 0 < chunks[i] <= INT_MAX
  {
  }

  /** One round: fill the buffer and write it on every rank. `more` says whether there is another. */
  method Round(buf: array<byte>, archive: bytes, total: nat, outs: seq<bytes>, chunks: seq<int>, noRootWrite: bool,
               read: nat -> nat, write: (nat, nat) -> nat)
    returns (now: seq<bytes>, n: nat, ok: bool, more: bool)
    requires buf.Length > 0 && Streaming(outs, archive, total, chunks, buf.Length, noRootWrite)
    modifies buf
    ensures |now| == |outs| && Partial(now, archive, |archive|, noRootWrite) && (more ==> ok)
    ensures more ==> n > 0 && Streaming(now, archive, total + n, chunks + [n], buf.Length, noRootWrite)
    ensures ok && !more ==> now == outs && total == |archive|
    ensures !ok ==> Stalled(now, archive, total, noRootWrite, read, write)
  {
    PartialGrows(outs, archive, total, noRootWrite);
    n, ok := FillBuffer(buf, archive, total, read);
    if !ok || n == 0 {
      return outs, n, ok, false;
    }
    now, ok := WriteRound(archive, total, buf[..n], outs, noRootWrite, write);
    PartialGrows(now, archive, total + n, noRootWrite);
    ChunkedNext(chunks, buf.Length, total, |archive|);
    more := ok;
  }

  /** The streaming loop. Every writing rank ends with the archive, byte for byte, whatever the partial
      reads and writes; it aborts only because a read or a rank's write moved nothing, and then every
      output is a prefix of the archive. The chunks are as large and as few as the buffer allows and their
      lengths fit an `int`. */
  method BroadcastArchive(archive: bytes, size: nat, ranks: nat, noRootWrite: bool,
                          read: nat -> nat, write: (nat, nat) -> nat)
    returns (outs: seq<bytes>, total: nat, chunks: seq<int>, ok: bool)
    requires 0 < size <= BUFFER_SIZE
    ensures |outs| == ranks && Partial(outs, archive, |archive|, noRootWrite)
    ensures ok ==> Written(outs, archive, |archive|, noRootWrite) && total == |archive|
    ensures !ok ==> Stalled(outs, archive, total, noRootWrite, read, write)
    ensures (forall p :: 0 <= p < |archive| ==> read(p) > 0) && (forall k: nat, n: nat :: write(k, n) > 0) ==> ok
    ensures Chunked(chunks, size, total, |archive|)
    ensures forall i :: 0 <= i < |chunks| ==> 0 < chunks[i] <= INT_MAX
  {
    var buf := new byte[size];
    outs, total, chunks, ok := seq(ranks, _ => []), 0, [], true;
    PartialGrows(outs, archive, 0, noRootWrite);
    var more := true;
    while more
      invariant |outs| == ranks && fresh(buf) && buf.Length == size && total <= |archive|
      invariant Chunked(chunks, size, total, |archive|) && Partial(outs, archive, |archive|, noRootWrite)
      invariant if ok then Streaming(outs, archive, total, chunks, size, noRootWrite) && (!more ==> total == |archive|)
                else !more && Stalled(outs, archive, total, noRootWrite, read, write)
      decreases more, |archive| - total
    {
      var n;
      outs, n, ok, more := Round(buf, archive, total, outs, chunks, noRootWrite, read, write);
      if more {
        total, chunks := total + n, chunks + [n];
      }
    }
    ChunksFitInt(chunks, size, total, |archive|);
  }
}
