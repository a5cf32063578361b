/** Distribution of the trace: root streams and hashes it and scatters bounded batches; every other
    rank follows with the same collectives. Collectives are lock-step: the k-th call of every rank
    belongs to the same operation. */
module Scatter {
  import opened Common
  import opened RoundRobin

  const TRACE_ROW_BYTES := 0x100_0000

  /** What one trace line is. */
  datatype Parsed<T> = Metadata | Request(req: T) | Malformed

  /** How lines are parsed (with the index the next request will have) and hashed. */
  datatype Trace<!T> = Trace(parse: (bytes, nat) -> Parsed<T>, time: T -> real, digest: bytes -> bytes)

  function ParseLine<T>(tr: Trace<T>, line: bytes, index: nat): Parsed<T> {
    if |line| > TRACE_ROW_BYTES then Malformed else tr.parse(line, index)
  }

  /** The requests of a trace, or nothing when a line is malformed. */
  function Requests<T>(tr: Trace<T>, lines: seq<bytes>): Option<seq<T>> {
    if lines == [] then Some([])
    else
      match Requests(tr, lines[..|lines| - 1])
      case None => None
      case Some(rs) =>
        match ParseLine(tr, lines[|lines| - 1], |rs|)
        case Malformed => None
        case Metadata => Some(rs)
        case Request(t) => Some(rs + [t])
  }

  function LastTime<T>(tr: Trace<T>, rs: seq<T>): real {
    if rs == [] then 0.0 else tr.time(rs[|rs| - 1])
  }

  function Listed<T>(p: Option<T>): seq<T> { if p.Some? then [p.value] else [] }

  /** The values present, in order. */
  function Values<T>(ps: seq<Option<T>>): seq<T> { Flatten(Map(Listed, ps)) }

  /** `ps` says of every line whether it holds a request, and which. */
  ghost predicate Holds<T>(tr: Trace<T>, lines: seq<bytes>, ps: seq<Option<T>>) {
    |ps| == |lines| && forall k: nat :: k < |lines| ==> HoldsAt(tr, lines, ps, k)
  }

  lemma ValuesSnoc<T>(ps: seq<Option<T>>, p: Option<T>)
    ensures Values(ps + [p]) == Values(ps) + Listed(p)
  {
    assert Map(Listed, ps + [p]) == Map(Listed, ps) + [Listed(p)];
    FlattenSnoc(Map(Listed, ps), Listed(p));
  }

  /** Line `k` has at most 16 mebibytes and parses, under the number of requests before it, to what `ps` says. */
  ghost predicate HoldsAt<T>(tr: Trace<T>, lines: seq<bytes>, ps: seq<Option<T>>, k: nat)
    requires k < |lines| == |ps|
  {
    && |lines[k]| <= 0x100_0000
    && tr.parse(lines[k], |Values(ps[..k])|) == if ps[k].Some? then Request(ps[k].value) else Metadata
  }

  lemma HoldsSnoc<T>(tr: Trace<T>, lines: seq<bytes>, line: bytes, ps: seq<Option<T>>, p: Option<T>)
    requires |ps| == |lines|
    ensures Holds(tr, lines + [line], ps + [p]) <==>
            && Holds(tr, lines, ps) && |line| <= 0x100_0000
            && tr.parse(line, |Values(ps)|) == if p.Some? then Request(p.value) else Metadata
  {
    var all, more, n := lines + [line], ps + [p], |lines|;
    assert more[..n] == ps && all[n] == line && more[n] == p;
    forall k: nat | k < n ensures HoldsAt(tr, all, more, k) <==> HoldsAt(tr, lines, ps, k) {
      assert more[..k] == ps[..k];
    }
    if Holds(tr, all, more) {
      assert HoldsAt(tr, all, more, n);
      forall k: nat | k < n ensures HoldsAt(tr, lines, ps, k) { assert HoldsAt(tr, all, more, k); }
    }
  }

  /** A trace has requests exactly when each of its lines holds one or is metadata; there is one way to see them. */
  lemma {:induction false} RequestsAre<T>(tr: Trace<T>, lines: seq<bytes>, ps: seq<Option<T>>)
    requires Holds(tr, lines, ps)
    ensures Requests(tr, lines) == Some(Values(ps))
  {
    if lines != [] {
      var n := |lines| - 1;
      HoldsLast(tr, lines, ps);
      RequestsAre(tr, lines[..n], ps[..n]);
      assert Values(ps[..n]) + [] == Values(ps[..n]);
    } else {
      assert Map(Listed, ps) == [];
    }
  }

  lemma HoldsLast<T>(tr: Trace<T>, lines: seq<bytes>, ps: seq<Option<T>>)
    requires lines != [] && Holds(tr, lines, ps)
    ensures var n := |lines| - 1;
            && Holds(tr, lines[..n], ps[..n]) && Values(ps) == Values(ps[..n]) + Listed(ps[n])
            && ParseLine(tr, lines[n], |Values(ps[..n])|) == if ps[n].Some? then Request(ps[n].value) else Metadata
  {
    var n := |lines| - 1;
    assert lines[..n] + [lines[n]] == lines && ps[..n] + [ps[n]] == ps;
    HoldsSnoc(tr, lines[..n], lines[n], ps[..n], ps[n]);
    ValuesSnoc(ps[..n], ps[n]);
  }

  lemma {:induction false} RequestsHeld<T>(tr: Trace<T>, lines: seq<bytes>) returns (ps: seq<Option<T>>)
    requires Requests(tr, lines).Some?
    ensures Holds(tr, lines, ps) && Values(ps) == Requests(tr, lines).value
  {
    ps := [];
    if lines != [] {
      var n := |lines| - 1;
      var init := RequestsHeld(tr, lines[..n]);
      var p := match ParseLine(tr, lines[n], |Values(init)|) case Request(t) => Some(t) case _ => None;
      ps := init + [p];
      HoldsSnoc(tr, lines[..n], lines[n], init, p);
      ValuesSnoc(init, p);
      assert lines[..n] + [lines[n]] == lines;
    }
  }

  // ---------------------------------------------------------------- the simple loader

  datatype TraceError = InputMissing | HashMismatch | BadLine | BadCollective

  /** What the loader makes of a file: a digest that was asked for is checked before any line counts. */
  function Loaded<T>(tr: Trace<T>, lines: seq<bytes>, expected: Option<bytes>): Result<seq<T>, TraceError> {
    if expected.Some? && tr.digest(Flatten(lines)) != expected.value then Err(HashMismatch)
    else if Requests(tr, lines).None? then Err(BadLine)
    else Ok(Requests(tr, lines).value)
  }

  /** Reads the whole file. With a digest to check, a malformed line is reported only after the digest
      matched; without one it ends the reading. */
  method LoadTraceRequests<T>(tr: Trace<T>, lines: seq<bytes>, expected: Option<bytes>)
    returns (r: Result<seq<T>, TraceError>)
    ensures r == Loaded(tr, lines, expected)
  {
    var requests: seq<T> := [];
    var input: bytes := [];
    var failed := false;
    for k := 0 to |lines|
      invariant expected.Some? ==> input == Flatten(lines[..k])
      invariant expected.None? ==> !failed
      invariant Requests(tr, lines[..k]) == if failed then None else Some(requests)
    {
      NextLine(tr, lines, k);
      if expected.Some? {
        input := input + lines[k];
      }
      if !failed {
        match ParseLine(tr, lines[k], |requests|) {
          case Malformed =>
            if expected.None? {
              BadStaysBad(tr, lines, k + 1);
              return Err(BadLine);
            }
            failed := true;
          case Metadata =>
          case Request(t) => requests := requests + [t];
        }
      }
    }
    assert lines[..|lines|] == lines;
    if expected.Some? && tr.digest(input) != expected.value {
      return Err(HashMismatch);
    }
    return if failed then Err(BadLine) else Ok(requests);
  }

  lemma NextLine<T>(tr: Trace<T>, lines: seq<bytes>, k: nat)
    requires k < |lines|
    ensures Flatten(lines[..k + 1]) == Flatten(lines[..k]) + lines[k]
    ensures Requests(tr, lines[..k + 1])
            == match Requests(tr, lines[..k])
               case None => None
               case Some(rs) =>
                 match ParseLine(tr, lines[k], |rs|)
                 case Malformed => None
                 case Metadata => Some(rs)
                 case Request(t) => Some(rs + [t])
  {
    assert lines[..k + 1] == lines[..k] + [lines[k]];
    assert lines[..k + 1][..k] == lines[..k];
    FlattenSnoc(lines[..k], lines[k]);
  }

  lemma {:induction false} BadStaysBad<T>(tr: Trace<T>, lines: seq<bytes>, k: nat)
    requires k <= |lines| && Requests(tr, lines[..k]).None?
    ensures Requests(tr, lines).None?
  {
    if k < |lines| {
      assert lines[..|lines| - 1][..k] == lines[..k];
      BadStaysBad(tr, lines[..|lines| - 1], k);
    } else {
      assert lines[..k] == lines;
    }
  }

  // ---------------------------------------------------------------- the collectives

  /** One collective operation as root performs it. */
  datatype Op<T> =
    | Deal(parts: seq<seq<T>>)
    | Stop
    | Status(error: Option<TraceError>, total: nat, last: real)

  /** What rank `r` receives from the scattered batches. */
  function Dealt<T>(ops: seq<Op<T>>, r: nat): seq<T> {
    if ops == [] then []
    else
      var op := ops[|ops| - 1];
      Dealt(ops[..|ops| - 1], r) + (if op.Deal? && r < |op.parts| then op.parts[r] else [])
  }

  ghost predicate AllDeals<T>(ops: seq<Op<T>>, size: nat) {
    forall i :: 0 <= i < |ops| ==> ops[i].Deal? && |ops[i].parts| == size
  }

  lemma DealtSnoc<T>(ops: seq<Op<T>>, parts: seq<seq<T>>, r: nat)
    requires r < |parts|
    ensures Dealt(ops + [Deal(parts)], r) == Dealt(ops, r) + parts[r]
  {
    assert (ops + [Deal(parts)])[..|ops|] == ops;
  }

  /** Batches and buffer hold exactly the requests read so far, dealt round-robin. */
  ghost predicate Spread<T>(ops: seq<Op<T>>, partitions: seq<seq<T>>, size: nat, requests: seq<T>) {
    && size > 0 && |partitions| == size && AllDeals(ops, size)
    && forall r :: 0 <= r < size ==> Dealt(ops, r) + partitions[r] == Stride(requests, r, size)
  }

  lemma SpreadAdd<T>(ops: seq<Op<T>>, partitions: seq<seq<T>>, size: nat, requests: seq<T>, t: T)
    requires Spread(ops, partitions, size, requests)
    ensures var target := |requests| % size;
            Spread(ops, partitions[target := partitions[target] + [t]], size, requests + [t])
  {
    var target := |requests| % size;
    var now := partitions[target := partitions[target] + [t]];
    assert (requests + [t])[..|requests|] == requests;
    forall r | 0 <= r < size ensures Dealt(ops, r) + now[r] == Stride(requests + [t], r, size) {
      if r == target {
        Assoc(Dealt(ops, r), partitions[r], [t]);
      }
    }
  }

  lemma SpreadFlush<T>(ops: seq<Op<T>>, partitions: seq<seq<T>>, size: nat, requests: seq<T>)
    requires Spread(ops, partitions, size, requests)
    ensures Spread(ops + [Deal(partitions)], seq(size, _ => []), size, requests)
  {
    forall r | 0 <= r < size
      ensures Dealt(ops + [Deal(partitions)], r) + [] == Stride(requests, r, size)
    {
      DealtSnoc(ops, partitions, r);
    }
  }

  predicate AnyFilled<T(==)>(partitions: seq<seq<T>>) {
    exists r :: 0 <= r < |partitions| && |partitions[r]| > 0
  }

  /** What root holds while it reads: the collectives so far, the buffer with its bytes, all requests, its
      own share, and the bytes hashed. */
  datatype Reader<T> = Reader(ops: seq<Op<T>>, partitions: seq<seq<T>>, buffered: nat,
                              requests: seq<T>, local: seq<T>, input: bytes)

  /** Root after some lines: what it has read, and where the requests are. */
  ghost predicate Streaming<T>(tr: Trace<T>, lines: seq<bytes>, st: Reader<T>, size: nat) {
    && st.input == Flatten(lines) && Requests(tr, lines) == Some(st.requests)
    && Spread(st.ops, st.partitions, size, st.requests) && st.local == Dealt(st.ops, 0)
  }

  /** After a line that is no request. */
  function Skipped<T>(st: Reader<T>, line: bytes): Reader<T> { st.(input := st.input + line) }

  /** After a request. */
  function Took<T>(st: Reader<T>, line: bytes, t: T): Reader<T>
    requires st.partitions != []
  {
    var target := |st.requests| % |st.partitions|;
    st.(partitions := st.partitions[target := st.partitions[target] + [t]], buffered := st.buffered + |line|,
        requests := st.requests + [t], input := st.input + line)
  }

  /** After the buffer was scattered. */
  function Flushed<T>(st: Reader<T>): Reader<T>
    requires st.partitions != []
  {
    st.(ops := st.ops + [Deal(st.partitions)], partitions := seq(|st.partitions|, _ => []), buffered := 0,
        local := st.local + st.partitions[0])
  }

  /** Bytes of the request lines, which are what fills the buffer. */
  function RequestBytes<T>(tr: Trace<T>, lines: seq<bytes>): nat {
    if lines == [] then 0
    else
      var init, last := lines[..|lines| - 1], lines[|lines| - 1];
      RequestBytes(tr, init)
      + (if Requests(tr, init).Some? && ParseLine(tr, last, |Requests(tr, init).value|).Request? then |last| else 0)
  }

  /** The bytes of the lines that hold requests. */
  lemma {:induction false} RequestBytesAre<T>(tr: Trace<T>, lines: seq<bytes>, ps: seq<Option<T>>)
    requires Holds(tr, lines, ps)
    ensures RequestBytes(tr, lines) == Sum(Same, Sizes(lines, ps))
  {
    if lines != [] {
      var n := |lines| - 1;
      HoldsLast(tr, lines, ps);
      RequestsAre(tr, lines[..n], ps[..n]);
      RequestBytesAre(tr, lines[..n], ps[..n]);
      SizesLast(lines, ps);
    }
  }

  lemma SizesLast<T>(lines: seq<bytes>, ps: seq<Option<T>>)
    requires |ps| == |lines| > 0
    ensures var n := |lines| - 1;
            Sum(Same, Sizes(lines, ps))
            == Sum(Same, Sizes(lines[..n], ps[..n])) + (if ps[n].Some? then |lines[n]| else 0)
  {
    var n := |lines| - 1;
    var last := if ps[n].Some? then |lines[n]| else 0;
    assert Sizes(lines, ps) == Sizes(lines[..n], ps[..n]) + [last];
    SumAppend(Same, Sizes(lines[..n], ps[..n]), [last]);
  }

  /** The length of every line that holds a request, and zero for the others. */
  function Sizes<T>(lines: seq<bytes>, ps: seq<Option<T>>): seq<int>
    requires |ps| == |lines|
  {
    seq(|lines|, k requires 0 <= k < |lines| => if ps[k].Some? then |lines[k]| else 0)
  }

  lemma NextBytes<T>(tr: Trace<T>, lines: seq<bytes>, k: nat, requests: seq<T>)
    requires k < |lines| && Requests(tr, lines[..k]) == Some(requests)
    ensures RequestBytes(tr, lines[..k + 1])
            == RequestBytes(tr, lines[..k]) + (if ParseLine(tr, lines[k], |requests|).Request? then |lines[k]| else 0)
  {
    assert lines[..k + 1][..k] == lines[..k];
  }

  ghost predicate AllDealt<T>(deals: seq<Op<T>>, size: nat, all: seq<T>)
    requires size > 0
  {
    forall r :: 0 <= r < size ==> Dealt(deals, r) == Stride(all, r, size)
  }

  /** The deals up to one end with the lines `from` to `to`: together they hold the shares of all requests
      before `to`, and the bound was reached with the last of these lines and not before. */
  ghost predicate FullBatch<T>(tr: Trace<T>, lines: seq<bytes>, deals: seq<Op<T>>, from: nat, to: nat,
                               size: nat, batch: nat)
    requires size > 0
  {
    && from < to <= |lines| && Requests(tr, lines[..to]).Some?
    && RequestBytes(tr, lines[..to - 1]) < RequestBytes(tr, lines[..from]) + batch <= RequestBytes(tr, lines[..to])
    && AllDealt(deals, size, Requests(tr, lines[..to]).value)
  }

  /** Deal `i` holds the requests of the lines from `cuts[i]` to `cuts[i + 1]`. */
  ghost predicate BatchAt<T>(tr: Trace<T>, lines: seq<bytes>, ops: seq<Op<T>>, cuts: seq<nat>, i: nat,
                             size: nat, batch: nat)
    requires size > 0 && i < |ops| && i + 1 < |cuts|
  {
    FullBatch(tr, lines, ops[..i + 1], cuts[i], cuts[i + 1], size, batch)
  }

  ghost predicate Batches<T>(tr: Trace<T>, lines: seq<bytes>, ops: seq<Op<T>>, cuts: seq<nat>, size: nat, batch: nat)
    requires size > 0
  {
    && |cuts| == |ops| + 1 && cuts[0] == 0
    && forall i :: 0 <= i < |ops| ==> BatchAt(tr, lines, ops, cuts, i, size, batch)
  }

  lemma BatchAdded<T>(tr: Trace<T>, lines: seq<bytes>, ops: seq<Op<T>>, cuts: seq<nat>, size: nat, batch: nat,
                      op: Op<T>, to: nat)
    requires size > 0 && Batches(tr, lines, ops, cuts, size, batch)
    requires FullBatch(tr, lines, ops + [op], cuts[|ops|], to, size, batch)
    ensures Batches(tr, lines, ops + [op], cuts + [to], size, batch)
  {
    var more := ops + [op];
    forall i | 0 <= i < |more| ensures BatchAt(tr, lines, more, cuts + [to], i, size, batch) {
      if i < |ops| {
        assert BatchAt(tr, lines, ops, cuts, i, size, batch);
        assert more[..i + 1] == ops[..i + 1];
      } else {
        assert more[..i + 1] == more;
      }
    }
  }

  /** A full batch exceeds the bound by less than one row. */
  lemma BatchSize<T>(tr: Trace<T>, lines: seq<bytes>, deals: seq<Op<T>>, from: nat, to: nat, size: nat, batch: nat)
    requires size > 0 && FullBatch(tr, lines, deals, from, to, size, batch)
    ensures RequestBytes(tr, lines[..to]) - RequestBytes(tr, lines[..from]) < batch + TRACE_ROW_BYTES
  {
    assert lines[..to][..to - 1] == lines[..to - 1];
  }

  /** What the buffer holds: the requests since the last cut. */
  ghost predicate Buffered<T>(tr: Trace<T>, lines: seq<bytes>, k: nat, cut: nat, partitions: seq<seq<T>>, bytes: nat)
    requires k <= |lines|
  {
    && cut <= k && RequestBytes(tr, lines[..k]) == RequestBytes(tr, lines[..cut]) + bytes
    && Requests(tr, lines[..k]).Some? && Requests(tr, lines[..cut]).Some?
    && |Requests(tr, lines[..cut]).value| <= |Requests(tr, lines[..k]).value|
    && (AnyFilled(partitions) <==> |Requests(tr, lines[..cut]).value| < |Requests(tr, lines[..k]).value|)
  }

  lemma FlushStep<T>(tr: Trace<T>, lines: seq<bytes>, st: Reader<T>, size: nat)
    requires size > 0 && Streaming(tr, lines, st, size)
    ensures Streaming(tr, lines, Flushed(st), size) && !AnyFilled(Flushed(st).partitions)
  {
    SpreadFlush(st.ops, st.partitions, size, st.requests);
    DealtSnoc(st.ops, st.partitions, 0);
  }

  lemma RequestStep<T>(tr: Trace<T>, lines: seq<bytes>, k: nat, st: Reader<T>, size: nat, t: T)
    requires k < |lines| && Streaming(tr, lines[..k], st, size)
    requires ParseLine(tr, lines[k], |st.requests|) == Request(t)
    ensures Streaming(tr, lines[..k + 1], Took(st, lines[k], t), size) && AnyFilled(Took(st, lines[k], t).partitions)
  {
    NextLine(tr, lines, k);
    SpreadAdd(st.ops, st.partitions, size, st.requests, t);
    assert |Took(st, lines[k], t).partitions[|st.requests| % size]| > 0;
  }

  lemma MetadataStep<T>(tr: Trace<T>, lines: seq<bytes>, k: nat, st: Reader<T>, size: nat)
    requires k < |lines| && Streaming(tr, lines[..k], st, size)
    requires ParseLine(tr, lines[k], |st.requests|).Metadata?
    ensures Streaming(tr, lines[..k + 1], Skipped(st, lines[k]), size)
  {
    NextLine(tr, lines, k);
  }

  lemma MalformedStep<T>(tr: Trace<T>, lines: seq<bytes>, k: nat, requests: seq<T>)
    requires k < |lines| && Requests(tr, lines[..k]) == Some(requests)
    requires ParseLine(tr, lines[k], |requests|).Malformed?
    ensures Requests(tr, lines).None?
  {
    NextLine(tr, lines, k);
    BadStaysBad(tr, lines, k + 1);
  }

  /** Root before line `k`. */
  ghost predicate Reading<T>(tr: Trace<T>, lines: seq<bytes>, k: nat, st: Reader<T>, cuts: seq<nat>,
                             size: nat, batch: nat)
  {
    && size > 0 && k <= |lines| && st.buffered < batch
    && Streaming(tr, lines[..k], st, size) && Batches(tr, lines, st.ops, cuts, size, batch)
    && Buffered(tr, lines, k, cuts[|st.ops|], st.partitions, st.buffered)
  }

  lemma StartReading<T>(tr: Trace<T>, lines: seq<bytes>, size: nat, batch: nat)
    requires size > 0 && batch > 0
    ensures Reading(tr, lines, 0, Reader([], seq(size, _ => []), 0, [], [], []), [0], size, batch)
  {
    assert lines[..0] == [];
  }

  lemma ReadMetadata<T>(tr: Trace<T>, lines: seq<bytes>, k: nat, st: Reader<T>, cuts: seq<nat>, size: nat, batch: nat)
    requires k < |lines| && Reading(tr, lines, k, st, cuts, size, batch)
    requires ParseLine(tr, lines[k], |st.requests|).Metadata?
    ensures Reading(tr, lines, k + 1, Skipped(st, lines[k]), cuts, size, batch)
  {
    NextBytes(tr, lines, k, st.requests);
    MetadataStep(tr, lines, k, st, size);
  }

  lemma ReadRequest<T>(tr: Trace<T>, lines: seq<bytes>, k: nat, st: Reader<T>, cuts: seq<nat>,
                       size: nat, batch: nat, t: T)
    requires k < |lines| && Reading(tr, lines, k, st, cuts, size, batch)
    requires ParseLine(tr, lines[k], |st.requests|) == Request(t)
    ensures var now := Took(st, lines[k], t);
            if now.buffered < batch then Reading(tr, lines, k + 1, now, cuts, size, batch)
            else Reading(tr, lines, k + 1, Flushed(now), cuts + [k + 1], size, batch)
  {
    var now := Took(st, lines[k], t);
    NextBytes(tr, lines, k, st.requests);
    RequestStep(tr, lines, k, st, size, t);
    if now.buffered >= batch {
      FlushIsFull(tr, lines, k, cuts[|st.ops|], now, size, batch);
      BatchAdded(tr, lines, st.ops, cuts, size, batch, Deal(now.partitions), k + 1);
      FlushStep(tr, lines[..k + 1], now, size);
    }
  }

  lemma FlushIsFull<T>(tr: Trace<T>, lines: seq<bytes>, k: nat, cut: nat, st: Reader<T>, size: nat, batch: nat)
    requires k < |lines| && size > 0 && cut <= k && Streaming(tr, lines[..k + 1], st, size)
    requires RequestBytes(tr, lines[..k]) < RequestBytes(tr, lines[..cut]) + batch <= RequestBytes(tr, lines[..k + 1])
    ensures FullBatch(tr, lines, st.ops + [Deal(st.partitions)], cut, k + 1, size, batch)
  {
    SpreadFlush(st.ops, st.partitions, size, st.requests);
    NothingLeft(st.ops + [Deal(st.partitions)], seq(size, _ => []), size, st.requests);
  }

  /** An empty buffer means everything has been dealt. */
  lemma NothingLeft<T>(deals: seq<Op<T>>, partitions: seq<seq<T>>, size: nat, requests: seq<T>)
    requires Spread(deals, partitions, size, requests) && !AnyFilled(partitions)
    ensures AllDealt(deals, size, requests)
  {
    forall r | 0 <= r < size ensures Dealt(deals, r) == Stride(requests, r, size) {
      assert partitions[r] == [];
    }
  }

  lemma ReadAll<T>(tr: Trace<T>, lines: seq<bytes>, st: Reader<T>, cuts: seq<nat>, size: nat, batch: nat)
    requires Reading(tr, lines, |lines|, st, cuts, size, batch)
    ensures Requests(tr, lines).Some?
  {
    assert lines[..|lines|] == lines;
  }

  /** Root takes a line: it parses and buffers it, and scatters a full buffer. */
  function TakeLine<T>(tr: Trace<T>, line: bytes, st: Reader<T>, batch: nat): Option<Reader<T>>
    requires st.partitions != []
  {
    match ParseLine(tr, line, |st.requests|)
    case Malformed => None
    case Metadata => Some(Skipped(st, line))
    case Request(t) => Some(var now := Took(st, line, t); if now.buffered < batch then now else Flushed(now))
  }

  function CutsAfter<T>(st: Reader<T>, now: Reader<T>, cuts: seq<nat>, k: nat): seq<nat> {
    if |now.ops| == |st.ops| then cuts else cuts + [k + 1]
  }

  lemma ReadLine<T>(tr: Trace<T>, lines: seq<bytes>, k: nat, st: Reader<T>, cuts: seq<nat>, size: nat, batch: nat)
    requires k < |lines| && Reading(tr, lines, k, st, cuts, size, batch)
    ensures match TakeLine(tr, lines[k], st, batch)
            case None => Requests(tr, lines).None?
            case Some(now) => Reading(tr, lines, k + 1, now, CutsAfter(st, now, cuts, k), size, batch)
  {
    match ParseLine(tr, lines[k], |st.requests|) {
      case Malformed => MalformedStep(tr, lines, k, st.requests);
      case Metadata => ReadMetadata(tr, lines, k, st, cuts, size, batch);
      case Request(t) => ReadRequest(tr, lines, k, st, cuts, size, batch, t);
    }
  }

  /** Root's reading loop: line after line until the trace ends or a line is malformed. `cuts` are the lines
      at which batches were scattered. */
  method Stream<T(==)>(tr: Trace<T>, lines: seq<bytes>, size: nat, batch: nat)
    returns (st: Reader<T>, failed: bool, ghost cuts: seq<nat>)
    requires size > 1 && batch > 0
    ensures failed <==> Requests(tr, lines).None?
    ensures AllDeals(st.ops, size) && st.local == Dealt(st.ops, 0)
    ensures Batches(tr, lines, st.ops, cuts, size, batch)
    ensures !failed ==> Reading(tr, lines, |lines|, st, cuts, size, batch)
  {
    st, failed, cuts := Reader([], seq(size, _ => []), 0, [], [], []), false, [0];
    StartReading(tr, lines, size, batch);
    for k := 0 to |lines|
      invariant Reading(tr, lines, k, st, cuts, size, batch)
    {
      ReadLine(tr, lines, k, st, cuts, size, batch);
      var next := TakeLine(tr, lines[k], st, batch);
      if next.None? {
        failed := true;
        return;
      }
      st, cuts := next.value, CutsAfter(st, next.value, cuts, k);
    }
    ReadAll(tr, lines, st, cuts, size, batch);
  }

  datatype Outcome<T> = Returned(local: seq<T>, total: nat, last: real) | Raised(error: TraceError) | Stuck

  /** The collectives of a distribution: batches, one stop, one status. */
  ghost predicate WellFormed<T>(ops: seq<Op<T>>, size: nat) {
    && |ops| >= 2 && AllDeals(ops[..|ops| - 2], size)
    && ops[|ops| - 2].Stop? && ops[|ops| - 1].Status?
  }

  /** Why root fails: it stops at a malformed line before it has the digest. */
  function RootError<T>(tr: Trace<T>, lines: seq<bytes>, expected: bytes): Option<TraceError> {
    if Requests(tr, lines).None? then Some(BadLine)
    else if tr.digest(Flatten(lines)) != expected then Some(HashMismatch)
    else None
  }

  /** What root has done when its input was there: batches holding every rank's share and a good status,
      or a status that names the failure. */
  ghost predicate RootDone<T>(tr: Trace<T>, lines: seq<bytes>, expected: bytes, size: nat,
                              ops: seq<Op<T>>, out: Outcome<T>)
    requires size > 0 && WellFormed(ops, size)
  {
    var error := RootError(tr, lines, expected);
    && ops[|ops| - 1].error == error
    && if error.Some? then out == Raised(error.value)
       else
         var all := Requests(tr, lines).value;
         && out == Returned(Stride(all, 0, size), |all|, LastTime(tr, all))
         && ops[|ops| - 1] == Status(None, |all|, LastTime(tr, all))
         && AllDealt(ops[..|ops| - 2], size, all)
  }

  /** The batches of a run without a malformed line: full ones, and a last one exactly when requests were
      left over, which is below the bound. */
  ghost predicate AllBatches<T>(tr: Trace<T>, lines: seq<bytes>, deals: seq<Op<T>>, cuts: seq<nat>,
                                size: nat, batch: nat)
    requires size > 0
  {
    && 0 < |cuts| <= |deals| + 1 && Batches(tr, lines, deals[..|cuts| - 1], cuts, size, batch)
    && Requests(tr, lines).Some? && cuts[|cuts| - 1] <= |lines| && Requests(tr, lines[..cuts[|cuts| - 1]]).Some?
    && RequestBytes(tr, lines) < RequestBytes(tr, lines[..cuts[|cuts| - 1]]) + batch
    && |deals| == |cuts| - 1
                  + (if |Requests(tr, lines[..cuts[|cuts| - 1]]).value| < |Requests(tr, lines).value| then 1 else 0)
  }

  /** Root after the last line and the flush of what is left. */
  function Final<T(==)>(st: Reader<T>): Reader<T>
    requires st.partitions != []
  {
    if AnyFilled(st.partitions) then Flushed(st) else st
  }

  lemma FinalBatches<T>(tr: Trace<T>, lines: seq<bytes>, st: Reader<T>, cuts: seq<nat>, size: nat, batch: nat)
    requires Reading(tr, lines, |lines|, st, cuts, size, batch)
    ensures var end := Final(st);
            && Requests(tr, lines) == Some(end.requests) && end.input == Flatten(lines)
            && end.local == Dealt(end.ops, 0)
            && AllBatches(tr, lines, end.ops, cuts, size, batch)
            && AllDealt(end.ops, size, end.requests) && AllDeals(end.ops, size)
  {
    assert lines[..|lines|] == lines && st.ops[..|st.ops|] == st.ops;
    var end := Final(st);
    if AnyFilled(st.partitions) {
      FlushStep(tr, lines, st, size);
      assert end.ops[..|st.ops|] == st.ops;
    }
    NothingLeft(end.ops, end.partitions, size, end.requests);
  }

  lemma ClosingOps<T>(deals: seq<Op<T>>, status: Op<T>, size: nat)
    requires AllDeals(deals, size) && status.Status?
    ensures var ops := deals + [Stop, status];
            WellFormed(ops, size) && ops[..|ops| - 2] == deals && ops[|ops| - 1] == status
  {
    var ops := deals + [Stop, status];
    assert ops[..|ops| - 2] == deals;
  }

  /** Root. Without input it fails before any collective; any later failure still stops the workers
      and tells them. */
  method DistributeRoot<T(==)>(tr: Trace<T>, source: Option<(seq<bytes>, bytes)>, size: nat, batch: nat)
    returns (ops: seq<Op<T>>, out: Outcome<T>, ghost cuts: seq<nat>)
    requires size > 1 && batch > 0
    ensures source.None? ==> ops == [] && out == Raised(InputMissing)
    ensures source.Some? ==> WellFormed(ops, size)
                             && RootDone(tr, source.value.0, source.value.1, size, ops, out)
    ensures source.Some? ==> var (lines, _), deals := source.value, ops[..|ops| - 2];
                             if Requests(tr, lines).None? then Batches(tr, lines, deals, cuts, size, batch)
                             else AllBatches(tr, lines, deals, cuts, size, batch)
  {
    if source.None? {
      return [], Raised(InputMissing), [];
    }
    var (lines, expected) := source.value;
    var st, failed;
    st, failed, cuts := Stream(tr, lines, size, batch);
    if failed {
      var status := Status(Some(BadLine), |st.requests|, LastTime(tr, st.requests));
      ClosingOps(st.ops, status, size);
      return st.ops + [Stop, status], Raised(BadLine), cuts;
    }
    FinalBatches(tr, lines, st, cuts, size, batch);
    st := Final(st);
    var error := if tr.digest(st.input) == expected then None else Some(HashMismatch);
    var status := Status(error, |st.requests|, LastTime(tr, st.requests));
    ClosingOps(st.ops, status, size);
    ops := st.ops + [Stop, status];
    out := if error.None? then Returned(st.local, status.total, status.last) else Raised(HashMismatch);
  }

  /** What a worker returns when root's collectives end with `status`. */
  function FromStatus<T>(deals: seq<Op<T>>, status: Op<T>, r: nat): Outcome<T>
    requires status.Status?
  {
    if status.error.None? then Returned(Dealt(deals, r), status.total, status.last) else Raised(status.error.value)
  }

  /** A worker of a group of `size` ranks takes part in collective after collective until root stops it. */
  method DistributeWorker<T>(rank: nat, ops: seq<Op<T>>, ghost size: nat) returns (out: Outcome<T>, used: nat)
    ensures used <= |ops|
    ensures rank < size && WellFormed(ops, size) ==>
              used == |ops| && out == FromStatus(ops[..|ops| - 2], ops[|ops| - 1], rank)
    ensures ops == [] ==> out == Stuck
  {
    var local: seq<T> := [];
    used := 0;
    while used < |ops| && ops[used].Deal? && rank < |ops[used].parts|
      invariant used <= |ops|
      invariant local == Dealt(ops[..used], rank)
      invariant forall i :: 0 <= i < used ==> ops[i].Deal?
    {
      assert ops[..used + 1][..used] == ops[..used];
      local := local + ops[used].parts[rank];
      used := used + 1;
    }
    if used == |ops| {
      return Stuck, used;
    }
    if !ops[used].Stop? {
      return Raised(BadCollective), used;
    }
    used := used + 1;
    if used == |ops| {
      return Stuck, used;
    }
    if !ops[used].Status? {
      return Raised(BadCollective), used;
    }
    var status := ops[used];
    out := if status.error.None? then Returned(local, status.total, status.last) else Raised(status.error.value);
    used := used + 1;
  }

  // ---------------------------------------------------------------- all ranks together

  /** The outcome rank `r` must have for a given trace. */
  function AgreedAt<T>(tr: Trace<T>, lines: seq<bytes>, expected: bytes, size: nat, r: nat): Outcome<T>
    requires size > 0
  {
    match RootError(tr, lines, expected)
    case Some(error) => Raised(error)
    case None =>
      var all := Requests(tr, lines).value;
      Returned(Stride(all, r, size), |all|, LastTime(tr, all))
  }

  ghost predicate Agreed<T>(tr: Trace<T>, lines: seq<bytes>, expected: bytes, outs: seq<Outcome<T>>) {
    forall r :: 0 <= r < |outs| ==> outs[r] == AgreedAt(tr, lines, expected, |outs|, r)
  }

  /** The first `n` ranks have run: the workers among them ended as root's collectives say. */
  ghost predicate WorkersRan<T>(ops: seq<Op<T>>, size: nat, outs: seq<Outcome<T>>, n: nat) {
    && |outs| == n
    && (ops == [] ==> forall r :: 1 <= r < n ==> outs[r].Stuck?)
    && (WellFormed(ops, size) ==>
          forall r :: 1 <= r < n ==> outs[r] == FromStatus(ops[..|ops| - 2], ops[|ops| - 1], r))
  }

  method RunWorkers<T>(ops: seq<Op<T>>, root: Outcome<T>, size: nat) returns (outs: seq<Outcome<T>>)
    requires size > 1
    ensures WorkersRan(ops, size, outs, size) && outs[0] == root
  {
    outs := [root];
    for rank := 1 to size
      invariant WorkersRan(ops, size, outs, rank) && outs[0] == root
    {
      var out, used := DistributeWorker(rank, ops, size);
      outs := outs + [out];
    }
  }

  lemma RanksAgree<T>(tr: Trace<T>, lines: seq<bytes>, expected: bytes, size: nat,
                      ops: seq<Op<T>>, outs: seq<Outcome<T>>)
    requires size > 0 && WorkersRan(ops, size, outs, size)
    requires WellFormed(ops, size) && RootDone(tr, lines, expected, size, ops, outs[0])
    ensures Agreed(tr, lines, expected, outs)
  {
    forall r | 0 <= r < size ensures outs[r] == AgreedAt(tr, lines, expected, size, r) {
      assert r > 0 ==> outs[r] == FromStatus(ops[..|ops| - 2], ops[|ops| - 1], r);
    }
  }

  /** Root and all workers run against the same collectives. When root has its input no rank is ever
      stuck, every rank performs exactly root's collectives, and either all return their share or all
      raise the same error. When root has no input it raises alone and every worker waits forever. */
  method DistributeToRanks<T(==)>(tr: Trace<T>, source: Option<(seq<bytes>, bytes)>, size: nat, batch: nat)
    returns (outs: seq<Outcome<T>>)
    requires size > 1 && batch > 0
    ensures |outs| == size
    ensures source.Some? ==> Agreed(tr, source.value.0, source.value.1, outs)
    ensures source.None? ==> outs[0] == Raised(InputMissing) && forall r :: 1 <= r < size ==> outs[r].Stuck?
    ensures source.Some? <==> forall r :: 0 <= r < size ==> !outs[r].Stuck?
  {
    var ops, root, cuts := DistributeRoot(tr, source, size, batch);
    outs := RunWorkers(ops, root, size);
    if source.Some? {
      RanksAgree(tr, source.value.0, source.value.1, size, ops, outs);
      assert !outs[0].Stuck?;
    } else {
      assert outs[1].Stuck?;
    }
  }

  /** The distribution: a single rank uses the simple loader, several the collectives. */
  method DistributeTraceRequests<T(==)>(tr: Trace<T>, source: Option<(seq<bytes>, bytes)>, size: nat, batch: nat)
    returns (outs: seq<Outcome<T>>)
    requires size > 0 && batch > 0
    ensures |outs| == size
    ensures source.Some? && size > 1 ==> Agreed(tr, source.value.0, source.value.1, outs)
    ensures source.None? ==> outs[0] == Raised(InputMissing) && forall r :: 1 <= r < size ==> outs[r].Stuck?
    ensures size > 1 ==> (source.Some? <==> forall r :: 0 <= r < size ==> !outs[r].Stuck?)
    ensures source.Some? && size == 1 ==>
              outs[0] == match Loaded(tr, source.value.0, Some(source.value.1))
                         case Err(e) => Raised(e)
                         case Ok(all) => Returned(all, |all|, LastTime(tr, all))
  {
    if size > 1 {
      outs := DistributeToRanks(tr, source, size, batch);
    } else if source.None? {
      outs := [Raised(InputMissing)];
    } else {
      var loaded := LoadTraceRequests(tr, source.value.0, Some(source.value.1));
      outs := [match loaded
               case Err(e) => Raised(e)
               case Ok(all) => Returned(all, |all|, LastTime(tr, all))];
    }
  }

  /** The ranks succeed exactly when the simple loader does, and interleaving their shares gives back
      what it returns. When both a line is malformed and the digest differs they report different errors,
      the ranks the line and the loader the digest; in all other cases the same. */
  lemma SharesInterleaveToTrace<T>(tr: Trace<T>, lines: seq<bytes>, expected: bytes, outs: seq<Outcome<T>>)
    requires |outs| > 1 && Agreed(tr, lines, expected, outs)
    ensures var loaded := Loaded(tr, lines, Some(expected));
            && (loaded.Ok? <==> forall r :: 0 <= r < |outs| ==> outs[r].Returned?)
            && (loaded.Err? <==> forall r :: 0 <= r < |outs| ==> outs[r].Raised?)
            && (loaded.Err? && outs[0].Raised? ==>
                  (outs[0].error == loaded.error <==>
                   Requests(tr, lines).Some? || tr.digest(Flatten(lines)) == expected))
    ensures Loaded(tr, lines, Some(expected)).Ok? ==>
              var all, hands := Loaded(tr, lines, Some(expected)).value, Map(ShareOf, outs);
              && (forall g: nat :: g < |all| ==> HasCard(hands, g))
              && Interleave(hands, |all|) == all
  {
    var loaded := Loaded(tr, lines, Some(expected));
    if loaded.Ok? {
      InterleaveStrides(loaded.value, Map(ShareOf, outs));
      assert outs[0].Returned?;
    } else {
      assert outs[0].Raised?;
    }
  }

  /** Every rank returns the same total and the same time: that of the last request, which in a trace sorted by
      time is the latest; a trace without requests ends at zero. */
  lemma SameEnd<T>(tr: Trace<T>, lines: seq<bytes>, expected: bytes, outs: seq<Outcome<T>>, r: nat)
    requires Agreed(tr, lines, expected, outs) && r < |outs| && outs[r].Returned?
    ensures Requests(tr, lines).Some?
    ensures var all := Requests(tr, lines).value;
            && outs[r].total == |all|
            && (all == [] ==> outs[r].last == 0.0)
            && (all != [] ==> outs[r].last == tr.time(all[|all| - 1]))
            && ((forall i, j :: 0 <= i < j < |all| ==> tr.time(all[i]) <= tr.time(all[j])) ==>
                  forall i :: 0 <= i < |all| ==> tr.time(all[i]) <= outs[r].last)
  {
  }

  function ShareOf<T>(o: Outcome<T>): seq<T> { if o.Returned? then o.local else [] }

  /** For example, when every line is malformed and the digest is the input itself, a trace of one empty line
      that should hash to one byte gets two different answers: the loader reports the digest, the ranks the line. */
  lemma ErrorsDiffer()
    ensures var tr := Trace((_, _) => Malformed, (_: int) => 0.0, (input: bytes) => input);
            && Loaded(tr, [[]], Some([1])) == Err(HashMismatch)
            && Agreed(tr, [[]], [1], [Raised(BadLine), Raised(BadLine)])
  {
    var tr := Trace((_, _) => Malformed, (_: int) => 0.0, (input: bytes) => input);
    var lines: seq<bytes> := [[]];
    assert Flatten(lines) == lines[0] + Flatten(lines[1..]) == [];
    assert Requests(tr, lines[..0]) == Some([]);
  }
}
