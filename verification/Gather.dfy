/** Collection of raw result records on rank 0: every other rank sends numbered chunks and one
    terminal message; root accepts all of them or nothing. */
module Gather {
  import opened Common
  import opened Lines
  import opened Chunker

  const TRANSPORT := "mpi_chunked"

  /** How one record is written as a row and read back. */
  datatype Codec<!R> = Codec(enc: R -> bytes, dec: bytes -> Option<R>)

  /** Rows are nonempty, hold no line boundary and read back as the record written. */
  ghost predicate SoundCodec<R(!new)>(c: Codec<R>) {
    forall r :: c.enc(r) != [] && Clean(c.enc(r)) && c.dec(c.enc(r)) == Some(r)
  }

  datatype Evidence = Evidence(rank: nat, sizeBytes: nat, sha256: bytes, transport: string)

  datatype Message =
    | Data(run: nat, sequence: nat, content: bytes)
    | End(run: nat, chunks: nat, records: nat, evidence: Evidence)
    | Unknown

  /** The run a gather belongs to, its record codec, the encoding of a whole record list, and the
      digest function. */
  datatype Config<!R> = Config(run: nat, codec: Codec<R>, whole: seq<R> -> bytes, digest: bytes -> bytes)

  /** What root holds for one rank. `seen` is the input fed to the digest so far. */
  datatype Machine<R> =
    | Open(next: nat, got: seq<R>, seen: bytes, size: nat)
    | Done(records: seq<R>, evidence: Evidence)
    | Broken

  function Start<R>(): Machine<R> {
    Open(0, [], [], 0)
  }

  // ---------------------------------------------------------------- decoding one chunk

  function DecodeRows<R>(c: Codec<R>, rows: seq<bytes>): (r: Option<seq<R>>)
    ensures r.Some? ==> |r.value| == |rows|
    ensures r.Some? <==> forall i :: 0 <= i < |rows| ==> rows[i] != [] && c.dec(rows[i]).Some?
    ensures r.Some? ==> forall i :: 0 <= i < |rows| ==> c.dec(rows[i]) == Some(r.value[i])
  {
    if rows == [] then Some([])
    else if rows[0] == [] || c.dec(rows[0]).None? then None
    else
      match DecodeRows(c, rows[1..])
      case None => None
      case Some(rs) => Some([c.dec(rows[0]).value] + rs)
  }

  function DecodeChunk<R>(c: Codec<R>, content: bytes): Option<seq<R>> {
    if |content| > RESULT_CHUNK_BYTES then None else DecodeRows(c, SplitLines(content))
  }

  /** The decoding loop, row by row. */
  method DecodeResultChunk<R>(c: Codec<R>, content: bytes) returns (r: Option<seq<R>>)
    ensures r == DecodeChunk(c, content)
  {
    if |content| > RESULT_CHUNK_BYTES {
      return None;
    }
    var lines := SplitLines(content);
    var records: seq<R> := [];
    for index := 0 to |lines|
      invariant |records| == index
      invariant forall i :: 0 <= i < index ==> lines[i] != [] && c.dec(lines[i]) == Some(records[i])
    {
      if lines[index] == [] {
        return None;
      }
      match c.dec(lines[index]) {
        case None => return None;
        case Some(record) => records := records + [record];
      }
    }
    assert DecodeRows(c, lines).value == records;
    return Some(records);
  }

  // ---------------------------------------------------------------- the receiving side

  /** Root's reaction to one message of an open rank. */
  function Deliver<R>(cfg: Config<R>, rank: nat, m: Machine<R>, msg: Message): Machine<R>
    requires m.Open?
  {
    match msg
    case Data(run, sequence, content) =>
      if run != cfg.run || sequence != m.next then Broken
      else
        (match DecodeChunk(cfg.codec, content)
         case None => Broken
         case Some(rs) => Open(m.next + 1, m.got + rs, m.seen + content, m.size + |content|))
    case End(run, chunks, records, claimed) =>
      if run != cfg.run then Broken
      else
        var observed := Evidence(rank, m.size, cfg.digest(m.seen), TRANSPORT);
        if chunks != m.next || records != |m.got| || claimed != observed then Broken
        else Done(m.got, observed)
    case Unknown => Broken
  }

  /** All messages completed for one rank; nothing is received after the terminal. */
  function RankRun<R>(cfg: Config<R>, rank: nat, msgs: seq<Message>): Machine<R> {
    if msgs == [] then Start()
    else
      var m := RankRun(cfg, rank, msgs[..|msgs| - 1]);
      if m.Open? then Deliver(cfg, rank, m, msgs[|msgs| - 1]) else m
  }

  type Delivery = (nat, Message)

  function Project(ds: seq<Delivery>, rank: nat): seq<Message> {
    if ds == [] then []
    else
      var init := Project(ds[..|ds| - 1], rank);
      if ds[|ds| - 1].0 == rank then init + [ds[|ds| - 1].1] else init
  }

  ghost predicate AnyBroken<R>(ms: seq<Machine<R>>) {
    exists r :: 1 <= r < |ms| && ms[r].Broken?
  }

  /** Every rank's machine after the deliveries; index 0 is root itself and takes no messages. */
  ghost function Machines<R>(cfg: Config<R>, size: nat, ds: seq<Delivery>): (ms: seq<Machine<R>>)
    ensures |ms| == size
  {
    seq(size, r requires 0 <= r < size => if r == 0 then Start() else RankRun(cfg, r, Project(ds, r)))
  }

  /** Every other rank is done; `lists` holds its records and `shards` its evidence. */
  ghost predicate Finished<R>(ms: seq<Machine<R>>, lists: seq<seq<R>>, shards: map<nat, Evidence>) {
    |lists| == |ms| && forall i :: 1 <= i < |ms| ==> i in shards && ms[i] == Done(lists[i], shards[i])
  }

  /** At some point of the deliveries every other rank is done. */
  ghost predicate FinishedIn<R>(cfg: Config<R>, size: nat, ds: seq<Delivery>, lists: seq<seq<R>>,
                                shards: map<nat, Evidence>)
  {
    exists k :: 0 <= k <= |ds| && Finished(Machines(cfg, size, ds[..k]), lists, shards)
  }

  /** The evidence published when root gives up: its own, and that of every rank that is done. */
  ghost predicate Partial<R>(ms: seq<Machine<R>>, shards: map<nat, Evidence>) {
    && (forall i :: i in shards <==> i == 0 || (1 <= i < |ms| && ms[i].Done?))
    && forall i :: i in shards && i != 0 ==> ms[i].Done? && ms[i].evidence == shards[i]
  }

  datatype GatherError = LocalRow | Rejected(rank: nat) | TimedOut(missing: set<nat>)

  datatype Meta = Meta(expected: nat, collected: set<nat>, complete: bool, shards: map<nat, Evidence>)

  /** What a rank's evidence must say about its records: who sent them, and how many bytes with which digest. */
  ghost predicate EvidenceOf<R>(cfg: Config<R>, rank: nat, records: seq<R>, e: Evidence) {
    var sent := Joined(Map(cfg.codec.enc, records));
    e.rank == rank && e.sizeBytes == |sent| && e.sha256 == cfg.digest(sent) && e.transport == "mpi_chunked"
  }

  /** Root's dictionaries agree with the machines of all ranks. */
  ghost predicate Books<R>(ms: seq<Machine<R>>, pending: set<nat>, states: map<nat, Machine<R>>,
                           collected: map<nat, seq<R>>, evidence: map<nat, Evidence>)
  {
    && |ms| > 1 && !AnyBroken(ms)
    && (forall r :: r in pending <==> 1 <= r < |ms| && ms[r].Open?)
    && (forall r :: r in pending ==> r in states && states[r] == ms[r])
    && (forall r :: r in collected <==> r == 0 || (1 <= r < |ms| && ms[r].Done?))
    && (forall r :: r in evidence <==> r in collected)
    && (forall r :: r in collected && r != 0 ==> ms[r] == Done(collected[r], evidence[r]))
  }

  lemma BooksAdvance<R>(ms: seq<Machine<R>>, now: seq<Machine<R>>, other: nat, pending: set<nat>,
                        states: map<nat, Machine<R>>, collected: map<nat, seq<R>>, evidence: map<nat, Evidence>)
    requires Books(ms, pending, states, collected, evidence)
    requires other in pending && |now| == |ms| && now == ms[other := now[other]]
    ensures now[other].Open? ==> Books(now, pending, states[other := now[other]], collected, evidence)
    ensures now[other].Done? ==>
              Books(now, pending - {other}, states, collected[other := now[other].records],
                    evidence[other := now[other].evidence])
    ensures now[other].Broken? ==> AnyBroken(now)
  {
    assert forall r :: 0 <= r < |ms| && r != other ==> now[r] == ms[r];
  }

  /** Root's loop over completed receives. `deliveries` are the receives that complete before the
      deadline, in the order root observes them; the channel chooses them freely. */
  method Collect<R>(cfg: Config<R>, size: nat, local: seq<R>, own: Evidence, deliveries: seq<Delivery>)
    returns (k: nat, rejected: Option<nat>, pending: set<nat>,
             collected: map<nat, seq<R>>, evidence: map<nat, Evidence>)
    requires size > 1
    ensures k <= |deliveries| && (k < |deliveries| ==> pending == {} || rejected.Some?)
    ensures rejected.None? ==>
              && (exists states :: Books(Machines(cfg, size, deliveries[..k]), pending, states, collected, evidence))
              && collected[0] == local && evidence[0] == own
    ensures rejected.Some? ==> rejected.value < size
                               && Machines(cfg, size, deliveries[..k])[rejected.value].Broken?
  {
    rejected := None;
    pending := OtherRanks(size);
    var states: map<nat, Machine<R>> := map i | i in pending :: Start();
    collected, evidence := map[0 := local], map[0 := own];
    k := 0;
    while pending != {} && k < |deliveries|
      invariant k <= |deliveries|
      invariant Books(Machines(cfg, size, deliveries[..k]), pending, states, collected, evidence)
      invariant collected[0] == local && evidence[0] == own
    {
      var (other, msg) := deliveries[k];
      DeliverStep(cfg, size, deliveries, k);
      k := k + 1;
      ghost var now := Machines(cfg, size, deliveries[..k]);
      if other in pending {
        BooksAdvance(Machines(cfg, size, deliveries[..k - 1]), now, other, pending, states, collected, evidence);
        var next := Deliver(cfg, other, states[other], msg);
        if next.Broken? {
          rejected := Some(other);
          return;
        } else if next.Open? {
          states := states[other := next];
        } else {
          collected := collected[other := next.records];
          evidence := evidence[other := next.evidence];
          pending := pending - {other};
        }
      }
    }
  }

  /** The whole gather on root: its own records, every other rank's, and the published metadata. */
  method GatherRawResults<R>(cfg: Config<R>, local: seq<R>, size: nat, deliveries: seq<Delivery>)
    returns (r: Result<seq<seq<R>>, GatherError>, meta: Option<Meta>)
    requires size >= 1
    ensures r.Ok? <==> meta.Some? && meta.value.complete
    ensures size == 1 ==> r == Ok([local]) && meta.Some?
                          && var all := cfg.whole(local);
                             meta.value.shards == map[0 := Evidence(0, |all|, cfg.digest(all), "in_memory")]
    ensures size > 1 ==> (r == Err(LocalRow) <==> !Fits(Map(cfg.codec.enc, local), RESULT_CHUNK_BYTES))
    ensures size > 1 && r.Ok? ==>
              && |r.value| == size && r.value[0] == local
              && FinishedIn(cfg, size, deliveries, r.value, meta.value.shards)
    ensures size > 1 && r.Err? && r.error.TimedOut? ==>
              && r.error.missing != {}
              && forall i :: i in r.error.missing <==>
                             1 <= i < size && Machines(cfg, size, deliveries)[i].Open?
    ensures size > 1 && r.Err? && r.error.Rejected? ==>
              && r.error.rank < size
              && exists k :: 0 <= k <= |deliveries|
                             && Machines(cfg, size, deliveries[..k])[r.error.rank].Broken?
    ensures size > 1 && r.Err? && r.error.TimedOut? ==>
              meta.Some? && Partial(Machines(cfg, size, deliveries), meta.value.shards)
    ensures size > 1 && meta.Some? ==>
              0 in meta.value.shards && EvidenceOf(cfg, 0, local, meta.value.shards[0])
    ensures meta.Some? && !meta.value.complete <==> r.Err? && r.error.TimedOut?
    ensures meta.Some? ==> meta.value.expected == size && meta.value.collected == meta.value.shards.Keys
    ensures r.Ok? ==> forall i :: i in meta.value.collected <==> 0 <= i < size
  {
    if size == 1 {
      var encoded := cfg.whole(local);
      var inMemory := Evidence(0, |encoded|, cfg.digest(encoded), "in_memory");
      return Ok([local]), Some(Meta(1, {0}, true, map[0 := inMemory]));
    }
    var chunks, error, groups := IterResultChunks(Map(cfg.codec.enc, local), RESULT_CHUNK_BYTES);
    if error.Some? {
      return Err(LocalRow), None;
    }
    var input, sizeBytes := DigestInput(chunks);
    ChunksCarryBytes(chunks, groups);
    var own := Evidence(0, sizeBytes, cfg.digest(input), TRANSPORT);
    var k, rejected, pending, collected, evidence := Collect(cfg, size, local, own, deliveries);
    if rejected.Some? {
      return Err(Rejected(rejected.value)), None;
    }
    ghost var ms := Machines(cfg, size, deliveries[..k]);
    ghost var states :| Books(ms, pending, states, collected, evidence);
    if pending != {} {
      assert deliveries[..k] == deliveries;
      BooksPartial(ms, pending, states, collected, evidence);
      return Err(TimedOut(pending)), Some(Meta(size, collected.Keys, false, evidence));
    }
    BooksFinished(ms, states, collected, evidence);
    var lists := seq(size, i requires 0 <= i < size => collected[i]);
    assert Finished(ms, lists, evidence);
    return Ok(lists), Some(Meta(size, collected.Keys, true, evidence));
  }

  lemma BooksPartial<R>(ms: seq<Machine<R>>, pending: set<nat>, states: map<nat, Machine<R>>,
                        collected: map<nat, seq<R>>, evidence: map<nat, Evidence>)
    requires Books(ms, pending, states, collected, evidence)
    ensures Partial(ms, evidence)
  {
  }

  /** When nobody is pending everybody is done. */
  lemma BooksFinished<R>(ms: seq<Machine<R>>, states: map<nat, Machine<R>>,
                         collected: map<nat, seq<R>>, evidence: map<nat, Evidence>)
    requires Books(ms, {}, states, collected, evidence)
    ensures collected.Keys == evidence.Keys && forall i :: i in collected <==> 0 <= i < |ms|
    ensures forall i :: 1 <= i < |ms| ==> ms[i] == Done(collected[i], evidence[i])
  {
    forall i: nat | 1 <= i < |ms| ensures ms[i].Done? {
      assert !ms[i].Broken? && !ms[i].Open?;
    }
  }

  /** One delivery advances one machine. */
  lemma DeliverStep<R>(cfg: Config<R>, size: nat, ds: seq<Delivery>, k: nat)
    requires k < |ds|
    ensures var was, now := Machines(cfg, size, ds[..k]), Machines(cfg, size, ds[..k + 1]);
            var (other, msg) := ds[k];
            if 1 <= other < size && was[other].Open?
            then now == was[other := Deliver(cfg, other, was[other], msg)]
            else now == was
  {
    var later := ds[..k + 1];
    assert later[..|later| - 1] == ds[..k];
    var was, now := Machines(cfg, size, ds[..k]), Machines(cfg, size, later);
    var (other, msg) := ds[k];
    forall r | 0 <= r < size
      ensures r != other || r == 0 ==> now[r] == was[r]
    {
    }
    if 1 <= other < size {
      var msgs := Project(later, other);
      assert msgs[..|msgs| - 1] == Project(ds[..k], other);
      assert now[other] == if was[other].Open? then Deliver(cfg, other, was[other], msg) else was[other];
    }
  }
}
