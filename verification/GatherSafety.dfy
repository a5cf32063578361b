/** What root may conclude from a finished gather. The senders are honest; the channel is not:
    it may drop, duplicate, reorder and replay, and in the second theorem it may also forge data. */
module GatherSafety {
  import opened Common
  import opened Lines
  import opened Chunker
  import opened Gather

  // ---------------------------------------------------------------- the sending side

  function DataMessages(run: nat, chunks: seq<bytes>): seq<Message> {
    seq(|chunks|, i requires 0 <= i < |chunks| => Data(run, i, chunks[i]))
  }

  function Terminal<R>(cfg: Config<R>, rank: nat, chunks: seq<bytes>, records: nat): Message {
    var all := Flatten(chunks);
    End(cfg.run, |chunks|, records, Evidence(rank, |all|, cfg.digest(all), TRANSPORT))
  }

  /** Everything an honest rank sends in one run. */
  function Script<R>(cfg: Config<R>, rank: nat, chunks: seq<bytes>, records: nat): seq<Message> {
    DataMessages(cfg.run, chunks) + [Terminal(cfg, rank, chunks, records)]
  }

  /** `chunks` is a packing of the encoded records that every receiver can decode. */
  ghost predicate Sends<R>(cfg: Config<R>, records: seq<R>, chunks: seq<bytes>) {
    exists groups :: Encodes(chunks, groups)
                     && Packing(groups, Map(cfg.codec.enc, records), RESULT_CHUNK_BYTES)
  }

  /** `chunks` are the full chunks before the first row that is too large; the pending one is lost. */
  ghost predicate SendsPart<R>(cfg: Config<R>, records: seq<R>, chunks: seq<bytes>) {
    var rows := Map(cfg.codec.enc, records);
    exists k: nat, m: nat, pending, groups ::
      && k < |rows| && |Term(rows[k])| > RESULT_CHUNK_BYTES && Fits(rows[..k], RESULT_CHUNK_BYTES)
      && Packed(chunks, pending, groups, rows, m, k, RESULT_CHUNK_BYTES)
  }

  /** The sending loop of a worker rank. A row that cannot be sent leaves the rank without a
      terminal message. */
  method SendResults<R>(cfg: Config<R>, rank: nat, records: seq<R>)
    returns (sent: seq<Message>, ok: bool, ghost chunks: seq<bytes>)
    ensures ok <==> Fits(Map(cfg.codec.enc, records), RESULT_CHUNK_BYTES)
    ensures ok ==> Sends(cfg, records, chunks) && sent == Script(cfg, rank, chunks, |records|)
    ensures !ok ==> sent == DataMessages(cfg.run, chunks) && SendsPart(cfg, records, chunks)
  {
    var contents, error, groups := IterResultChunks(Map(cfg.codec.enc, records), RESULT_CHUNK_BYTES);
    chunks := contents;
    sent := [];
    for sequence := 0 to |contents|
      invariant sent == DataMessages(cfg.run, contents[..sequence])
    {
      sent := sent + [Data(cfg.run, sequence, contents[sequence])];
    }
    assert contents[..|contents|] == contents;
    ok := error.None?;
    if ok {
      var input, size := DigestInput(contents);
      var evidence := Evidence(rank, size, cfg.digest(input), TRANSPORT);
      sent := sent + [End(cfg.run, |contents|, |records|, evidence)];
    }
  }

  lemma EncodedRowsClean<R(!new)>(cfg: Config<R>, records: seq<R>)
    requires SoundCodec(cfg.codec)
    ensures AllClean(Map(cfg.codec.enc, records))
  {
  }

  /** Rows of encoded records decode to those records. */
  lemma DecodeEncoded<R(!new)>(cfg: Config<R>, records: seq<R>)
    requires SoundCodec(cfg.codec)
    ensures DecodeRows(cfg.codec, Map(cfg.codec.enc, records)) == Some(records)
  {
    var r := DecodeRows(cfg.codec, Map(cfg.codec.enc, records));
    assert r.Some?;
    assert r.value == records;
  }

  lemma {:induction false} DecodeAppend<R>(c: Codec<R>, a: seq<bytes>, b: seq<bytes>)
    requires DecodeRows(c, a).Some? && DecodeRows(c, b).Some?
    ensures DecodeRows(c, a + b) == Some(DecodeRows(c, a).value + DecodeRows(c, b).value)
  {
    var r, x, y := DecodeRows(c, a + b), DecodeRows(c, a).value, DecodeRows(c, b).value;
    forall i | 0 <= i < |a + b| ensures c.dec((a + b)[i]) == Some((x + y)[i]) && (a + b)[i] != [] {
      if i < |a| { assert (a + b)[i] == a[i]; } else { assert (a + b)[i] == b[i - |a|]; }
    }
    assert r.Some? && |r.value| == |x + y|;
    forall i | 0 <= i < |a + b| ensures r.value[i] == (x + y)[i] {
      assert Some(r.value[i]) == c.dec((a + b)[i]);
    }
    assert r.value == x + y;
  }

  lemma {:induction false} LinesOfSnoc(parts: seq<bytes>, last: bytes)
    ensures LinesOf(parts + [last]) == LinesOf(parts) + SplitLines(last)
  {
    if parts == [] {
      assert [last][1..] == [];
    } else {
      LinesOfSnoc(parts[1..], last);
      assert (parts + [last])[1..] == parts[1..] + [last];
      Assoc(SplitLines(parts[0]), LinesOf(parts[1..]), SplitLines(last));
    }
  }

  // ---------------------------------------------------------------- what an open machine knows

  /** The chunk contents root has accepted account for everything it holds. */
  ghost predicate Accounts<R>(cfg: Config<R>, m: Machine<R>, parts: seq<bytes>) {
    && m.Open?
    && m.next == |parts|
    && m.seen == Flatten(parts) && m.size == |m.seen|
    && DecodeRows(cfg.codec, LinesOf(parts)) == Some(m.got)
  }

  /** Contents of the data messages root accepted. */
  ghost function Accepted<R>(cfg: Config<R>, rank: nat, msgs: seq<Message>): seq<bytes> {
    if msgs == [] then []
    else
      var init := Accepted(cfg, rank, msgs[..|msgs| - 1]);
      var last := msgs[|msgs| - 1];
      if last.Data? && RankRun(cfg, rank, msgs).Open? then init + [last.content] else init
  }

  lemma {:induction false} OpenAccounts<R>(cfg: Config<R>, rank: nat, msgs: seq<Message>)
    requires RankRun(cfg, rank, msgs).Open?
    ensures Accounts(cfg, RankRun(cfg, rank, msgs), Accepted(cfg, rank, msgs))
    ensures |Accepted(cfg, rank, msgs)| == |msgs|
    ensures forall i :: 0 <= i < |msgs| ==> msgs[i] == Data(cfg.run, i, Accepted(cfg, rank, msgs)[i])
  {
    if msgs != [] {
      var init, last := msgs[..|msgs| - 1], msgs[|msgs| - 1];
      OpenAccounts(cfg, rank, init);
      var parts := Accepted(cfg, rank, init);
      LinesOfSnoc(parts, last.content);
      FlattenSnoc(parts, last.content);
      DecodeAppend(cfg.codec, LinesOf(parts), SplitLines(last.content));
    }
  }

  /** The machine was closed by `terminal`, which matches what had been accepted before. */
  ghost predicate ClosedWith<R>(cfg: Config<R>, rank: nat, done: Machine<R>,
                              before: seq<Message>, parts: seq<bytes>, terminal: Message)
    requires done.Done?
  {
    var open := RankRun(cfg, rank, before);
    && Accounts(cfg, open, parts) && parts == Accepted(cfg, rank, before) && open.got == done.records
    && terminal.End? && terminal.run == cfg.run && terminal.chunks == |parts| && terminal.records == |done.records|
    && terminal.evidence == done.evidence == Evidence(rank, |Flatten(parts)|, cfg.digest(Flatten(parts)), TRANSPORT)
  }

  lemma TerminalCloses<R>(cfg: Config<R>, rank: nat, before: seq<Message>, last: Message)
    requires RankRun(cfg, rank, before).Open? && Deliver(cfg, rank, RankRun(cfg, rank, before), last).Done?
    ensures ClosedWith(cfg, rank, Deliver(cfg, rank, RankRun(cfg, rank, before), last),
                       before, Accepted(cfg, rank, before), last)
  {
    OpenAccounts(cfg, rank, before);
  }

  /** A finished machine was closed by one matching terminal; what it holds was accepted before. */
  lemma {:induction false} DoneAccounts<R>(cfg: Config<R>, rank: nat, msgs: seq<Message>)
    returns (before: seq<Message>, parts: seq<bytes>, terminal: Message)
    requires RankRun(cfg, rank, msgs).Done?
    ensures terminal in msgs && before + [terminal] <= msgs
    ensures ClosedWith(cfg, rank, RankRun(cfg, rank, msgs), before, parts, terminal)
  {
    var init, last := msgs[..|msgs| - 1], msgs[|msgs| - 1];
    if RankRun(cfg, rank, init).Open? {
      TerminalCloses(cfg, rank, init, last);
      before, parts, terminal := init, Accepted(cfg, rank, init), last;
      assert init + [last] == msgs;
    } else {
      before, parts, terminal := DoneAccounts(cfg, rank, init);
    }
  }

  // ---------------------------------------------------------------- exactly what root accepts

  function ContentOf(m: Message): bytes { if m.Data? then m.content else [] }

  /** A data message root takes at place `i`: of this run and with this number, at most a mebibyte, and every line
      in it a record. */
  ghost predicate Acceptable<R>(cfg: Config<R>, m: Message, i: nat) {
    && m.Data? && m.run == cfg.run && m.sequence == i && |m.content| <= 0x100000
    && var lines := SplitLines(m.content);
       forall j :: 0 <= j < |lines| ==> lines[j] != [] && cfg.codec.dec(lines[j]).Some?
  }

  ghost predicate AllAcceptable<R>(cfg: Config<R>, msgs: seq<Message>) {
    forall i :: 0 <= i < |msgs| ==> Acceptable(cfg, msgs[i], i)
  }

  /** A rank stays open exactly while all its messages are acceptable data, in order and without a gap. */
  lemma {:induction false} OpenIff<R>(cfg: Config<R>, rank: nat, msgs: seq<Message>)
    ensures RankRun(cfg, rank, msgs).Open? <==> AllAcceptable(cfg, msgs)
  {
    if msgs != [] {
      var init, last := msgs[..|msgs| - 1], msgs[|msgs| - 1];
      OpenIff(cfg, rank, init);
      if RankRun(cfg, rank, init).Open? { AcceptsIff(cfg, rank, init, last); }
      AcceptableSnoc(cfg, init, last);
      assert init + [last] == msgs;
    }
  }

  lemma AcceptsIff<R>(cfg: Config<R>, rank: nat, init: seq<Message>, last: Message)
    requires RankRun(cfg, rank, init).Open?
    ensures Deliver(cfg, rank, RankRun(cfg, rank, init), last).Open? <==> Acceptable(cfg, last, |init|)
  {
    OpenAccounts(cfg, rank, init);
  }

  lemma AcceptableSnoc<R>(cfg: Config<R>, init: seq<Message>, last: Message)
    ensures AllAcceptable(cfg, init + [last]) <==> AllAcceptable(cfg, init) && Acceptable(cfg, last, |init|)
  {
    var msgs := init + [last];
    assert msgs[|init|] == last && forall i :: 0 <= i < |init| ==> msgs[i] == init[i];
    if !AllAcceptable(cfg, init) {
      var i :| 0 <= i < |init| && !Acceptable(cfg, init[i], i);
      assert !Acceptable(cfg, msgs[i], i);
    }
  }

  /** The terminal of this run that says of the messages before it how many they are, how many records they hold,
      and how many bytes with which digest. */
  ghost predicate Matches<R>(cfg: Config<R>, rank: nat, before: seq<Message>, m: Message) {
    var contents := Map(ContentOf, before);
    && m.End? && m.run == cfg.run && m.chunks == |before| && m.records == |LinesOf(contents)|
    && m.evidence == Evidence(rank, |Flatten(contents)|, cfg.digest(Flatten(contents)), "mpi_chunked")
  }

  /** A rank is done exactly when acceptable data were followed by a matching terminal. */
  lemma DoneIff<R>(cfg: Config<R>, rank: nat, msgs: seq<Message>)
    ensures RankRun(cfg, rank, msgs).Done? <==> exists j: nat :: ClosesAt(cfg, rank, msgs, j)
  {
    if RankRun(cfg, rank, msgs).Done? { var j := DoneCloses(cfg, rank, msgs); }
    if j: nat :| ClosesAt(cfg, rank, msgs, j) { ClosesIsDone(cfg, rank, msgs, j); }
  }

  /** Message `j` is a matching terminal after acceptable data. */
  ghost predicate ClosesAt<R>(cfg: Config<R>, rank: nat, msgs: seq<Message>, j: nat) {
    j < |msgs| && AllAcceptable(cfg, msgs[..j]) && Matches(cfg, rank, msgs[..j], msgs[j])
  }

  lemma DoneCloses<R>(cfg: Config<R>, rank: nat, msgs: seq<Message>) returns (j: nat)
    requires RankRun(cfg, rank, msgs).Done?
    ensures ClosesAt(cfg, rank, msgs, j)
  {
    var before, parts, terminal := DoneAccounts(cfg, rank, msgs);
    j := |before|;
    assert msgs[..j] == before && msgs[j] == terminal;
    OpenIff(cfg, rank, before);
    OpenAccounts(cfg, rank, before);
    assert Map(ContentOf, before) == Accepted(cfg, rank, before);
  }

  lemma ClosesIsDone<R>(cfg: Config<R>, rank: nat, msgs: seq<Message>, j: nat)
    requires ClosesAt(cfg, rank, msgs, j)
    ensures RankRun(cfg, rank, msgs).Done?
  {
    OpenIff(cfg, rank, msgs[..j]);
    MatchingTerminal(cfg, rank, msgs[..j], msgs[j]);
    NextMessage(cfg, rank, msgs, j);
    DoneStays(cfg, rank, msgs, j + 1);
  }

  lemma MatchingTerminal<R>(cfg: Config<R>, rank: nat, before: seq<Message>, m: Message)
    requires RankRun(cfg, rank, before).Open? && Matches(cfg, rank, before, m)
    ensures Deliver(cfg, rank, RankRun(cfg, rank, before), m).Done?
  {
    OpenAccounts(cfg, rank, before);
    assert Map(ContentOf, before) == Accepted(cfg, rank, before);
  }

  lemma {:induction false} DoneStays<R>(cfg: Config<R>, rank: nat, msgs: seq<Message>, k: nat)
    requires k <= |msgs| && RankRun(cfg, rank, msgs[..k]).Done?
    ensures RankRun(cfg, rank, msgs).Done?
  {
    if k == |msgs| {
      assert msgs[..k] == msgs;
    } else {
      assert msgs[..|msgs| - 1][..k] == msgs[..k];
      DoneStays(cfg, rank, msgs[..|msgs| - 1], k);
    }
  }

  // ---------------------------------------------------------------- theorem 1

  ghost predicate OfRun(m: Message, run: nat) {
    !m.Unknown? && m.run == run
  }

  /** The channel delivers only what the rank sent in this run, plus anything from other runs. */
  ghost predicate Genuine<R>(cfg: Config<R>, rank: nat, chunks: seq<bytes>, records: nat, msgs: seq<Message>) {
    forall m :: m in msgs && OfRun(m, cfg.run) ==> m in Script(cfg, rank, chunks, records)
  }

  /** Whatever the channel drops, duplicates, reorders or replays from other runs, a rank that root
      counts as finished contributed exactly the records it sent, in order. No property of the
      digest is used. */
  lemma ChannelSafety<R(!new)>(cfg: Config<R>, rank: nat, sent: seq<R>, chunks: seq<bytes>, msgs: seq<Message>)
    requires SoundCodec(cfg.codec) && Sends(cfg, sent, chunks)
    requires Genuine(cfg, rank, chunks, |sent|, msgs)
    requires RankRun(cfg, rank, msgs).Done?
    ensures RankRun(cfg, rank, msgs).records == sent
    ensures EvidenceOf(cfg, rank, sent, RankRun(cfg, rank, msgs).evidence)
  {
    var before, parts, terminal := DoneAccounts(cfg, rank, msgs);
    TerminalIsScripted(cfg, rank, chunks, |sent|, terminal, msgs);
    OpenAccounts(cfg, rank, before);
    forall i | 0 <= i < |parts| ensures parts[i] == chunks[i] {
      assert before[i] == msgs[i];
      DataIsScripted(cfg, rank, chunks, |sent|, msgs, i, parts[i]);
    }
    assert parts == chunks;
    CarriesRecords(cfg, sent, chunks);
  }

  lemma TerminalIsScripted<R>(cfg: Config<R>, rank: nat, chunks: seq<bytes>, records: nat,
                              terminal: Message, msgs: seq<Message>)
    requires Genuine(cfg, rank, chunks, records, msgs) && terminal in msgs && terminal.End? && terminal.run == cfg.run
    ensures terminal == Terminal(cfg, rank, chunks, records)
  {
    var script := Script(cfg, rank, chunks, records);
    assert OfRun(terminal, cfg.run) && terminal in script;
    assert terminal == script[|chunks|];
  }

  lemma DataIsScripted<R>(cfg: Config<R>, rank: nat, chunks: seq<bytes>, records: nat,
                          msgs: seq<Message>, i: nat, content: bytes)
    requires Genuine(cfg, rank, chunks, records, msgs) && i < |msgs| && msgs[i] == Data(cfg.run, i, content)
    ensures i < |chunks| && content == chunks[i]
  {
    var script := Script(cfg, rank, chunks, records);
    assert OfRun(msgs[i], cfg.run) && msgs[i] in script;
    var j :| 0 <= j < |script| && script[j] == msgs[i];
  }

  lemma CarriesRecords<R(!new)>(cfg: Config<R>, sent: seq<R>, chunks: seq<bytes>)
    requires SoundCodec(cfg.codec) && Sends(cfg, sent, chunks)
    ensures DecodeRows(cfg.codec, LinesOf(chunks)) == Some(sent)
    ensures Flatten(chunks) == Joined(Map(cfg.codec.enc, sent))
  {
    var rows := Map(cfg.codec.enc, sent);
    var groups :| Encodes(chunks, groups) && Packing(groups, rows, RESULT_CHUNK_BYTES);
    EncodedRowsClean(cfg, sent);
    ChunksCarryRows(chunks, groups, rows, RESULT_CHUNK_BYTES);
    ChunksCarryBytes(chunks, groups);
    DecodeEncoded(cfg, sent);
  }

  // ---------------------------------------------------------------- theorem 2

  ghost predicate Collision(digest: bytes -> bytes, a: bytes, b: bytes) {
    a != b && digest(a) == digest(b)
  }

  /** Data may be forged at will; only the terminal of this run is the rank's own. */
  ghost predicate TerminalGenuine<R>(cfg: Config<R>, rank: nat, chunks: seq<bytes>, records: nat, msgs: seq<Message>) {
    forall m :: m in msgs && m.End? && m.run == cfg.run ==> m == Terminal(cfg, rank, chunks, records)
  }

  /** Even then, a finished rank contributed exactly its own records, unless the bytes it accepted before
      its terminal and the bytes sent are a collision of the digest. Matching bytes alone would not
      be enough: a chunk boundary inside a row changes the decoded rows. It is the record count in
      the terminal that excludes this. */
  lemma ForgedDataSafety<R(!new)>(cfg: Config<R>, rank: nat, sent: seq<R>, chunks: seq<bytes>, msgs: seq<Message>)
    returns (before: seq<Message>)
    requires SoundCodec(cfg.codec) && Sends(cfg, sent, chunks)
    requires TerminalGenuine(cfg, rank, chunks, |sent|, msgs)
    requires RankRun(cfg, rank, msgs).Done?
    ensures before + [Terminal(cfg, rank, chunks, |sent|)] <= msgs
    ensures RankRun(cfg, rank, before).Open? && RankRun(cfg, rank, before).got == RankRun(cfg, rank, msgs).records
    ensures RankRun(cfg, rank, msgs).records == sent
            || Collision(cfg.digest, Flatten(Accepted(cfg, rank, before)), Flatten(chunks))
  {
    var parts, terminal;
    before, parts, terminal := DoneAccounts(cfg, rank, msgs);
    if Flatten(parts) == Flatten(chunks) {
      SameBytesSameRecords(cfg, sent, chunks, parts, RankRun(cfg, rank, before).got);
    }
  }

  /** The same bytes, cut anywhere, decode to as many records only when they decode to the same. */
  lemma SameBytesSameRecords<R(!new)>(cfg: Config<R>, sent: seq<R>, chunks: seq<bytes>, parts: seq<bytes>, got: seq<R>)
    requires SoundCodec(cfg.codec) && Sends(cfg, sent, chunks)
    requires Flatten(parts) == Flatten(chunks) && DecodeRows(cfg.codec, LinesOf(parts)) == Some(got) && |got| == |sent|
    ensures got == sent
  {
    CarriesRecords(cfg, sent, chunks);
    EncodedRowsClean(cfg, sent);
    var rows := Map(cfg.codec.enc, sent);
    CutsAddLines(parts, rows);
    assert |LinesOf(parts)| == |rows|;
    DecodeEncoded(cfg, sent);
  }

  // ---------------------------------------------------------------- the whole gather

  lemma {:induction false} ProjectMembers(ds: seq<Delivery>, rank: nat, m: Message)
    requires m in Project(ds, rank)
    ensures (rank, m) in ds
  {
    if ds[|ds| - 1] != (rank, m) {
      ProjectMembers(ds[..|ds| - 1], rank, m);
    }
  }

  /** Everything a rank sends in one run: its script, or, when one of its rows cannot be sent, the data
      messages before it and no terminal. */
  ghost function SentBy<R>(cfg: Config<R>, rank: nat, records: seq<R>, chunks: seq<bytes>): seq<Message> {
    if Fits(Map(cfg.codec.enc, records), RESULT_CHUNK_BYTES) then Script(cfg, rank, chunks, |records|)
    else DataMessages(cfg.run, chunks)
  }

  /** The hypothesis of the gather theorem: each rank ran its sending loop, and every delivery that
      claims this run was sent in this run by the rank it came from. */
  ghost predicate HonestRanks<R>(cfg: Config<R>, sent: seq<seq<R>>, chunks: seq<seq<bytes>>, ds: seq<Delivery>) {
    && |chunks| == |sent|
    && (forall r :: 1 <= r < |sent| && Fits(Map(cfg.codec.enc, sent[r]), RESULT_CHUNK_BYTES) ==>
          Sends(cfg, sent[r], chunks[r]))
    && (forall i :: 0 <= i < |ds| && 1 <= ds[i].0 < |sent| && OfRun(ds[i].1, cfg.run) ==>
          ds[i].1 in SentBy(cfg, ds[i].0, sent[ds[i].0], chunks[ds[i].0]))
  }

  ghost predicate AllSendable<R>(cfg: Config<R>, sent: seq<seq<R>>) {
    forall r :: 0 <= r < |sent| ==> Fits(Map(cfg.codec.enc, sent[r]), RESULT_CHUNK_BYTES)
  }

  /** What one honest rank's messages can have done to root. */
  lemma HonestMessages<R>(cfg: Config<R>, sent: seq<seq<R>>, chunks: seq<seq<bytes>>, ds: seq<Delivery>, k: nat, r: nat)
    requires HonestRanks(cfg, sent, chunks, ds) && k <= |ds| && 1 <= r < |sent|
    ensures forall m :: m in Project(ds[..k], r) && OfRun(m, cfg.run) ==> m in SentBy(cfg, r, sent[r], chunks[r])
  {
    forall m | m in Project(ds[..k], r) && OfRun(m, cfg.run)
      ensures m in SentBy(cfg, r, sent[r], chunks[r])
    {
      ProjectMembers(ds[..k], r, m);
      var i :| 0 <= i < k && ds[i] == (r, m);
    }
  }

  /** A rank that sends no terminal is never finished. */
  lemma NoTerminalNotDone<R>(cfg: Config<R>, rank: nat, chunks: seq<bytes>, msgs: seq<Message>)
    requires forall m :: m in msgs && OfRun(m, cfg.run) ==> m in DataMessages(cfg.run, chunks)
    ensures !RankRun(cfg, rank, msgs).Done?
  {
    if RankRun(cfg, rank, msgs).Done? {
      var before, parts, terminal := DoneAccounts(cfg, rank, msgs);
      assert OfRun(terminal, cfg.run);
    }
  }

  /** Every rank that is done at some point has sent what root holds for it. */
  lemma HonestRankDone<R(!new)>(cfg: Config<R>, sent: seq<seq<R>>, chunks: seq<seq<bytes>>,
                                ds: seq<Delivery>, k: nat, r: nat)
    requires SoundCodec(cfg.codec) && HonestRanks(cfg, sent, chunks, ds) && k <= |ds| && 1 <= r < |sent|
    requires Machines(cfg, |sent|, ds[..k])[r].Done?
    ensures var m := Machines(cfg, |sent|, ds[..k])[r];
            m.records == sent[r] && EvidenceOf(cfg, r, sent[r], m.evidence)
    ensures Fits(Map(cfg.codec.enc, sent[r]), RESULT_CHUNK_BYTES)
  {
    var msgs := Project(ds[..k], r);
    HonestMessages(cfg, sent, chunks, ds, k, r);
    if Fits(Map(cfg.codec.enc, sent[r]), RESULT_CHUNK_BYTES) {
      ChannelSafety(cfg, r, sent[r], chunks[r], msgs);
    } else {
      NoTerminalNotDone(cfg, r, chunks[r], msgs);
    }
  }

  /** The evidence published describes what the ranks named in it have sent. */
  ghost predicate ShardsDescribe<R>(cfg: Config<R>, sent: seq<seq<R>>, shards: map<nat, Evidence>) {
    forall i :: i in shards ==> i < |sent| && EvidenceOf(cfg, i, sent[i], shards[i])
  }

  /** For any number of ranks and any interleaving, a gather that returns holds every rank's exact
      record list and evidence, and every rank could send all its rows. */
  lemma GatherIsExact<R(!new)>(cfg: Config<R>, sent: seq<seq<R>>, chunks: seq<seq<bytes>>, ds: seq<Delivery>, k: nat,
                               gathered: seq<seq<R>>, shards: map<nat, Evidence>)
    requires SoundCodec(cfg.codec) && HonestRanks(cfg, sent, chunks, ds) && k <= |ds|
    requires |gathered| == |sent| > 0 && gathered[0] == sent[0]
    requires Finished(Machines(cfg, |sent|, ds[..k]), gathered, shards)
    ensures gathered == sent
    ensures forall r :: 1 <= r < |sent| ==> r in shards && EvidenceOf(cfg, r, sent[r], shards[r])
    ensures forall r :: 1 <= r < |sent| ==> Fits(Map(cfg.codec.enc, sent[r]), RESULT_CHUNK_BYTES)
  {
    forall r | 1 <= r < |sent|
      ensures gathered[r] == sent[r] && r in shards && EvidenceOf(cfg, r, sent[r], shards[r])
      ensures Fits(Map(cfg.codec.enc, sent[r]), RESULT_CHUNK_BYTES)
    {
      HonestRankDone(cfg, sent, chunks, ds, k, r);
    }
  }

  lemma PartialIsExact<R(!new)>(cfg: Config<R>, sent: seq<seq<R>>, chunks: seq<seq<bytes>>, ds: seq<Delivery>,
                                shards: map<nat, Evidence>)
    requires SoundCodec(cfg.codec) && HonestRanks(cfg, sent, chunks, ds) && sent != []
    requires Partial(Machines(cfg, |sent|, ds), shards) && EvidenceOf(cfg, 0, sent[0], shards[0])
    ensures ShardsDescribe(cfg, sent, shards)
  {
    assert ds[..|ds|] == ds;
    forall i | i in shards ensures i < |sent| && EvidenceOf(cfg, i, sent[i], shards[i]) {
      if i > 0 { HonestRankDone(cfg, sent, chunks, ds, |ds|, i); }
    }
  }

  /** The call itself: a gather over an unreliable channel returns the records sent or fails, and it fails
      whenever some rank has a row that cannot be sent. */
  method GatherOverUnreliableChannel<R(!new)>(cfg: Config<R>, ghost sent: seq<seq<R>>, ghost chunks: seq<seq<bytes>>,
                                              local: seq<R>, size: nat, deliveries: seq<Delivery>)
    returns (r: Result<seq<seq<R>>, GatherError>, meta: Option<Meta>)
    requires SoundCodec(cfg.codec) && HonestRanks(cfg, sent, chunks, deliveries)
    requires |sent| == size > 0 && sent[0] == local
    ensures meta.Some? && meta.value.complete <==> r.Ok?
    ensures r.Ok? ==> r.value == sent && forall i :: i in meta.value.shards <==> 0 <= i < size
    ensures size > 1 && meta.Some? ==> ShardsDescribe(cfg, sent, meta.value.shards)
    ensures r.Ok? && size > 1 ==> AllSendable(cfg, sent)
  {
    r, meta := GatherRawResults(cfg, local, size, deliveries);
    if r.Ok? && size > 1 {
      ReturnedIsExact(cfg, sent, chunks, deliveries, r.value, meta.value.shards);
    } else if size > 1 && meta.Some? {
      PartialIsExact(cfg, sent, chunks, deliveries, meta.value.shards);
    }
  }

  lemma ReturnedIsExact<R(!new)>(cfg: Config<R>, sent: seq<seq<R>>, chunks: seq<seq<bytes>>, ds: seq<Delivery>,
                                 gathered: seq<seq<R>>, shards: map<nat, Evidence>)
    requires SoundCodec(cfg.codec) && HonestRanks(cfg, sent, chunks, ds)
    requires |gathered| == |sent| > 0 && gathered[0] == sent[0]
    requires FinishedIn(cfg, |sent|, ds, gathered, shards)
    requires (forall i :: i in shards ==> 0 <= i < |sent|) && 0 in shards && EvidenceOf(cfg, 0, sent[0], shards[0])
    ensures gathered == sent && ShardsDescribe(cfg, sent, shards)
    ensures forall r :: 1 <= r < |sent| ==> Fits(Map(cfg.codec.enc, sent[r]), RESULT_CHUNK_BYTES)
  {
    var k :| 0 <= k <= |ds| && Finished(Machines(cfg, |sent|, ds[..k]), gathered, shards);
    GatherIsExact(cfg, sent, chunks, ds, k, gathered, shards);
  }

  // ---------------------------------------------------------------- lossless channels finish

  lemma ChunkDecodes<R(!new)>(cfg: Config<R>, sent: seq<R>, chunks: seq<bytes>, i: nat)
    requires SoundCodec(cfg.codec) && Sends(cfg, sent, chunks) && i < |chunks|
    ensures DecodeChunk(cfg.codec, chunks[i]).Some?
    ensures DecodeRows(cfg.codec, SplitLines(chunks[i])).Some?
  {
    var rows := Map(cfg.codec.enc, sent);
    var groups :| Encodes(chunks, groups) && Packing(groups, rows, RESULT_CHUNK_BYTES);
    GroupSlice(groups, rows, i);
    var part := sent[Covered(groups, i)..Covered(groups, i + 1)];
    assert groups[i] == Map(cfg.codec.enc, part);
    EncodedRowsClean(cfg, part);
    DecodeEncoded(cfg, part);
    SplitJoinedExact(groups[i]);
  }

  /** An open machine takes the next chunk of the script. */
  lemma ChunkAccepted<R(!new)>(cfg: Config<R>, rank: nat, sent: seq<R>, chunks: seq<bytes>, j: nat, m: Machine<R>)
    requires SoundCodec(cfg.codec) && Sends(cfg, sent, chunks) && j < |chunks|
    requires Accounts(cfg, m, chunks[..j])
    ensures Accounts(cfg, Deliver(cfg, rank, m, Data(cfg.run, j, chunks[j])), chunks[..j + 1])
  {
    ChunkDecodes(cfg, sent, chunks, j);
    assert chunks[..j + 1] == chunks[..j] + [chunks[j]];
    LinesOfSnoc(chunks[..j], chunks[j]);
    FlattenSnoc(chunks[..j], chunks[j]);
    DecodeAppend(cfg.codec, LinesOf(chunks[..j]), SplitLines(chunks[j]));
  }

  /** A prefix of a rank's script is never rejected and is finished exactly at its end. */
  lemma {:induction false} ScriptAccepted<R(!new)>(cfg: Config<R>, rank: nat, sent: seq<R>, chunks: seq<bytes>, j: nat)
    requires SoundCodec(cfg.codec) && Sends(cfg, sent, chunks)
    requires j <= |chunks| + 1
    ensures var m := RankRun(cfg, rank, Script(cfg, rank, chunks, |sent|)[..j]);
            && (j <= |chunks| ==> Accounts(cfg, m, chunks[..j]))
            && (j == |chunks| + 1 ==> m.Done? && m.records == sent)
  {
    var script := Script(cfg, rank, chunks, |sent|);
    if j == 0 {
      assert chunks[..0] == [] && script[..0] == [];
    } else {
      ScriptAccepted(cfg, rank, sent, chunks, j - 1);
      var m := RankRun(cfg, rank, script[..j - 1]);
      NextMessage(cfg, rank, script, j - 1);
      if j <= |chunks| {
        ChunkAccepted(cfg, rank, sent, chunks, j - 1, m);
      } else {
        assert chunks[..j - 1] == chunks;
        TerminalAccepted(cfg, rank, sent, chunks, m);
      }
    }
  }

  lemma NextMessage<R>(cfg: Config<R>, rank: nat, msgs: seq<Message>, j: nat)
    requires j < |msgs| && RankRun(cfg, rank, msgs[..j]).Open?
    ensures RankRun(cfg, rank, msgs[..j + 1]) == Deliver(cfg, rank, RankRun(cfg, rank, msgs[..j]), msgs[j])
  {
    assert msgs[..j + 1][..j] == msgs[..j];
  }

  lemma TerminalAccepted<R(!new)>(cfg: Config<R>, rank: nat, sent: seq<R>, chunks: seq<bytes>, m: Machine<R>)
    requires SoundCodec(cfg.codec) && Sends(cfg, sent, chunks) && Accounts(cfg, m, chunks)
    ensures var done := Deliver(cfg, rank, m, Terminal(cfg, rank, chunks, |sent|)); done.Done? && done.records == sent
  {
    CarriesRecords(cfg, sent, chunks);
  }

  /** Under lossless in-order delivery root never rejects: the gather is finished as soon as every
      script is delivered, with the exact records, and is otherwise still waiting. */
  lemma FifoFinishes<R(!new)>(cfg: Config<R>, sent: seq<seq<R>>, chunks: seq<seq<bytes>>, ds: seq<Delivery>, r: nat)
    requires SoundCodec(cfg.codec) && |chunks| == |sent| && 1 <= r < |sent|
    requires Sends(cfg, sent[r], chunks[r])
    requires Project(ds, r) <= Script(cfg, r, chunks[r], |sent[r]|)
    ensures var m := Machines(cfg, |sent|, ds)[r];
            if |Project(ds, r)| == |chunks[r]| + 1 then m.Done? && m.records == sent[r] else m.Open?
  {
    var script := Script(cfg, r, chunks[r], |sent[r]|);
    assert Project(ds, r) == script[..|Project(ds, r)|];
    ScriptAccepted(cfg, r, sent[r], chunks[r], |Project(ds, r)|);
  }

  /** A prefix of the deliveries projects to a prefix of what was delivered. */
  lemma {:induction false} ProjectPrefix(ds: seq<Delivery>, k: nat, rank: nat)
    requires k <= |ds|
    ensures Project(ds[..k], rank) <= Project(ds, rank)
  {
    if k < |ds| {
      ProjectPrefix(ds[..|ds| - 1], k, rank);
      assert ds[..|ds| - 1][..k] == ds[..k];
    } else {
      assert ds[..k] == ds;
    }
  }

  /** So the call succeeds: when every rank's script is delivered whole and in order before the deadline,
      root returns exactly what was sent. */
  method GatherOverFifoChannel<R(!new)>(cfg: Config<R>, ghost sent: seq<seq<R>>, ghost chunks: seq<seq<bytes>>,
                                        local: seq<R>, size: nat, deliveries: seq<Delivery>)
    returns (r: Result<seq<seq<R>>, GatherError>)
    requires SoundCodec(cfg.codec) && |sent| == |chunks| == size > 0 && sent[0] == local
    requires Fits(Map(cfg.codec.enc, local), RESULT_CHUNK_BYTES)
    requires forall i :: 1 <= i < size ==> Sends(cfg, sent[i], chunks[i])
                                           && Project(deliveries, i) == Script(cfg, i, chunks[i], |sent[i]|)
    ensures r == Ok(sent)
  {
    var meta;
    r, meta := GatherRawResults(cfg, local, size, deliveries);
    if size == 1 {
      assert sent == [local];
    } else {
      FifoMachines(cfg, sent, chunks, deliveries);
      FifoNoError(cfg, sent, deliveries);
      assert deliveries[..|deliveries|] == deliveries;
      if r.Ok? {
        ghost var k :| 0 <= k <= |deliveries|
                       && Finished(Machines(cfg, size, deliveries[..k]), r.value, meta.value.shards);
        FifoResult(cfg, sent, deliveries, k, r.value, meta.value.shards);
      }
    }
  }

  /** Rank `i` after `k` deliveries is not rejected, holds its records when done, and is done at the end. */
  ghost predicate FifoGood<R>(cfg: Config<R>, sent: seq<seq<R>>, ds: seq<Delivery>, i: nat, k: nat)
    requires i < |sent| && k <= |ds|
  {
    var m := Machines(cfg, |sent|, ds[..k])[i];
    !m.Broken? && (m.Done? ==> m.records == sent[i]) && (k == |ds| ==> m.Done?)
  }

  lemma FifoResult<R>(cfg: Config<R>, sent: seq<seq<R>>, ds: seq<Delivery>, k: nat, gathered: seq<seq<R>>,
                      shards: map<nat, Evidence>)
    requires |gathered| == |sent| > 0 && gathered[0] == sent[0] && k <= |ds|
    requires forall i: nat :: 1 <= i < |sent| ==> FifoGood(cfg, sent, ds, i, k)
    requires Finished(Machines(cfg, |sent|, ds[..k]), gathered, shards)
    ensures gathered == sent
  {
    forall i: nat | 1 <= i < |sent| ensures gathered[i] == sent[i] {
      assert FifoGood(cfg, sent, ds, i, k);
    }
  }

  lemma FifoMachines<R(!new)>(cfg: Config<R>, sent: seq<seq<R>>, chunks: seq<seq<bytes>>, ds: seq<Delivery>)
    requires SoundCodec(cfg.codec) && |sent| == |chunks|
    requires forall i :: 1 <= i < |sent| ==> Sends(cfg, sent[i], chunks[i])
                                             && Project(ds, i) == Script(cfg, i, chunks[i], |sent[i]|)
    ensures forall i: nat, k: nat :: 1 <= i < |sent| && k <= |ds| ==> FifoGood(cfg, sent, ds, i, k)
  {
    forall i: nat, k: nat | 1 <= i < |sent| && k <= |ds| ensures FifoGood(cfg, sent, ds, i, k) {
      ProjectPrefix(ds, k, i);
      FifoFinishes(cfg, sent, chunks, ds[..k], i);
      assert k == |ds| ==> ds[..k] == ds;
    }
  }

  /** Root neither rejects such a rank nor waits for it at the end. */
  lemma FifoNoError<R>(cfg: Config<R>, sent: seq<seq<R>>, ds: seq<Delivery>)
    requires forall i: nat, k: nat :: 1 <= i < |sent| && k <= |ds| ==> FifoGood(cfg, sent, ds, i, k)
    ensures forall i: nat, k: nat :: i < |sent| && k <= |ds| ==> !Machines(cfg, |sent|, ds[..k])[i].Broken?
    ensures forall i: nat :: 1 <= i < |sent| ==> Machines(cfg, |sent|, ds)[i].Done?
  {
    forall i: nat, k: nat | i < |sent| && k <= |ds| ensures !Machines(cfg, |sent|, ds[..k])[i].Broken? {
      if i == 0 {
        assert Machines(cfg, |sent|, ds[..k])[0] == Start();
      } else {
        assert FifoGood(cfg, sent, ds, i, k);
      }
    }
    forall i: nat | 1 <= i < |sent| ensures Machines(cfg, |sent|, ds)[i].Done? {
      assert FifoGood(cfg, sent, ds, i, |ds|) && ds[..|ds|] == ds;
    }
  }
}
