/** The gather over delivered frames: root decodes every frame it receives, and one that does not decode is
    a message it does not know. */
module Wire {
  import opened Common
  import opened Gather
  import opened GatherSafety
  import Chunker
  import Frame

  /** Canonical JSON, and the hexadecimal text of a digest. */
  datatype Text = Text(json: Frame.Json, hex: bytes -> string, unhex: string -> bytes)

  ghost predicate SoundText(t: Text) {
    Frame.Faithful(t.json) && forall d :: t.unhex(t.hex(d)) == d
  }

  function EvidenceJson(t: Text, e: Evidence): Frame.J {
    Frame.JObj(map["rank" := Frame.JInt(e.rank), "size_bytes" := Frame.JInt(e.sizeBytes),
                   "sha256" := Frame.JStr(t.hex(e.sha256)), "transport" := Frame.JStr(e.transport)])
  }

  /** What no rank's evidence equals. */
  const NO_EVIDENCE := Evidence(0, 0, [], "")

  predicate EvidenceShape(j: Frame.J) {
    && j.JObj? && j.fields.Keys == {"rank", "size_bytes", "sha256", "transport"}
    && j.fields["rank"].JInt? && j.fields["rank"].n >= 0
    && j.fields["size_bytes"].JInt? && j.fields["size_bytes"].n >= 0
    && j.fields["sha256"].JStr? && j.fields["transport"].JStr?
  }

  /** Root compares the object itself, so only the exact object of some evidence stands for it. Python also takes
      numbers of different types for equal when their values are, as in `true == 1`; no rank writes such evidence,
      so what a gather accepts from ranks that follow the protocol is the same. */
  function ReadEvidence(t: Text, j: Frame.J): Evidence {
    if !EvidenceShape(j) then NO_EVIDENCE
    else
      var e := Evidence(j.fields["rank"].n, j.fields["size_bytes"].n,
                        t.unhex(j.fields["sha256"].s), j.fields["transport"].s);
      if EvidenceJson(t, e) == j then e else NO_EVIDENCE
  }

  lemma EvidenceReadsBack(t: Text, e: Evidence)
    requires SoundText(t)
    ensures ReadEvidence(t, EvidenceJson(t, e)) == e
  {
    var j := EvidenceJson(t, e);
    assert j.fields.Keys == {"rank", "size_bytes", "sha256", "transport"};
  }

  function Framed(t: Text, m: Message): Frame.Message
    requires !m.Unknown?
  {
    match m
    case Data(run, sequence, content) => Frame.Data(run, sequence, content)
    case End(run, chunks, records, evidence) => Frame.End(run, chunks, records, EvidenceJson(t, evidence))
  }

  function OfFrame(t: Text, frame: bytes): Message {
    match Frame.Decode(t.json, frame)
    case None => Unknown
    case Some(Data(run, sequence, content)) => if run < 0 || sequence < 0 then Unknown else Data(run, sequence, content)
    case Some(Summary(_, _, _)) => Unknown
    case Some(End(run, chunks, records, evidence)) =>
      if run < 0 || chunks < 0 || records < 0 then Unknown else End(run, chunks, records, ReadEvidence(t, evidence))
  }

  /** A frame carries the message it was made of. */
  lemma FrameCarries(t: Text, m: Message, frame: bytes)
    requires SoundText(t) && !m.Unknown? && Frame.Encode(t.json, Framed(t, m)) == Some(frame)
    ensures OfFrame(t, frame) == m
  {
    Frame.EncodeThenDecode(t.json, Framed(t, m));
    if m.End? { EvidenceReadsBack(t, m.evidence); }
  }

  type FrameDelivery = (nat, bytes)

  function Received(t: Text, fs: seq<FrameDelivery>): (ds: seq<Delivery>)
    ensures |ds| == |fs| && forall i :: 0 <= i < |fs| ==> ds[i] == (fs[i].0, OfFrame(t, fs[i].1))
  {
    seq(|fs|, i requires 0 <= i < |fs| => (fs[i].0, OfFrame(t, fs[i].1)))
  }

  /** A frame the rank sent: the encoding of one of its messages. */
  ghost predicate SentFrame<R>(t: Text, cfg: Config<R>, rank: nat, records: seq<R>, chunks: seq<bytes>, frame: bytes) {
    exists m :: m in SentBy(cfg, rank, records, chunks) && !m.Unknown?
                && Frame.Encode(t.json, Framed(t, m)) == Some(frame)
  }

  /** Every frame that decodes to a message of this run was sent in this run by the rank it came from. */
  ghost predicate HonestFrames<R>(t: Text, cfg: Config<R>, sent: seq<seq<R>>, chunks: seq<seq<bytes>>,
                                  fs: seq<FrameDelivery>)
  {
    && |chunks| == |sent|
    && (forall r :: 1 <= r < |sent| && Chunker.Fits(Map(cfg.codec.enc, sent[r]), Chunker.RESULT_CHUNK_BYTES) ==>
          Sends(cfg, sent[r], chunks[r]))
    && (forall i :: 0 <= i < |fs| && 1 <= fs[i].0 < |sent| && OfRun(OfFrame(t, fs[i].1), cfg.run) ==>
          SentFrame(t, cfg, fs[i].0, sent[fs[i].0], chunks[fs[i].0], fs[i].1))
  }

  lemma HonestFramesAreHonest<R>(t: Text, cfg: Config<R>, sent: seq<seq<R>>, chunks: seq<seq<bytes>>,
                                 fs: seq<FrameDelivery>)
    requires SoundText(t) && HonestFrames(t, cfg, sent, chunks, fs)
    ensures HonestRanks(cfg, sent, chunks, Received(t, fs))
  {
    var ds := Received(t, fs);
    forall i | 0 <= i < |ds| && 1 <= ds[i].0 < |sent| && OfRun(ds[i].1, cfg.run)
      ensures ds[i].1 in SentBy(cfg, ds[i].0, sent[ds[i].0], chunks[ds[i].0])
    {
      var r := fs[i].0;
      assert SentFrame(t, cfg, r, sent[r], chunks[r], fs[i].1);
      var m :| m in SentBy(cfg, r, sent[r], chunks[r]) && !m.Unknown?
               && Frame.Encode(t.json, Framed(t, m)) == Some(fs[i].1);
      FrameCarries(t, m, fs[i].1);
    }
  }

  /** End to end: over a channel that drops, duplicates and reorders frames, replays those of other runs and
      delivers bytes that are no frames, root returns exactly the records of all ranks or fails. */
  method GatherFrames<R(!new)>(t: Text, cfg: Config<R>, ghost sent: seq<seq<R>>, ghost chunks: seq<seq<bytes>>,
                               local: seq<R>, size: nat, frames: seq<FrameDelivery>)
    returns (r: Result<seq<seq<R>>, GatherError>, meta: Option<Meta>)
    requires SoundText(t) && SoundCodec(cfg.codec) && HonestFrames(t, cfg, sent, chunks, frames)
    requires |sent| == size > 0 && sent[0] == local
    ensures meta.Some? && meta.value.complete <==> r.Ok?
    ensures r.Ok? ==> r.value == sent && forall i :: i in meta.value.shards <==> 0 <= i < size
    ensures size > 1 && meta.Some? ==> ShardsDescribe(cfg, sent, meta.value.shards)
    ensures r.Ok? && size > 1 ==> AllSendable(cfg, sent)
  {
    HonestFramesAreHonest(t, cfg, sent, chunks, frames);
    r, meta := GatherOverUnreliableChannel(cfg, sent, chunks, local, size, Received(t, frames));
  }
}
