/** The length-prefixed canonical frame around every MPI message. */
module Frame {
  import opened Common

  const PAYLOAD_BYTES := 0x100000
  const HEADER_BYTES := 4096
  const FRAME_BYTES := 4 + HEADER_BYTES + PAYLOAD_BYTES

  /** JSON values; `JOther` stands for booleans, floats, null and lists. */
  datatype J = JInt(n: int) | JStr(s: string) | JObj(fields: map<string, J>) | JOther(text: string)

  /** The canonical writer (sorted keys, no blanks) and the strict reader. */
  datatype Json = Json(dumps: J -> bytes, loads: bytes -> Option<J>)

  /** What is written is never empty and reads back as written. */
  ghost predicate Faithful(json: Json) {
    forall j :: json.dumps(j) != [] && json.loads(json.dumps(j)) == Some(j)
  }

  datatype Message =
    | Data(run: int, sequence: int, content: bytes)
    | Summary(run: int, rank: int, content: bytes)
    | End(run: int, chunks: int, records: int, evidence: J)

  function Payload(m: Message): bytes { if m.End? then [] else m.content }

  function Header(m: Message): map<string, J> {
    match m
    case Data(run, sequence, content) =>
      map["schema_version" := JInt(1), "kind" := JStr("data"), "run_index" := JInt(run),
          "sequence" := JInt(sequence), "payload_bytes" := JInt(|content|)]
    case Summary(run, rank, content) =>
      map["schema_version" := JInt(1), "kind" := JStr("summary"), "run_index" := JInt(run),
          "rank" := JInt(rank), "payload_bytes" := JInt(|content|)]
    case End(run, chunks, records, evidence) =>
      map["schema_version" := JInt(1), "kind" := JStr("end"), "run_index" := JInt(run), "chunks" := JInt(chunks),
          "records" := JInt(records), "evidence" := evidence, "payload_bytes" := JInt(0)]
  }

  // ---------------------------------------------------------------- the length prefix

  function Pack4(n: nat): (p: bytes)
    requires n < 0x1_0000_0000
    ensures |p| == 4 && Unpack4(p) == n
  {
    var a := n / 0x100;
    var b := a / 0x100;
    [b / 0x100, b % 0x100, a % 0x100, n % 0x100]
  }

  function Unpack4(p: bytes): nat
    requires |p| == 4
  {
    (p[0] as int) * 0x100_0000 + (p[1] as int) * 0x1_0000 + (p[2] as int) * 0x100 + (p[3] as int)
  }

  lemma PackUnpack(p: bytes)
    requires |p| == 4
    ensures Unpack4(p) < 0x1_0000_0000 && Pack4(Unpack4(p)) == p
  {
    var a: int, b: int, c: int, d: int := p[0], p[1], p[2], p[3];
    Digit(a * 0x1_0000 + b * 0x100 + c, d);
    Digit(a * 0x100 + b, c);
    Digit(a, b);
    assert p == [p[0], p[1], p[2], p[3]];
  }

  lemma Digit(high: int, low: int)
    requires 0 <= low < 0x100
    ensures (high * 0x100 + low) / 0x100 == high && (high * 0x100 + low) % 0x100 == low
  {
  }

  // ---------------------------------------------------------------- decoding

  function IntAt(h: map<string, J>, key: string): Option<nat> {
    if key in h && h[key].JInt? && h[key].n >= 0 then Some(h[key].n) else None
  }

  function KeysOf(kind: J): set<string> {
    var common := {"schema_version", "kind", "run_index", "payload_bytes"};
    if kind == JStr("data") then common + {"sequence"}
    else if kind == JStr("summary") then common + {"rank"}
    else common + {"chunks", "records", "evidence"}
  }

  predicate KnownKind(kind: J) {
    kind == JStr("data") || kind == JStr("summary") || kind == JStr("end")
  }

  /** The header checks common to all kinds. */
  predicate HeaderOk(json: Json, h: map<string, J>, encoded: bytes) {
    && "kind" in h && KnownKind(h["kind"])
    && h.Keys == KeysOf(h["kind"])
    && h["schema_version"] == JInt(1)
    && IntAt(h, "run_index").Some? && IntAt(h, "payload_bytes").Some?
    && (h["kind"] == JStr("data") ==> IntAt(h, "sequence").Some?)
    && (h["kind"] == JStr("summary") ==> IntAt(h, "rank").Some?)
    && (h["kind"] == JStr("end") ==> IntAt(h, "chunks").Some? && IntAt(h, "records").Some?)
    && json.dumps(JObj(h)) == encoded
  }

  function FromHeader(h: map<string, J>, content: bytes): Option<Message>
    requires "kind" in h && KnownKind(h["kind"]) && h.Keys == KeysOf(h["kind"])
    requires h["run_index"].JInt? && h["payload_bytes"].JInt?
    requires h["kind"] == JStr("data") ==> h["sequence"].JInt?
    requires h["kind"] == JStr("summary") ==> h["rank"].JInt?
    requires h["kind"] == JStr("end") ==> h["chunks"].JInt? && h["records"].JInt?
  {
    if |content| != h["payload_bytes"].n then None
    else if h["kind"] == JStr("end") then
      if content != [] || !h["evidence"].JObj? then None
      else Some(End(h["run_index"].n, h["chunks"].n, h["records"].n, h["evidence"]))
    else if content == [] || |content| > PAYLOAD_BYTES then None
    else if h["kind"] == JStr("data") then Some(Data(h["run_index"].n, h["sequence"].n, content))
    else Some(Summary(h["run_index"].n, h["rank"].n, content))
  }

  function Decode(json: Json, frame: bytes): Option<Message> {
    if !(4 < |frame| <= FRAME_BYTES) then None
    else
      var size := Unpack4(frame[..4]);
      if !(0 < size <= HEADER_BYTES) || 4 + size > |frame| then None
      else
        var encoded := frame[4..4 + size];
        match json.loads(encoded)
        case None => None
        case Some(j) =>
          if !j.JObj? || !HeaderOk(json, j.fields, encoded) then None
          else FromHeader(j.fields, frame[4 + size..])
  }

  function Encode(json: Json, m: Message): Option<bytes> {
    if |Payload(m)| > PAYLOAD_BYTES then None
    else
      var encoded := json.dumps(JObj(Header(m)));
      if encoded == [] || |encoded| > HEADER_BYTES then None
      else
        var frame := Pack4(|encoded|) + encoded + Payload(m);
        if Decode(json, frame).None? then None else Some(frame)
  }

  // ---------------------------------------------------------------- the codec is a bijection

  /** Messages the protocol can carry. */
  ghost predicate Valid(m: Message) {
    match m
    case Data(run, sequence, content) => run >= 0 && sequence >= 0 && 0 < |content| <= PAYLOAD_BYTES
    case Summary(run, rank, content) => run >= 0 && rank >= 0 && 0 < |content| <= PAYLOAD_BYTES
    case End(run, chunks, records, evidence) => run >= 0 && chunks >= 0 && records >= 0 && evidence.JObj?
  }

  lemma HeaderKeys(m: Message)
    ensures Header(m).Keys == KeysOf(Header(m)["kind"])
  {
  }

  lemma HeaderReads(json: Json, m: Message)
    requires Valid(m)
    ensures HeaderOk(json, Header(m), json.dumps(JObj(Header(m))))
    ensures FromHeader(Header(m), Payload(m)) == Some(m)
  {
    HeaderKeys(m);
  }

  /** Only valid messages come out of the decoder, and the header it read is their header. */
  lemma HeaderIsCanonical(json: Json, h: map<string, J>, encoded: bytes, content: bytes)
    requires HeaderOk(json, h, encoded) && FromHeader(h, content).Some?
    ensures var m := FromHeader(h, content).value;
            Valid(m) && Header(m) == h && Payload(m) == content
  {
    var m := FromHeader(h, content).value;
    assert Header(m).Keys == h.Keys && Header(m)["kind"] == h["kind"];
    SameFields(h, m);
  }

  lemma SameFields(h: map<string, J>, m: Message)
    requires "kind" in h && Header(m).Keys == h.Keys && Header(m)["kind"] == h["kind"]
    requires h["schema_version"] == JInt(1) && h["run_index"] == JInt(m.run) && h["payload_bytes"] == JInt(|Payload(m)|)
    requires m.Data? ==> h["sequence"] == JInt(m.sequence)
    requires m.Summary? ==> h["rank"] == JInt(m.rank)
    requires m.End? ==> h["chunks"] == JInt(m.chunks) && h["records"] == JInt(m.records) && h["evidence"] == m.evidence
    ensures Header(m) == h
  {
    forall k | k in h ensures Header(m)[k] == h[k] {
      assert k in Header(m).Keys;
    }
  }

  lemma FrameParts(encoded: bytes, content: bytes)
    requires |encoded| < 0x1_0000_0000
    ensures var f := Pack4(|encoded|) + encoded + content;
            f[..4] == Pack4(|encoded|) && f[4..4 + |encoded|] == encoded && f[4 + |encoded|..] == content
  {
  }

  /** Decoding undoes encoding, and encoding succeeds exactly for valid messages whose header fits. */
  lemma EncodeThenDecode(json: Json, m: Message)
    requires Faithful(json)
    ensures Encode(json, m).Some? <==> Valid(m) && |json.dumps(JObj(Header(m)))| <= HEADER_BYTES
    ensures Encode(json, m).Some? ==> Decode(json, Encode(json, m).value) == Some(m)
  {
    var encoded := json.dumps(JObj(Header(m)));
    if |Payload(m)| <= PAYLOAD_BYTES && |encoded| <= HEADER_BYTES {
      var f := Pack4(|encoded|) + encoded + Payload(m);
      FrameParts(encoded, Payload(m));
      HeaderKeys(m);
      assert json.loads(encoded) == Some(JObj(Header(m)));
      if Valid(m) {
        HeaderReads(json, m);
      } else if Decode(json, f).Some? {
        HeaderIsCanonical(json, Header(m), encoded, Payload(m));
        SameHeader(Decode(json, f).value, m);
      }
    }
  }

  lemma SameHeader(a: Message, b: Message)
    requires Header(a) == Header(b) && Payload(a) == Payload(b)
    ensures a == b
  {
    assert Header(a)["kind"] == Header(b)["kind"];
    assert Header(a)["run_index"] == Header(b)["run_index"];
    match a
    case Data(_, _, _) => assert Header(a)["sequence"] == Header(b)["sequence"];
    case Summary(_, _, _) => assert Header(a)["rank"] == Header(b)["rank"];
    case End(_, _, _, _) =>
      assert Header(a)["chunks"] == Header(b)["chunks"];
      assert Header(a)["records"] == Header(b)["records"];
      assert Header(a)["evidence"] == Header(b)["evidence"];
  }

  /** Every accepted frame is the frame of the message it carries. */
  lemma DecodeThenEncode(json: Json, f: bytes)
    requires Faithful(json) && Decode(json, f).Some?
    ensures Encode(json, Decode(json, f).value) == Some(f)
  {
    var size := Unpack4(f[..4]);
    var encoded, content := f[4..4 + size], f[4 + size..];
    var h := json.loads(encoded).value.fields;
    HeaderIsCanonical(json, h, encoded, content);
    PackUnpack(f[..4]);
    assert f == f[..4] + encoded + content;
  }

  /** So no two frames carry the same message. */
  lemma FramesAreUnique(json: Json, f: bytes, g: bytes)
    requires Faithful(json) && Decode(json, f).Some? && Decode(json, f) == Decode(json, g)
    ensures f == g
  {
    DecodeThenEncode(json, f);
    DecodeThenEncode(json, g);
  }
}
