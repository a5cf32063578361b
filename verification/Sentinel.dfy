/** The sentinel of a qualification campaign: a process on an excluded node prints heartbeats to a
    log, the head takes witnesses of the log before and after every child, and a validator later
    reconstructs the whole argument from the sealed log. */
module Sentinel {
  import opened Common
  import opened Lines

  datatype Heartbeat = Heartbeat(time: real, host: string, pid: int, token: string, sequence: int)

  datatype Witness = Witness(heartbeat: Heartbeat, observed: real, size: int, digest: bytes)

  /** When a child started and completed. */
  datatype Receipt = Receipt(started: real, completed: real)

  datatype Evidence = Evidence(survived: bool, reaped: bool, token: string, host: string, pid: int,
                               logDigest: bytes, startup: Witness, checks: seq<Witness>)

  /** Code outside the model: the strict JSON parser with its shape check, the canonical name of a
      node, and SHA-256. */
  datatype World = World(parse: bytes -> Option<Heartbeat>, canon: string -> string, sha: bytes -> bytes)

  /** What a witness must agree with. */
  datatype Expect = Expect(host: string, token: string, identity: Option<Heartbeat>, after: Option<real>)

  predicate HeartbeatOk(w: World, r: Heartbeat, host: string, token: string, identity: Option<Heartbeat>) {
    && w.canon(r.host) == w.canon(host) && r.pid > 0 && r.token == token && r.sequence >= 0 && r.time > 0.0
    && (identity.Some? ==>
          r.host == identity.value.host && r.pid == identity.value.pid && r.token == identity.value.token)
  }

  predicate Fresh(observed: real, r: Heartbeat) {
    -1.0 <= observed - r.time <= 5.0
  }

  predicate New(r: Heartbeat, ex: Expect) {
    && (ex.after.Some? ==> r.time >= ex.after.value)
    && (ex.identity.Some? ==> r.sequence > ex.identity.value.sequence)
  }

  // ---------------------------------------------------------------- lines with their ends

  /** Length of the first line, its boundary included. */
  function End(s: bytes): (n: nat)
    requires s != []
    ensures 0 < n <= |s| && Boundary(s) <= n
  {
    var e := Boundary(s);
    if e == |s| then e else e + BoundaryWidth(s, e)
  }

  /** `splitlines(keepends=True)`. */
  function KeepLines(s: bytes): seq<bytes> {
    if s == [] then [] else [s[..End(s)]] + KeepLines(s[End(s)..])
  }

  /** A line without the boundary that ends it. */
  function Bare(line: bytes): bytes { line[..Boundary(line)] }

  /** Bytes after the first line do not change it. */
  lemma FirstLineAlone(s: bytes, m: nat)
    requires s != [] && End(s) <= m <= |s|
    ensures Boundary(s[..m]) == Boundary(s) && End(s[..m]) == End(s)
  {
    BoundaryIsFirst(s);
    BoundaryIs(s[..m], Boundary(s));
  }

  lemma {:induction false} KeepLinesAll(s: bytes)
    ensures Flatten(KeepLines(s)) == s
  {
    if s != [] {
      KeepLinesAll(s[End(s)..]);
      assert s == s[..End(s)] + s[End(s)..];
    }
  }

  /** A line feed lies in the first line or after it. */
  lemma EndsBefore(s: bytes, m: nat)
    requires 0 < m <= |s| && s[m - 1] == LF
    ensures End(s) <= m
  {
    BoundaryIsFirst(s);
  }

  /** The lines of a prefix that holds the first line. */
  lemma KeepFirst(s: bytes, d: nat)
    requires s != [] && d <= |s| - End(s)
    ensures KeepLines(s[..End(s) + d]) == [s[..End(s)]] + KeepLines(s[End(s)..][..d])
  {
    var m := End(s) + d;
    FirstLineAlone(s, m);
    CutAgain(s, End(s), m);
  }

  /** What follows a line feed starts a line of its own. */
  lemma {:induction false} KeepAppend(a: bytes, b: bytes)
    requires a != [] ==> a[|a| - 1] == LF
    ensures KeepLines(a + b) == KeepLines(a) + KeepLines(b)
  {
    if a == [] {
      assert a + b == b;
    } else {
      var n := End(a);
      var rest := a[n..];
      FirstOfTwo(a, b);
      KeepAppend(rest, b);
      Assoc([a[..n]], KeepLines(rest), KeepLines(b));
    }
  }

  lemma FirstOfTwo(a: bytes, b: bytes)
    requires a != [] && a[|a| - 1] == LF
    ensures End(a + b) == End(a) && (a + b)[..End(a)] == a[..End(a)] && (a + b)[End(a)..] == a[End(a)..] + b
  {
    EndsBefore(a + b, |a|);
    FirstLineAlone(a + b, |a|);
    assert (a + b)[..|a|] == a;
  }

  lemma CutAgain<T>(s: seq<T>, n: nat, m: nat)
    requires n <= m <= |s|
    ensures s[n..][..m - n] == s[..m][n..] && s[n..][m - n..] == s[m..] && s[..m][..n] == s[..n]
  {
  }

  lemma SplitStep(s: bytes)
    requires s != []
    ensures SplitLines(s) == [Bare(s[..End(s)])] + SplitLines(s[End(s)..])
  {
    var n := End(s);
    FirstLineAlone(s, n);
    assert s[..n][..Boundary(s)] == s[..Boundary(s)];
    if Boundary(s) == |s| {
      assert s[..Boundary(s)] == s && s[n..] == [];
    }
  }

  lemma {:induction false} SplitIsBare(s: bytes)
    ensures |SplitLines(s)| == |KeepLines(s)|
    ensures forall i :: 0 <= i < |KeepLines(s)| ==> SplitLines(s)[i] == Bare(KeepLines(s)[i])
  {
    if s != [] {
      SplitStep(s);
      SplitIsBare(s[End(s)..]);
    }
  }

  /** Number of bytes in the first `k` lines. */
  function Offset(lines: seq<bytes>, k: nat): nat
    requires k <= |lines|
  {
    |Flatten(lines[..k])|
  }

  lemma OffsetNext(lines: seq<bytes>, k: nat)
    requires k < |lines|
    ensures Offset(lines, k + 1) == Offset(lines, k) + |lines[k]|
  {
    assert lines[..k + 1] == lines[..k] + [lines[k]];
    FlattenSnoc(lines[..k], lines[k]);
  }

  lemma OffsetCons(line: bytes, lines: seq<bytes>, k: nat)
    requires k <= |lines|
    ensures Offset([line] + lines, k + 1) == |line| + Offset(lines, k)
  {
    assert ([line] + lines)[..k + 1] == [line] + lines[..k];
    assert ([line] + lines[..k])[1..] == lines[..k];
  }

  /** The first `k` lines are the lines of the bytes they occupy. */
  lemma {:induction false} KeepPrefix(s: bytes, k: nat) returns (m: nat)
    requires k <= |KeepLines(s)|
    ensures m == Offset(KeepLines(s), k) && m <= |s|
    ensures KeepLines(s[..m]) == KeepLines(s)[..k]
  {
    m := 0;
    if k > 0 {
      var first, rest := s[..End(s)], s[End(s)..];
      var tail := KeepLines(rest);
      assert KeepLines(s) == [first] + tail;
      var d := KeepPrefix(rest, k - 1);
      m := End(s) + d;
      assert KeepLines(s[..m]) == [first] + tail[..k - 1] by { KeepFirst(s, d); }
      OffsetCons(first, tail, k - 1);
      TakeCons(first, tail, k - 1);
    }
  }

  lemma TakeCons<T>(x: T, xs: seq<T>, k: nat)
    requires k <= |xs|
    ensures ([x] + xs)[..k + 1] == [x] + xs[..k]
  {
  }

  lemma {:induction false} KeptIsLine(s: bytes, k: nat)
    requires k < |KeepLines(s)|
    ensures KeepLines(s)[k] != [] && End(KeepLines(s)[k]) == |KeepLines(s)[k]|
  {
    FirstLineAlone(s, End(s));
    if k > 0 { KeptIsLine(s[End(s)..], k - 1); }
  }

  lemma {:induction false} OffsetGrows(s: bytes, j: nat, k: nat)
    requires j < k <= |KeepLines(s)|
    ensures Offset(KeepLines(s), j) < Offset(KeepLines(s), k)
  {
    OffsetNext(KeepLines(s), k - 1);
    KeptIsLine(s, k - 1);
    if j < k - 1 { OffsetGrows(s, j, k - 1); }
  }

  // ---------------------------------------------------------------- taking a witness

  predicate Space(b: byte) { b == 32 || 9 <= b <= 13 }

  /** `line.lstrip().startswith(b"{")`. */
  predicate Candidate(line: bytes) {
    line != [] && (line[0] == 123 || (Space(line[0]) && Candidate(line[1..])))
  }

  /** A structured line: blanks, then an opening brace. */
  lemma {:induction false} CandidateIff(line: bytes)
    ensures Candidate(line) <==>
            exists k :: 0 <= k < |line| && line[k] == 123 && forall j :: 0 <= j < k ==> Blank(line[j])
  {
    if line != [] && line[0] != 123 {
      CandidateIff(line[1..]);
      if Candidate(line) {
        var k :| 0 <= k < |line[1..]| && line[1..][k] == 123 && forall j :: 0 <= j < k ==> Blank(line[1..][j]);
        assert line[k + 1] == 123;
        forall j | 0 <= j < k + 1 ensures Blank(line[j]) {
          if j > 0 { assert line[1..][j - 1] == line[j]; }
        }
      }
      if k :| 0 <= k < |line| && line[k] == 123 && forall j :: 0 <= j < k ==> Blank(line[j]) {
        assert Blank(line[0]) && line[1..][k - 1] == 123;
        forall j | 0 <= j < k - 1 ensures Blank(line[1..][j]) { assert line[1..][j] == line[j + 1]; }
      }
    }
  }

  /** Space, tab, line feed, vertical tab, form feed and carriage return. */
  ghost predicate Blank(b: byte) { b in {32, 9, 10, 11, 12, 13} }

  /** One past the last line feed. */
  function Cut(t: bytes): (c: nat)
    ensures c <= |t| && (c > 0 ==> t[c - 1] == LF)
    ensures forall k :: c <= k < |t| ==> t[k] != LF
  {
    if t == [] then 0
    else if t[|t| - 1] == LF then |t|
    else Cut(t[..|t| - 1])
  }

  function Complete(t: bytes): seq<bytes> { KeepLines(t[..Cut(t)]) }

  ghost predicate IsLast(lines: seq<bytes>, k: nat) {
    k < |lines| && Candidate(lines[k]) && forall j :: k < j < |lines| ==> !Candidate(lines[j])
  }

  /** The witness is of line `k`, the last complete structured line of the transcript. */
  ghost predicate Attests(w: World, t: bytes, ex: Expect, wit: Witness, k: nat) {
    var lines := Complete(t);
    && IsLast(lines, k)
    && w.parse(lines[k]) == Some(wit.heartbeat)
    && HeartbeatOk(w, wit.heartbeat, ex.host, ex.token, ex.identity)
    && Fresh(wit.observed, wit.heartbeat) && New(wit.heartbeat, ex)
    && wit.size == Offset(lines, k + 1) <= |t|
    && wit.digest == w.sha(t[..wit.size])
  }

  ghost predicate NoCandidate(lines: seq<bytes>) {
    forall j :: 0 <= j < |lines| ==> !Candidate(lines[j])
  }

  /** What the head concludes from its candidate line: abort, wait, or accept the record. */
  function Judge(w: World, line: bytes, ex: Expect, observed: real): Result<Option<Heartbeat>, string> {
    match w.parse(line)
    case None => Err("not a heartbeat")
    case Some(r) =>
      if !HeartbeatOk(w, r, ex.host, ex.token, ex.identity) then Err("identity is invalid")
      else if Fresh(observed, r) && New(r, ex) then Ok(Some(r))
      else Ok(None)
  }

  /** The head aborts on a line that is no heartbeat or one of another host, token or process; it takes a record that
      is fresh, not older than what it waits for, and newer than the startup heartbeat; otherwise it waits. */
  lemma JudgeMeans(w: World, line: bytes, ex: Expect, observed: real)
    ensures var j, p := Judge(w, line, ex, observed), w.parse(line);
            && (j.Err? <==> p.None? || !HeartbeatOk(w, p.value, ex.host, ex.token, ex.identity))
            && (forall r :: j == Ok(Some(r)) <==>
                            && p == Some(r) && HeartbeatOk(w, r, ex.host, ex.token, ex.identity)
                            && observed - 5.0 <= r.time <= observed + 1.0
                            && (ex.after.Some? ==> ex.after.value <= r.time)
                            && (ex.identity.Some? ==> ex.identity.value.sequence < r.sequence))
  {
  }

  /** Skipping backwards over lines that are not structured. `i` lines are left and `boundary` is
      where they end. */
  method SkipDiagnostics(lines: seq<bytes>, end: nat) returns (i: nat, boundary: nat)
    requires end == Offset(lines, |lines|)
    ensures i <= |lines| && boundary == Offset(lines, i) <= end
    ensures if i == 0 then NoCandidate(lines) else IsLast(lines, i - 1)
  {
    i, boundary := |lines|, end;
    while i > 0 && !Candidate(lines[i - 1])
      invariant 0 <= i <= |lines| && boundary == Offset(lines, i) <= end
      invariant forall j :: i <= j < |lines| ==> !Candidate(lines[j])
    {
      OffsetNext(lines, i - 1);
      boundary := boundary - |lines[i - 1]|;
      i := i - 1;
    }
  }

  /** One look at the log: no witness yet, a witness, or a failure that aborts the campaign. */
  method Look(w: World, t: bytes, ex: Expect, observed: real)
    returns (r: Result<Option<Witness>, string>, ghost k: nat)
    ensures NoCandidate(Complete(t)) ==> r == Ok(None)
    ensures !NoCandidate(Complete(t)) ==> IsLast(Complete(t), k)
    ensures !NoCandidate(Complete(t)) ==>
              match Judge(w, Complete(t)[k], ex, observed)
              case Err(e) => r == Err(e)
              case Ok(None) => r == Ok(None)
              case Ok(Some(_)) => r.Ok? && r.value.Some? && r.value.value.observed == observed
                                  && Attests(w, t, ex, r.value.value, k)
  {
    var boundary := Cut(t);
    var lines := KeepLines(t[..boundary]);
    KeepLinesAll(t[..boundary]);
    assert lines[..|lines|] == lines;
    var i;
    i, boundary := SkipDiagnostics(lines, boundary);
    k := 0;
    if i == 0 {
      return Ok(None), k;
    }
    k := i - 1;
    var record := Judge(w, lines[i - 1], ex, observed);
    if record.Err? {
      return Err(record.error), k;
    }
    if record.value.None? {
      return Ok(None), k;
    }
    return Ok(Some(Witness(record.value.value, observed, boundary, w.sha(t[..boundary])))), k;
  }

  /** What the head sees each time round its polling loop. */
  datatype Poll = Stopped | Seen(transcript: bytes, observed: real)

  lemma LastIsOne(lines: seq<bytes>, k: nat)
    ensures IsLast(lines, k) ==> forall j: nat :: IsLast(lines, j) ==> j == k
  {
  }

  /** The look decides nothing: there is no candidate line, or its record is stale or old. */
  ghost predicate Waits(w: World, p: Poll, ex: Expect) {
    p.Seen? && forall k: nat :: IsLast(Complete(p.transcript), k) ==>
                             Judge(w, Complete(p.transcript)[k], ex, p.observed) == Ok(None)
  }

  /** The look ends the wait without a witness. */
  ghost predicate Aborts(w: World, p: Poll, ex: Expect) {
    p.Stopped? || exists k: nat :: IsLast(Complete(p.transcript), k)
                              && Judge(w, Complete(p.transcript)[k], ex, p.observed).Err?
  }

  ghost predicate Finds(w: World, p: Poll, ex: Expect, wit: Witness) {
    p.Seen? && wit.observed == p.observed && exists k :: Attests(w, p.transcript, ex, wit, k)
  }

  ghost predicate WaitedUntil(w: World, polls: seq<Poll>, ex: Expect, i: nat)
    requires i <= |polls|
  {
    forall j :: 0 <= j < i ==> Waits(w, polls[j], ex)
  }

  /** The polling loop: the first look that decides anything decides the result, and when the polls
      run out there is none. */
  method SentinelWitness(w: World, polls: seq<Poll>, ex: Expect) returns (r: Result<Witness, string>)
    ensures r.Ok? ==> exists i :: 0 <= i < |polls| && WaitedUntil(w, polls, ex, i) && Finds(w, polls[i], ex, r.value)
    ensures r.Err? ==> WaitedUntil(w, polls, ex, |polls|)
                       || exists i :: 0 <= i < |polls| && WaitedUntil(w, polls, ex, i) && Aborts(w, polls[i], ex)
  {
    for i := 0 to |polls|
      invariant WaitedUntil(w, polls, ex, i)
    {
      if polls[i].Stopped? {
        return Err("stopped");
      }
      var look, k := Look(w, polls[i].transcript, ex, polls[i].observed);
      if look.Err? {
        assert Aborts(w, polls[i], ex);
        return Err(look.error);
      }
      if look.value.Some? {
        assert Finds(w, polls[i], ex, look.value.value);
        return Ok(look.value.value);
      }
      LastIsOne(Complete(polls[i].transcript), k);
      assert Waits(w, polls[i], ex);
    }
    return Err("no fresh heartbeat");
  }

  // ---------------------------------------------------------------- validating

  /** The witness is bound to an exact prefix of the log. */
  predicate Bound(w: World, log: bytes, wit: Witness) {
    && 0 < wit.size <= |log| && log[wit.size - 1] == LF
    && w.sha(log[..wit.size]) == wit.digest
    && var lines := SplitLines(log[..wit.size]);
       lines != [] && w.parse(lines[|lines| - 1]) == Some(wit.heartbeat)
  }

  /** The tests on witness `i`, given the startup identity. */
  predicate WitnessOk(w: World, log: bytes, host: string, token: string,
                      ws: seq<Witness>, receipts: seq<Receipt>, i: nat)
    requires i < |ws| == |receipts| + 1 && receipts != []
  {
    var wit, r := ws[i], ws[i].heartbeat;
    && Bound(w, log, wit)
    && HeartbeatOk(w, r, host, token, if i == 0 then None else Some(ws[0].heartbeat))
    && wit.observed > 0.0 && Fresh(wit.observed, r)
    && (i > 0 ==> r.time >= receipts[i - 1].completed && wit.observed >= receipts[i - 1].completed
                  && wit.observed > ws[i - 1].observed && r.sequence > ws[i - 1].heartbeat.sequence
                  && wit.size > ws[i - 1].size)
    && (i < |receipts| ==> wit.observed <= receipts[i].started)
  }

  predicate HeaderOk(w: World, ev: Evidence, log: bytes, token: string, receipts: seq<Receipt>) {
    && ev.survived && ev.reaped && |ev.checks| == |receipts| && receipts != []
    && ev.token == token && w.sha(log) == ev.logDigest
    && ev.host == ev.startup.heartbeat.host && ev.pid == ev.startup.heartbeat.pid
  }

  ghost predicate Valid(w: World, ev: Evidence, log: bytes, host: string, token: string, receipts: seq<Receipt>) {
    && HeaderOk(w, ev, log, token, receipts)
    && forall i :: 0 <= i <= |receipts| ==> WitnessOk(w, log, host, token, [ev.startup] + ev.checks, receipts, i)
  }

  method ValidateSentinelEvidence(w: World, ev: Evidence, log: bytes, host: string, token: string,
                                  receipts: seq<Receipt>)
    returns (ok: bool)
    ensures ok <==> Valid(w, ev, log, host, token, receipts)
  {
    if !(ev.survived && ev.reaped && |ev.checks| == |receipts| && receipts != []) {
      return false;
    }
    if ev.token != token || w.sha(log) != ev.logDigest {
      return false;
    }
    var ws := [ev.startup] + ev.checks;
    var identity: Option<Heartbeat> := None;
    var previous: Option<Witness> := None;
    for i := 0 to |ws|
      invariant identity == if i == 0 then None else Some(ws[0].heartbeat)
      invariant previous == if i == 0 then None else Some(ws[i - 1])
      invariant i > 0 ==> HeaderOk(w, ev, log, token, receipts)
      invariant forall j :: 0 <= j < i ==> WitnessOk(w, log, host, token, ws, receipts, j)
    {
      var wit := ws[i];
      var record := wit.heartbeat;
      ghost var tests := WitnessOk(w, log, host, token, ws, receipts, i);
      if !Bound(w, log, wit) || !HeartbeatOk(w, record, host, token, identity) {
        assert !tests;
        return false;
      }
      if wit.observed <= 0.0 || !Fresh(wit.observed, record) {
        assert !tests;
        return false;
      }
      if i == 0 {
        identity := Some(record);
        if wit.observed > receipts[0].started {
          assert !tests;
          return false;
        }
        if ev.host != record.host || ev.pid != record.pid {
          return false;
        }
      } else {
        var completed := receipts[i - 1].completed;
        if record.time < completed || wit.observed < completed || wit.observed <= previous.value.observed
           || record.sequence <= previous.value.heartbeat.sequence || wit.size <= previous.value.size {
          assert !tests;
          return false;
        }
        if i < |receipts| && wit.observed > receipts[i].started {
          assert !tests;
          return false;
        }
      }
      previous := Some(wit);
    }
    return true;
  }
}
