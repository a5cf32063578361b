/** What accepted sentinel evidence proves, and exactly which honest campaigns it accepts. */
module SentinelSafety {
  import opened Common
  import opened Lines
  import opened Sentinel

  // ---------------------------------------------------------------- soundness

  ghost predicate Accepted(w: World, log: bytes, host: string, token: string,
                           ws: seq<Witness>, receipts: seq<Receipt>)
  {
    && |ws| == |receipts| + 1 && receipts != []
    && forall i :: 0 <= i < |ws| ==> WitnessOk(w, log, host, token, ws, receipts, i)
  }

  /** Evidence the validator accepts was marked as survived and reaped, names the token and the process of its
      startup witness, seals exactly this log by its digest, and holds an accepted witness for the startup and one
      after every child. */
  lemma ValidEvidence(w: World, ev: Evidence, log: bytes, host: string, token: string, receipts: seq<Receipt>)
    requires Valid(w, ev, log, host, token, receipts)
    ensures ev.survived && ev.reaped && ev.token == token && ev.logDigest == w.sha(log)
    ensures ev.host == ev.startup.heartbeat.host && ev.pid == ev.startup.heartbeat.pid
    ensures |ev.checks| == |receipts| > 0 && Accepted(w, log, host, token, [ev.startup] + ev.checks, receipts)
  {
  }

  /** Later witnesses observe later, hold higher sequence numbers and cover longer prefixes. */
  lemma {:induction false} WitnessesAdvance(w: World, log: bytes, host: string, token: string,
                                            ws: seq<Witness>, receipts: seq<Receipt>, i: nat, j: nat)
    requires Accepted(w, log, host, token, ws, receipts) && i < j < |ws|
    ensures ws[i].observed < ws[j].observed && ws[i].size < ws[j].size
    ensures ws[i].heartbeat.sequence < ws[j].heartbeat.sequence
  {
    assert WitnessOk(w, log, host, token, ws, receipts, j);
    if i < j - 1 { WitnessesAdvance(w, log, host, token, ws, receipts, i, j - 1); }
  }

  /** Accepted evidence names one process, at every witness up to the last. */
  lemma OneSentinel(w: World, log: bytes, host: string, token: string, ws: seq<Witness>, receipts: seq<Receipt>, i: nat)
    requires Accepted(w, log, host, token, ws, receipts) && i < |ws|
    ensures ws[i].heartbeat.host == ws[0].heartbeat.host && ws[i].heartbeat.pid == ws[0].heartbeat.pid
    ensures ws[i].heartbeat.token == token && w.canon(ws[i].heartbeat.host) == w.canon(host)
    ensures ws[i].heartbeat.pid > 0 && ws[i].heartbeat.sequence >= 0 && ws[i].heartbeat.time > 0.0
    ensures ws[i].observed > 0.0
  {
    assert WitnessOk(w, log, host, token, ws, receipts, i);
  }

  /** That process outlived every child: it was witnessed before the child started, by a heartbeat that was
      then at most five seconds old and stamped at most one second ahead, and it sent a new heartbeat after
      the child had completed. */
  lemma OneSentinelSurvives(w: World, log: bytes, host: string, token: string,
                            ws: seq<Witness>, receipts: seq<Receipt>, i: nat)
    requires Accepted(w, log, host, token, ws, receipts) && i < |receipts|
    ensures ws[i].observed <= receipts[i].started
    ensures ws[i].observed - 5.0 <= ws[i].heartbeat.time <= ws[i].observed + 1.0
    ensures receipts[i].completed <= ws[i + 1].heartbeat.time
    ensures ws[i].heartbeat.sequence < ws[i + 1].heartbeat.sequence
  {
    assert WitnessOk(w, log, host, token, ws, receipts, i);
    assert WitnessOk(w, log, host, token, ws, receipts, i + 1);
  }

  /** The children of accepted evidence ran one after another. */
  lemma ChildrenDoNotOverlap(w: World, log: bytes, host: string, token: string,
                             ws: seq<Witness>, receipts: seq<Receipt>, i: nat, j: nat)
    requires Accepted(w, log, host, token, ws, receipts) && i < j < |receipts|
    ensures receipts[i].completed <= ws[i + 1].observed <= ws[j].observed <= receipts[j].started
  {
    WitnessTimes(w, log, host, token, ws, receipts, i + 1);
    WitnessTimes(w, log, host, token, ws, receipts, j);
    if i + 1 < j { WitnessesAdvance(w, log, host, token, ws, receipts, i + 1, j); }
  }

  lemma WitnessTimes(w: World, log: bytes, host: string, token: string,
                     ws: seq<Witness>, receipts: seq<Receipt>, i: nat)
    requires Accepted(w, log, host, token, ws, receipts) && i < |ws|
    ensures i > 0 ==> receipts[i - 1].completed <= ws[i].observed
    ensures i < |receipts| ==> ws[i].observed <= receipts[i].started
  {
    assert WitnessOk(w, log, host, token, ws, receipts, i);
  }

  /** Appending to the log keeps every witness bound to it. */
  lemma BoundStays(w: World, log: bytes, more: bytes, wit: Witness)
    requires Bound(w, log, wit)
    ensures Bound(w, log + more, wit)
  {
    assert (log + more)[..wit.size] == log[..wit.size];
  }

  // ---------------------------------------------------------------- honest campaigns

  /** Parsing ignores the boundary at the end of a line, as JSON does. */
  ghost predicate Trims(w: World) {
    forall line: bytes :: line != [] && End(line) == |line| ==> w.parse(line) == w.parse(Bare(line))
  }

  /** The heartbeats of the log are those of one counting process with a clock. */
  ghost predicate Ordered(w: World, lines: seq<bytes>) {
    forall j, k :: 0 <= j < k < |lines| && w.parse(lines[j]).Some? && w.parse(lines[k]).Some? ==>
      var a, b := w.parse(lines[j]).value, w.parse(lines[k]).value;
      a.sequence < b.sequence && a.time <= b.time
  }

  function ExpectAt(host: string, token: string, ws: seq<Witness>, receipts: seq<Receipt>, i: nat): Expect
    requires i < |ws| == |receipts| + 1
  {
    if i == 0 then Expect(host, token, None, None)
    else Expect(host, token, Some(ws[0].heartbeat), Some(receipts[i - 1].completed))
  }

  /** A campaign as the executor runs it: a witness, then for every child its run and a witness, all
      read from one growing log and stamped by one clock. `looks[i]` is the transcript witness `i` was
      taken from and `ks[i]` the line it found. */
  ghost predicate Honest(w: World, log: bytes, host: string, token: string, ws: seq<Witness>, receipts: seq<Receipt>,
                         looks: seq<bytes>, ks: seq<nat>)
  {
    && |ws| == |looks| == |ks| == |receipts| + 1 && receipts != []
    && (forall i :: 0 <= i < |ws| ==> looks[i] <= log && ws[i].observed > 0.0
                                      && Attests(w, looks[i], ExpectAt(host, token, ws, receipts, i), ws[i], ks[i]))
    && (forall i :: 0 <= i < |receipts| ==>
          ws[i].observed <= receipts[i].started < receipts[i].completed <= ws[i + 1].observed)
  }

  /** The witness is of line `k` of the log. */
  ghost predicate OnLine(w: World, log: bytes, wit: Witness, k: nat) {
    var lines := KeepLines(log);
    && k < |lines| && w.parse(lines[k]) == Some(wit.heartbeat)
    && wit.size == Offset(lines, k + 1) <= |log| && wit.digest == w.sha(log[..wit.size])
  }

  /** A line found in a prefix of the log is the same line of the log. */
  lemma LineOfLog(w: World, t: bytes, log: bytes, ex: Expect, wit: Witness, k: nat)
    requires t <= log && Attests(w, t, ex, wit, k)
    ensures OnLine(w, log, wit, k)
  {
    CompleteStays(t, log, k);
    assert log[..wit.size] == t[..wit.size];
  }

  lemma CompleteStays(t: bytes, log: bytes, k: nat)
    requires t <= log && k < |Complete(t)|
    ensures k < |KeepLines(log)| && KeepLines(log)[k] == Complete(t)[k]
    ensures KeepLines(log)[..k + 1] == Complete(t)[..k + 1]
  {
    var whole := t[..Cut(t)];
    var rest := RestOf(whole, log);
    KeepAppend(whole, rest);
    TakePrefix(KeepLines(whole), KeepLines(rest), k);
  }

  lemma RestOf<T>(a: seq<T>, s: seq<T>) returns (rest: seq<T>)
    requires a <= s
    ensures s == a + rest
  {
    rest := s[|a|..];
  }

  lemma TakePrefix<T>(a: seq<T>, b: seq<T>, k: nat)
    requires k < |a|
    ensures (a + b)[k] == a[k] && (a + b)[..k + 1] == a[..k + 1]
  {
  }

  /** A witness of a line is bound to the log exactly when that line ends with a line feed and not
      with a lone carriage return. */
  lemma BoundIff(w: World, log: bytes, wit: Witness, k: nat)
    requires Trims(w) && OnLine(w, log, wit, k)
    ensures 0 < wit.size && (Bound(w, log, wit) <==> log[wit.size - 1] == LF)
  {
    PrefixLast(log, wit.size, k);
    KeptIsLine(log, k);
  }

  /** The last line of the bytes up to the end of line `k`. */
  lemma PrefixLast(log: bytes, size: nat, k: nat)
    requires k < |KeepLines(log)| && size == Offset(KeepLines(log), k + 1)
    ensures 0 < size <= |log|
    ensures var lines := SplitLines(log[..size]); |lines| == k + 1 && lines[k] == Bare(KeepLines(log)[k])
  {
    OffsetGrows(log, 0, k + 1);
    var m := KeepPrefix(log, k + 1);
    SplitIsBare(log[..m]);
  }

  /** In an ordered log a longer prefix is one that ends with a higher sequence number, and a later time
      needs a longer prefix. */
  lemma LaterLine(w: World, log: bytes, a: Witness, j: nat, b: Witness, k: nat)
    requires OnLine(w, log, a, j) && OnLine(w, log, b, k) && Ordered(w, KeepLines(log))
    ensures a.size < b.size <==> a.heartbeat.sequence < b.heartbeat.sequence
    ensures a.heartbeat.time < b.heartbeat.time ==> a.size < b.size
  {
    if j < k {
      OffsetGrows(log, j + 1, k + 1);
    } else if k < j {
      OffsetGrows(log, k + 1, j + 1);
    }
  }

  /** What an honest campaign can get wrong at witness `i`. */
  ghost predicate Sound(log: bytes, ws: seq<Witness>, i: nat)
    requires i < |ws|
  {
    && 0 < ws[i].size <= |log| && log[ws[i].size - 1] == LF
    && (i > 0 ==> ws[i].size > ws[i - 1].size)
  }

  /** The tests on witness `i` that an honest campaign passes. */
  ghost predicate Plausible(w: World, host: string, token: string, ws: seq<Witness>, receipts: seq<Receipt>, i: nat)
    requires i < |ws| == |receipts| + 1
  {
    var wit, r := ws[i], ws[i].heartbeat;
    && HeartbeatOk(w, r, host, token, if i == 0 then None else Some(ws[0].heartbeat))
    && Fresh(wit.observed, r) && wit.observed > 0.0
    && (i > 0 ==> receipts[i - 1].completed <= r.time && receipts[i - 1].completed <= wit.observed
                  && ws[i - 1].observed < wit.observed)
    && (i < |receipts| ==> wit.observed <= receipts[i].started)
  }

  /** What is then left to test. */
  lemma RestIff(w: World, log: bytes, host: string, token: string, ws: seq<Witness>, receipts: seq<Receipt>, i: nat)
    requires i < |ws| == |receipts| + 1 && receipts != [] && Plausible(w, host, token, ws, receipts, i)
    ensures WitnessOk(w, log, host, token, ws, receipts, i)
            <==> Bound(w, log, ws[i]) && (i > 0 ==> ws[i].heartbeat.sequence > ws[i - 1].heartbeat.sequence
                                                    && ws[i].size > ws[i - 1].size)
  {
  }

  lemma HonestLine(w: World, log: bytes, host: string, token: string, ws: seq<Witness>, receipts: seq<Receipt>,
                   looks: seq<bytes>, ks: seq<nat>, i: nat)
    requires Honest(w, log, host, token, ws, receipts, looks, ks) && i < |ws|
    ensures OnLine(w, log, ws[i], ks[i]) && Plausible(w, host, token, ws, receipts, i)
    ensures i > 0 ==> ws[0].heartbeat.sequence < ws[i].heartbeat.sequence
  {
    LineOfLog(w, looks[i], log, ExpectAt(host, token, ws, receipts, i), ws[i], ks[i]);
    assert i > 0 ==> ws[i - 1].observed <= receipts[i - 1].started;
  }

  /** The clock and the log give the order of two neighbouring witnesses. */
  lemma HonestOrder(w: World, log: bytes, host: string, token: string, ws: seq<Witness>, receipts: seq<Receipt>,
                    looks: seq<bytes>, ks: seq<nat>, i: nat)
    requires Honest(w, log, host, token, ws, receipts, looks, ks) && Ordered(w, KeepLines(log))
    requires 0 < i < |ws|
    ensures ws[i].size > ws[i - 1].size ==> ws[i].heartbeat.sequence > ws[i - 1].heartbeat.sequence
    ensures ws[i - 1].heartbeat.time < receipts[i - 1].completed ==> ws[i].size > ws[i - 1].size
  {
    HonestLine(w, log, host, token, ws, receipts, looks, ks, i);
    HonestLine(w, log, host, token, ws, receipts, looks, ks, i - 1);
    LaterLine(w, log, ws[i - 1], ks[i - 1], ws[i], ks[i]);
  }

  /** Every cleanup witness is of a later line than the startup witness. */
  lemma BeyondStartup(w: World, log: bytes, host: string, token: string, ws: seq<Witness>, receipts: seq<Receipt>,
                      looks: seq<bytes>, ks: seq<nat>, i: nat)
    requires Honest(w, log, host, token, ws, receipts, looks, ks) && Ordered(w, KeepLines(log))
    requires 0 < i < |ws|
    ensures ws[i].size > ws[0].size
  {
    HonestLine(w, log, host, token, ws, receipts, looks, ks, i);
    HonestLine(w, log, host, token, ws, receipts, looks, ks, 0);
    LaterLine(w, log, ws[0], ks[0], ws[i], ks[i]);
  }

  lemma HonestWitness(w: World, log: bytes, host: string, token: string, ws: seq<Witness>, receipts: seq<Receipt>,
                      looks: seq<bytes>, ks: seq<nat>, i: nat)
    requires Honest(w, log, host, token, ws, receipts, looks, ks) && Trims(w) && Ordered(w, KeepLines(log))
    requires i < |ws|
    ensures WitnessOk(w, log, host, token, ws, receipts, i) <==> Sound(log, ws, i)
  {
    HonestLine(w, log, host, token, ws, receipts, looks, ks, i);
    BoundIff(w, log, ws[i], ks[i]);
    RestIff(w, log, host, token, ws, receipts, i);
    if i > 0 { HonestOrder(w, log, host, token, ws, receipts, looks, ks, i); }
  }

  /** An honest campaign is accepted if and only if every witnessed line ends with a line feed and
      every witness found a line beyond the one before it. */
  lemma HonestAcceptedIff(w: World, log: bytes, host: string, token: string, ws: seq<Witness>, receipts: seq<Receipt>,
                          looks: seq<bytes>, ks: seq<nat>)
    requires Honest(w, log, host, token, ws, receipts, looks, ks) && Trims(w) && Ordered(w, KeepLines(log))
    ensures Accepted(w, log, host, token, ws, receipts) <==> forall i :: 0 <= i < |ws| ==> Sound(log, ws, i)
  {
    forall i | 0 <= i < |ws|
      ensures WitnessOk(w, log, host, token, ws, receipts, i) <==> Sound(log, ws, i)
    {
      HonestWitness(w, log, host, token, ws, receipts, looks, ks, i);
    }
  }

  /** It is accepted whenever the sentinel's clock reads less at each witnessed heartbeat than the
      head's clock at the next completion, and the log holds no lone carriage return. */
  lemma HonestAccepted(w: World, log: bytes, host: string, token: string, ws: seq<Witness>, receipts: seq<Receipt>,
                       looks: seq<bytes>, ks: seq<nat>)
    requires Honest(w, log, host, token, ws, receipts, looks, ks) && Trims(w) && Ordered(w, KeepLines(log))
    requires forall i :: 0 <= i < |receipts| ==> ws[i].heartbeat.time < receipts[i].completed
    requires NoLoneCR(log)
    ensures Accepted(w, log, host, token, ws, receipts)
  {
    forall i | 0 <= i < |ws| ensures Sound(log, ws, i) {
      HonestSize(w, log, host, token, ws, receipts, looks, ks, i);
      if i > 0 { HonestOrder(w, log, host, token, ws, receipts, looks, ks, i); }
    }
    HonestAcceptedIff(w, log, host, token, ws, receipts, looks, ks);
  }

  ghost predicate NoLoneCR(log: bytes) {
    forall i :: 0 <= i < |log| && log[i] == CR ==> i + 1 < |log| && log[i + 1] == LF
  }

  lemma HonestSize(w: World, log: bytes, host: string, token: string, ws: seq<Witness>, receipts: seq<Receipt>,
                   looks: seq<bytes>, ks: seq<nat>, i: nat)
    requires Honest(w, log, host, token, ws, receipts, looks, ks) && i < |ws| && NoLoneCR(log)
    ensures 0 < ws[i].size <= |log| && log[ws[i].size - 1] == LF
  {
    WholeLine(w, looks[i], ExpectAt(host, token, ws, receipts, i), ws[i], ks[i], log);
  }

  /** Without lone carriage returns a complete line ends with a line feed. */
  lemma WholeLine(w: World, t: bytes, ex: Expect, wit: Witness, k: nat, log: bytes)
    requires t <= log && Attests(w, t, ex, wit, k) && NoLoneCR(log)
    ensures 0 < wit.size <= |log| && log[wit.size - 1] == LF
  {
    var s := t[..Cut(t)];
    LineEnd(s, k);
    assert forall i :: 0 <= i < |s| ==> s[i] == log[i];
  }

  /** Where the k-th line of complete lines ends. */
  ghost predicate EndsWell(s: bytes, m: nat) {
    0 < m <= |s| && (s[m - 1] == LF || (s[m - 1] == CR && m < |s| && s[m] != LF))
  }

  lemma {:induction false} LineEnd(s: bytes, k: nat)
    requires s != [] && s[|s| - 1] == LF && k < |KeepLines(s)|
    ensures EndsWell(s, Offset(KeepLines(s), k + 1))
  {
    var n := End(s);
    var tail := s[n..];
    var lines := KeepLines(tail);
    OffsetCons(s[..n], lines, k);
    if k > 0 {
      assert tail[|tail| - 1] == LF;
      LineEnd(tail, k - 1);
      EndsLater(s, n, Offset(lines, k));
    } else {
      FirstEnd(s);
    }
  }

  lemma EndsLater(s: bytes, n: nat, m: nat)
    requires n <= |s| && EndsWell(s[n..], m)
    ensures EndsWell(s, n + m)
  {
  }

  lemma FirstEnd(s: bytes)
    requires s != [] && s[|s| - 1] == LF
    ensures EndsWell(s, End(s))
  {
    BoundaryIsFirst(s);
  }

  /** A heartbeat stamped ahead of the head's clock can be witnessed again after a short child, from
      an unchanged log; the validator then rejects what the executor accepted. */
  lemma RepeatedHeartbeatRejected(w: World, log: bytes, host: string, token: string, ws: seq<Witness>,
                                  receipts: seq<Receipt>, i: nat, k: nat, again: Witness)
    requires 1 < i < |ws| == |receipts| + 1
    requires Attests(w, log, ExpectAt(host, token, ws, receipts, i - 1), ws[i - 1], k)
    requires receipts[i - 1].completed <= ws[i - 1].heartbeat.time && Fresh(again.observed, ws[i - 1].heartbeat)
    requires again == ws[i - 1].(observed := again.observed)
    ensures Attests(w, log, ExpectAt(host, token, ws, receipts, i), again, k)
    ensures ws[i] == again ==> !Accepted(w, log, host, token, ws, receipts)
  {
    if ws[i] == again && Accepted(w, log, host, token, ws, receipts) {
      WitnessesAdvance(w, log, host, token, ws, receipts, i - 1, i);
    }
  }
}
