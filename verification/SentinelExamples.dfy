/** Three small honest campaigns: one that is accepted, and one rejected for each of the two reasons. */
module SentinelExamples {
  import opened Common
  import opened Lines
  import opened Sentinel
  import opened SentinelSafety

  const BEAT0 := Heartbeat(5.0, "n1", 7, "t", 0)
  const BEAT1 := Heartbeat(21.0, "n1", 7, "t", 1)

  /** A parser that knows two rows. */
  function Knows(row0: bytes, row1: bytes): bytes -> Option<Heartbeat> {
    (line: bytes) => if Bare(line) == row0 then Some(BEAT0) else if Bare(line) == row1 then Some(BEAT1) else None
  }

  lemma BareAgain(line: bytes)
    ensures Bare(Bare(line)) == Bare(line)
  {
    var b := Bare(line);
    BoundaryIsFirst(line);
    BoundaryIs(b, |b|);
  }

  lemma KnowsTrims(w: World, row0: bytes, row1: bytes)
    requires w.parse == Knows(row0, row1)
    ensures Trims(w)
  {
    forall line: bytes ensures w.parse(line) == w.parse(Bare(line)) {
      BareAgain(line);
    }
  }

  /** A row with the boundary `e` is the first line of what it begins. */
  lemma LineThen(row: bytes, e: byte, rest: bytes)
    requires Clean(row) && (e == LF || (e == CR && (rest == [] || rest[0] != LF)))
    ensures KeepLines(row + [e] + rest) == [row + [e]] + KeepLines(rest)
    ensures Bare(row + [e]) == row
  {
    var s := row + [e] + rest;
    BoundaryIs(s, |row|);
    BoundaryIs(row + [e], |row|);
    assert s[..|row| + 1] == row + [e] && s[|row| + 1..] == rest;
  }

  lemma OneLine(row: bytes)
    requires Clean(row)
    ensures KeepLines(Term(row)) == [Term(row)]
  {
    LineThen(row, LF, []);
    assert row + [LF] + [] == Term(row) && KeepLines([]) == [];
  }

  /** A heartbeat row: an opening brace and a digit. */
  function Row(digit: byte): bytes { [123, digit] }

  /** A log of two heartbeats, and one whose second heartbeat is ended by a lone carriage return. */
  ghost predicate Setting(w: World, l0: bytes, l1: bytes, lone: bytes, tail: bytes) {
    && Trims(w) && |l0| == |l1| == |lone| == 3 && |tail| == 2
    && l0[2] == LF && l1[2] == LF && lone[2] == CR && tail[1] == LF
    && Candidate(l0) && Candidate(l1) && Candidate(lone) && !Candidate(tail)
    && KeepLines(l0) == [l0] && KeepLines(l0 + l1) == [l0, l1] && KeepLines(l0 + (lone + tail)) == [l0, lone, tail]
    && w.parse(l0) == Some(BEAT0) && w.parse(l1) == w.parse(lone) == Some(BEAT1) && w.parse(tail) == None
    && NoLoneCR(l0 + l1)
  }

  lemma TwoLines(row: bytes, rest: bytes)
    requires Clean(row)
    ensures KeepLines(Term(row) + rest) == [Term(row)] + KeepLines(rest)
  {
    LineThen(row, LF, rest);
  }

  lemma SettledLines(row0: bytes, row1: bytes, noise: bytes)
    requires Clean(row0) && Clean(row1) && Clean(noise) && noise != []
    ensures KeepLines(Term(row0)) == [Term(row0)] && KeepLines(Term(row0) + Term(row1)) == [Term(row0), Term(row1)]
    ensures KeepLines(Term(row0) + ((row1 + [CR]) + Term(noise))) == [Term(row0), row1 + [CR], Term(noise)]
  {
    OneLine(row0);
    OneLine(row1);
    OneLine(noise);
    TwoLines(row0, Term(row1));
    TwoLines(row0, (row1 + [CR]) + Term(noise));
    assert Term(noise)[0] == noise[0];
    LineThen(row1, CR, Term(noise));
  }

  lemma SettledParse(w: World, row0: bytes, row1: bytes, noise: bytes)
    requires w.parse == Knows(row0, row1) && Clean(row0) && Clean(row1) && Clean(noise)
    requires row0 != row1 && noise != row0 && noise != row1
    ensures w.parse(Term(row0)) == Some(BEAT0) && w.parse(Term(row1)) == w.parse(row1 + [CR]) == Some(BEAT1)
    ensures w.parse(Term(noise)) == None
  {
    LineThen(row0, LF, []);
    LineThen(row1, LF, []);
    LineThen(row1, CR, []);
    LineThen(noise, LF, []);
  }

  lemma Settle(row0: bytes, row1: bytes, noise: bytes)
    returns (w: World, l0: bytes, l1: bytes, lone: bytes, tail: bytes)
    requires |row0| == |row1| == 2 && |noise| == 1 && Clean(row0) && Clean(row1) && Clean(noise)
    requires row0[0] == row1[0] == 123 && row0 != row1 && noise[0] > 32 && noise[0] != 123
    ensures Setting(w, l0, l1, lone, tail)
  {
    w := World(Knows(row0, row1), (s: string) => s, (s: bytes) => s);
    l0, l1, lone, tail := Term(row0), Term(row1), row1 + [CR], Term(noise);
    KnowsTrims(w, row0, row1);
    SettledLines(row0, row1, noise);
    SettledParse(w, row0, row1, noise);
    SettledShape(row0, row1, noise);
  }

  lemma SettledShape(row0: bytes, row1: bytes, noise: bytes)
    requires |row0| == |row1| == 2 && |noise| == 1 && Clean(row0) && Clean(row1)
    requires row0[0] == row1[0] == 123 && noise[0] > 32 && noise[0] != 123
    ensures Candidate(Term(row0)) && Candidate(Term(row1)) && Candidate(row1 + [CR]) && !Candidate(Term(noise))
    ensures NoLoneCR(Term(row0) + Term(row1))
  {
    assert Term(row0)[0] == 123 && Term(row1)[0] == 123 && (row1 + [CR])[0] == 123 && Term(noise)[0] == noise[0];
    var log := Term(row0) + Term(row1);
    forall i | 0 <= i < |log| ensures log[i] != CR {
      assert log[i] == if i < 2 then row0[i] else if i == 2 then LF else if i < 5 then row1[i - 3] else LF;
    }
  }

  // ---------------------------------------------------------------- witnesses

  /** A witness of line `k` of a log of complete lines. */
  lemma Witnessed(w: World, t: bytes, lines: seq<bytes>, ex: Expect, wit: Witness, k: nat)
    requires t != [] && t[|t| - 1] == LF && KeepLines(t) == lines && IsLast(lines, k)
    requires w.parse(lines[k]) == Some(wit.heartbeat) && HeartbeatOk(w, wit.heartbeat, ex.host, ex.token, ex.identity)
    requires Fresh(wit.observed, wit.heartbeat) && New(wit.heartbeat, ex)
    requires wit.size == Offset(lines, k + 1) <= |t| && wit.digest == w.sha(t[..wit.size])
    ensures Attests(w, t, ex, wit, k)
  {
    WholeCut(t);
  }

  lemma WholeCut(t: bytes)
    requires t != [] && t[|t| - 1] == LF
    ensures Cut(t) == |t| && Complete(t) == KeepLines(t)
  {
    assert t[..|t|] == t;
  }

  lemma TwoOffsets(a: bytes, b: bytes, rest: seq<bytes>)
    ensures Offset([a] + rest, 1) == |a| && Offset([a, b] + rest, 2) == |a| + |b|
  {
    OffsetNext([a] + rest, 0);
    OffsetNext([a, b] + rest, 0);
    OffsetNext([a, b] + rest, 1);
  }

  const NOTHING := Expect("n1", "t", None, None)

  function After(completed: real): Expect { Expect("n1", "t", Some(BEAT0), Some(completed)) }

  function Startup(w: World, l0: bytes): Witness { Witness(BEAT0, 5.5, 3, w.sha(l0)) }

  function Check(w: World, log: bytes, observed: real): Witness
    requires |log| >= 6
  {
    Witness(BEAT1, observed, 6, w.sha(log[..6]))
  }

  lemma StartupWitnessed(w: World, l0: bytes, l1: bytes, lone: bytes, tail: bytes)
    requires Setting(w, l0, l1, lone, tail)
    ensures Attests(w, l0, NOTHING, Startup(w, l0), 0)
  {
    TwoOffsets(l0, l1, []);
    assert [l0] + [] == [l0] && l0[..3] == l0;
    Witnessed(w, l0, [l0], NOTHING, Startup(w, l0), 0);
  }

  /** The second heartbeat is witnessed from a log that holds it in its second line and no candidate after it. */
  lemma SecondWitnessed(w: World, log: bytes, first: bytes, second: bytes, rest: seq<bytes>,
                        observed: real, completed: real)
    requires KeepLines(log) == [first, second] + rest && |first| == |second| == 3 && |log| >= 6 && log[|log| - 1] == LF
    requires Candidate(second) && NoCandidate(rest) && w.parse(second) == Some(BEAT1)
    requires 20.0 <= observed <= 26.0 && completed <= 21.0
    ensures Attests(w, log, After(completed), Check(w, log, observed), 1)
  {
    TwoOffsets(first, second, rest);
    Witnessed(w, log, [first, second] + rest, After(completed), Check(w, log, observed), 1);
  }

  lemma CheckWitnessed(w: World, l0: bytes, l1: bytes, lone: bytes, tail: bytes, observed: real, completed: real)
    requires Setting(w, l0, l1, lone, tail) && 20.0 <= observed <= 26.0 && completed <= 21.0
    ensures Attests(w, l0 + l1, After(completed), Check(w, l0 + l1, observed), 1)
  {
    var log := l0 + l1;
    assert KeepLines(log) == [l0, l1] + [] && log[|log| - 1] == LF;
    SecondWitnessed(w, log, l0, l1, [], observed, completed);
  }

  lemma LoneWitnessed(w: World, l0: bytes, l1: bytes, lone: bytes, tail: bytes)
    requires Setting(w, l0, l1, lone, tail)
    ensures Attests(w, l0 + (lone + tail), After(20.0), Check(w, l0 + (lone + tail), 21.5), 1)
  {
    assert [l0, lone] + [tail] == [l0, lone, tail];
    SecondWitnessed(w, l0 + (lone + tail), l0, lone, [tail], 21.5, 20.0);
  }

  // ---------------------------------------------------------------- campaigns

  const CHILD := Receipt(6.0, 20.0)
  const SHORT := Receipt(20.6, 20.8)

  lemma OrderedLogs(w: World, l0: bytes, l1: bytes, lone: bytes, tail: bytes)
    requires Setting(w, l0, l1, lone, tail)
    ensures Ordered(w, KeepLines(l0 + l1)) && Ordered(w, KeepLines(l0 + (lone + tail)))
  {
    OrderedLines(w, l0, l1, []);
    OrderedLines(w, l0, lone, [tail]);
    assert [l0, l1] + [] == [l0, l1] && [l0, lone] + [tail] == [l0, lone, tail];
  }

  lemma OrderedLines(w: World, first: bytes, second: bytes, rest: seq<bytes>)
    requires w.parse(first) == Some(BEAT0) && w.parse(second) == Some(BEAT1)
    requires forall i :: 0 <= i < |rest| ==> w.parse(rest[i]) == None
    ensures Ordered(w, [first, second] + rest)
  {
    var lines := [first, second] + rest;
    assert forall i :: 2 <= i < |lines| ==> lines[i] == rest[i - 2];
  }

  lemma OneChild(w: World, l0: bytes, log: bytes)
    requires Attests(w, l0, NOTHING, Startup(w, l0), 0) && l0 <= log && |log| >= 6
    requires Attests(w, log, After(20.0), Check(w, log, 21.5), 1)
    ensures Honest(w, log, "n1", "t", [Startup(w, l0), Check(w, log, 21.5)], [CHILD], [l0, log], [0, 1])
  {
    var ws := [Startup(w, l0), Check(w, log, 21.5)];
    assert ExpectAt("n1", "t", ws, [CHILD], 0) == NOTHING && ExpectAt("n1", "t", ws, [CHILD], 1) == After(20.0);
  }

  /** One child, and a log in which every line ends with a line feed. */
  lemma AcceptedCampaign(w: World, l0: bytes, l1: bytes, lone: bytes, tail: bytes)
    requires Setting(w, l0, l1, lone, tail)
    ensures var log := l0 + l1;
            var ws := [Startup(w, l0), Check(w, log, 21.5)];
            && Honest(w, log, "n1", "t", ws, [CHILD], [l0, log], [0, 1])
            && Accepted(w, log, "n1", "t", ws, [CHILD])
  {
    StartupWitnessed(w, l0, l1, lone, tail);
    CheckWitnessed(w, l0, l1, lone, tail, 21.5, 20.0);
    OrderedLogs(w, l0, l1, lone, tail);
    OneChild(w, l0, l0 + l1);
    OneChildAccepted(w, l0, l0 + l1);
  }

  lemma OneChildAccepted(w: World, l0: bytes, log: bytes)
    requires |log| >= 6 && Trims(w) && Ordered(w, KeepLines(log)) && NoLoneCR(log)
    requires Honest(w, log, "n1", "t", [Startup(w, l0), Check(w, log, 21.5)], [CHILD], [l0, log], [0, 1])
    ensures Accepted(w, log, "n1", "t", [Startup(w, l0), Check(w, log, 21.5)], [CHILD])
  {
    HonestAccepted(w, log, "n1", "t", [Startup(w, l0), Check(w, log, 21.5)], [CHILD], [l0, log], [0, 1]);
  }

  /** The same campaign with the second heartbeat ended by a lone carriage return. */
  lemma LoneCarriageReturnRejected(w: World, l0: bytes, l1: bytes, lone: bytes, tail: bytes)
    requires Setting(w, l0, l1, lone, tail)
    ensures var log := l0 + (lone + tail);
            var ws := [Startup(w, l0), Check(w, log, 21.5)];
            && Honest(w, log, "n1", "t", ws, [CHILD], [l0, log], [0, 1])
            && !Accepted(w, log, "n1", "t", ws, [CHILD])
  {
    var log := l0 + (lone + tail);
    var ws := [Startup(w, l0), Check(w, log, 21.5)];
    StartupWitnessed(w, l0, l1, lone, tail);
    LoneWitnessed(w, l0, l1, lone, tail);
    OrderedLogs(w, l0, l1, lone, tail);
    OneChild(w, l0, log);
    assert log[5] == CR && !Sound(log, ws, 1);
    HonestAcceptedIff(w, log, "n1", "t", ws, [CHILD], [l0, log], [0, 1]);
  }

  /** Two children, the second a short one: the heartbeat that followed the first is half a second ahead of
      the head's clock and is witnessed again after the second. */
  lemma RepeatedHeartbeatCampaign(w: World, l0: bytes, l1: bytes, lone: bytes, tail: bytes)
    requires Setting(w, l0, l1, lone, tail)
    ensures var log := l0 + l1;
            var ws := [Startup(w, l0), Check(w, log, 20.5), Check(w, log, 20.9)];
            && Honest(w, log, "n1", "t", ws, [CHILD, SHORT], [l0, log, log], [0, 1, 1])
            && !Accepted(w, log, "n1", "t", ws, [CHILD, SHORT])
  {
    var log := l0 + l1;
    var ws := [Startup(w, l0), Check(w, log, 20.5), Check(w, log, 20.9)];
    StartupWitnessed(w, l0, l1, lone, tail);
    CheckWitnessed(w, l0, l1, lone, tail, 20.5, 20.0);
    CheckWitnessed(w, l0, l1, lone, tail, 20.9, 20.8);
    OrderedLogs(w, l0, l1, lone, tail);
    TwoChildren(w, l0, log);
    assert !Sound(log, ws, 2);
    HonestAcceptedIff(w, log, "n1", "t", ws, [CHILD, SHORT], [l0, log, log], [0, 1, 1]);
  }

  lemma TwoChildren(w: World, l0: bytes, log: bytes)
    requires Attests(w, l0, NOTHING, Startup(w, l0), 0) && l0 <= log && |log| >= 6
    requires Attests(w, log, After(20.0), Check(w, log, 20.5), 1)
    requires Attests(w, log, After(20.8), Check(w, log, 20.9), 1)
    ensures Honest(w, log, "n1", "t", [Startup(w, l0), Check(w, log, 20.5), Check(w, log, 20.9)], [CHILD, SHORT],
                   [l0, log, log], [0, 1, 1])
  {
    var ws, rs := [Startup(w, l0), Check(w, log, 20.5), Check(w, log, 20.9)], [CHILD, SHORT];
    assert ExpectAt("n1", "t", ws, rs, 0) == NOTHING && ExpectAt("n1", "t", ws, rs, 1) == After(20.0);
    assert ExpectAt("n1", "t", ws, rs, 2) == After(20.8);
  }

  /** The setting exists, so all three campaigns do. */
  lemma CampaignsExist() returns (w: World, l0: bytes, l1: bytes, lone: bytes, tail: bytes)
    ensures Setting(w, l0, l1, lone, tail)
  {
    w, l0, l1, lone, tail := Settle(Row(48), Row(49), [120]);
  }
}
