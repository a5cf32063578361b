/** Rows terminated by a line feed, and the splitting of bytes into lines. */
module Lines {
  import opened Common

  const LF: byte := 10
  const CR: byte := 13

  /** A row that can travel inside a chunk: it holds no line boundary. */
  ghost predicate Clean(row: bytes) {
    LF !in row && CR !in row
  }

  ghost predicate AllClean(rows: seq<bytes>) {
    forall i :: 0 <= i < |rows| ==> Clean(rows[i])
  }

  /** A row with the line feed that ends it. */
  function Term(row: bytes): bytes {
    row + [LF]
  }

  /** The wire form of a list of rows. */
  function Joined(rows: seq<bytes>): bytes {
    if rows == [] then [] else Term(rows[0]) + Joined(rows[1..])
  }

  /** Index of the first line boundary, or the length when there is none. */
  function Boundary(s: bytes): (e: nat)
    ensures e <= |s|
  {
    BoundaryFrom(s, 0)
  }

  function BoundaryFrom(s: bytes, i: nat): (e: nat)
    requires i <= |s|
    ensures i <= e <= |s|
    decreases |s| - i
  {
    if i == |s| || s[i] == LF || s[i] == CR then i else BoundaryFrom(s, i + 1)
  }

  /** `e` is the first index from `i` on that holds a boundary, or the length. */
  ghost predicate FirstBoundary(s: bytes, i: nat, e: nat) {
    && i <= e <= |s| && (e < |s| ==> s[e] == LF || s[e] == CR)
    && forall k :: i <= k < e ==> s[k] != LF && s[k] != CR
  }

  lemma {:induction false} BoundaryFromIsFirst(s: bytes, i: nat)
    requires i <= |s|
    ensures FirstBoundary(s, i, BoundaryFrom(s, i))
    decreases |s| - i
  {
    if !(i == |s| || s[i] == LF || s[i] == CR) { BoundaryFromIsFirst(s, i + 1); }
  }

  lemma BoundaryIsFirst(s: bytes)
    ensures FirstBoundary(s, 0, Boundary(s))
  {
    BoundaryFromIsFirst(s, 0);
  }

  lemma BoundaryIs(s: bytes, e: nat)
    requires FirstBoundary(s, 0, e)
    ensures Boundary(s) == e
  {
    BoundaryIsFirst(s);
  }

  /** CR LF counts as one boundary. */
  function BoundaryWidth(s: bytes, e: nat): (w: nat)
    requires e < |s|
    ensures w == 1 || (w == 2 && e + 1 < |s| && s[e] == CR && s[e + 1] == LF)
    ensures e + w <= |s|
  {
    if e + 1 < |s| && s[e] == CR && s[e + 1] == LF then 2 else 1
  }

  /** `bytes.splitlines()`: lines end at LF, CR or CR LF; a last line may lack its boundary. */
  function SplitLines(s: bytes): seq<bytes> {
    if s == [] then []
    else
      var e := Boundary(s);
      if e == |s| then [s] else [s[..e]] + SplitLines(s[e + BoundaryWidth(s, e)..])
  }

  lemma {:induction false} JoinedAppend(a: seq<bytes>, b: seq<bytes>)
    ensures Joined(a + b) == Joined(a) + Joined(b)
  {
    if a == [] {
      assert a + b == b;
    } else {
      JoinedAppend(a[1..], b);
      assert (a + b)[1..] == a[1..] + b && (a + b)[0] == a[0];
      Assoc(Term(a[0]), Joined(a[1..]), Joined(b));
    }
  }

  lemma JoinedOne(row: bytes)
    ensures Joined([row]) == Term(row)
  {
    assert [row][1..] == [];
  }

  lemma BoundaryOfRow(row: bytes, tail: bytes)
    requires Clean(row)
    ensures Boundary(Term(row) + tail) == |row|
  {
    var s := Term(row) + tail;
    assert s[|row|] == LF;
    assert forall k :: 0 <= k < |row| ==> s[k] == row[k];
    BoundaryIs(s, |row|);
  }

  lemma SplitFirst(row: bytes, tail: bytes)
    requires Clean(row)
    ensures SplitLines(Term(row) + tail) == [row] + SplitLines(tail)
  {
    BoundaryOfRow(row, tail);
    var s := Term(row) + tail;
    assert s[..|row|] == row && s[|row| + 1..] == tail;
  }

  lemma SplitUnterminated(s: bytes)
    requires s != [] && Clean(s)
    ensures SplitLines(s) == [s]
  {
    BoundaryIs(s, |s|);
  }

  /** Splitting undoes joining, and leaves a trailing partial line as a line of its own. */
  lemma {:induction false} SplitJoined(rows: seq<bytes>, partial: bytes)
    requires AllClean(rows) && Clean(partial)
    ensures SplitLines(Joined(rows) + partial) == rows + (if partial == [] then [] else [partial])
  {
    if rows == [] {
      assert Joined(rows) + partial == partial;
      if partial != [] { SplitUnterminated(partial); }
    } else {
      SplitJoined(rows[1..], partial);
      SplitFirst(rows[0], Joined(rows[1..]) + partial);
      Assoc(Term(rows[0]), Joined(rows[1..]), partial);
      assert [rows[0]] + rows[1..] == rows;
      Assoc([rows[0]], rows[1..], if partial == [] then [] else [partial]);
    }
  }

  lemma SplitJoinedExact(rows: seq<bytes>)
    requires AllClean(rows)
    ensures SplitLines(Joined(rows)) == rows
  {
    SplitJoined(rows, []);
    assert Joined(rows) + [] == Joined(rows);
  }

  /** The rows left to transmit after a cut. */
  function RowsAfter(rows: seq<bytes>, whole: nat, partial: bytes): (r: seq<bytes>)
    requires whole <= |rows|
    requires partial != [] ==> whole < |rows| && partial <= rows[whole]
    ensures |r| == |rows| - whole
    ensures AllClean(rows) ==> AllClean(r)
  {
    if partial == [] then rows[whole..] else [rows[whole][|partial|..]] + rows[whole + 1..]
  }

  /** The cut `head` leaves `whole` rows behind and `partial` of the next. */
  ghost predicate Cuts(rows: seq<bytes>, head: bytes, tail: bytes, whole: nat, partial: bytes) {
    && whole <= |rows| && (partial != [] ==> whole < |rows| && partial <= rows[whole])
    && head == Joined(rows[..whole]) + partial && tail == Joined(RowsAfter(rows, whole, partial))
  }

  lemma CutInFirst(rows: seq<bytes>, head: bytes, tail: bytes)
    requires rows != [] && head != [] && head + tail == Joined(rows) && |head| <= |rows[0]|
    ensures Cuts(rows, head, tail, 0, head)
  {
    var all, rest := Joined(rows), [rows[0][|head|..]] + rows[1..];
    assert head == all[..|head|] && tail == all[|head|..];
    assert all[..|head|] == rows[0][..|head|];
    assert all[|head|..] == Term(rows[0])[|head|..] + Joined(rows[1..]);
    assert Term(rows[0])[|head|..] == Term(rest[0]);
    assert rest[1..] == rows[1..] && rows[..0] == [];
  }

  lemma CutLater(rows: seq<bytes>, head: bytes, tail: bytes, whole: nat, partial: bytes)
    requires rows != [] && Cuts(rows[1..], head, tail, whole, partial)
    ensures Cuts(rows, Term(rows[0]) + head, tail, whole + 1, partial)
  {
    var first, rest := Term(rows[0]), rows[1..];
    assert rows[..whole + 1] == [rows[0]] + rest[..whole] && ([rows[0]] + rest[..whole])[1..] == rest[..whole];
    Assoc(first, Joined(rest[..whole]), partial);
    assert rest[whole..] == rows[whole + 1..];
    assert partial != [] ==> rest[whole + 1..] == rows[whole + 2..];
  }

  /** A prefix of joined rows cuts them after `whole` rows and `|partial|` bytes of the next. */
  lemma {:induction false} CutJoined(rows: seq<bytes>, head: bytes, tail: bytes)
    returns (whole: nat, partial: bytes)
    requires head + tail == Joined(rows)
    ensures Cuts(rows, head, tail, whole, partial)
    decreases |rows|
  {
    if head == [] {
      whole, partial := 0, [];
      assert rows[..0] == [] && rows[0..] == rows && tail == Joined(rows);
    } else if |head| <= |rows[0]| {
      whole, partial := 0, head;
      CutInFirst(rows, head, tail);
    } else {
      var n := |Term(rows[0])|;
      assert head[..n] == Joined(rows)[..n] == Term(rows[0]);
      assert head[n..] + tail == Joined(rows)[n..] == Joined(rows[1..]);
      var w;
      w, partial := CutJoined(rows[1..], head[n..], tail);
      CutLater(rows, head[n..], tail, w, partial);
      assert head == Term(rows[0]) + head[n..];
      whole := w + 1;
    }
  }

  function LinesOf(parts: seq<bytes>): seq<bytes> {
    if parts == [] then [] else SplitLines(parts[0]) + LinesOf(parts[1..])
  }

  lemma CutStep(rows: seq<bytes>, whole: nat, partial: bytes, lines: seq<bytes>, later: seq<bytes>)
    requires whole <= |rows|
    requires partial != [] ==> whole < |rows| && partial <= rows[whole]
    requires lines == rows[..whole] + (if partial == [] then [] else [partial])
    requires |later| >= |rows| - whole
    requires |later| == |rows| - whole ==> later == RowsAfter(rows, whole, partial)
    ensures |lines + later| >= |rows|
    ensures |lines + later| == |rows| ==> lines + later == rows
  {
    assert rows == rows[..whole] + rows[whole..];
  }

  /** However joined rows are cut into parts, the parts hold at least as many lines as there
      are rows, and exactly as many only when no row was cut. */
  lemma {:induction false} CutsAddLines(parts: seq<bytes>, rows: seq<bytes>)
    requires AllClean(rows)
    requires Flatten(parts) == Joined(rows)
    ensures |LinesOf(parts)| >= |rows|
    ensures |LinesOf(parts)| == |rows| ==> LinesOf(parts) == rows
    decreases |parts|
  {
    if parts == [] {
      assert rows != [] ==> |Joined(rows)| > 0;
    } else {
      var whole, partial := CutJoined(rows, parts[0], Flatten(parts[1..]));
      var rest := RowsAfter(rows, whole, partial);
      CutsAddLines(parts[1..], rest);
      SplitJoined(rows[..whole], partial);
      CutStep(rows, whole, partial, SplitLines(parts[0]), LinesOf(parts[1..]));
    }
  }
}
