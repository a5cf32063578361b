/** The recursive meaning of an expression is the one result its evaluation rules allow. */
module Adequacy {
  import opened Common
  import opened Evaluator
  import opened Semantics
  import opened Denotation

  /** The rules allow the meaning of an expression and nothing else. */
  lemma EvaluatesIff(py: Python, axes: Axes, e: Expr, r: Outcome)
    ensures Evaluates(py, axes, e, r) <==> r == Meaning(py, axes, e)
  {
    MeaningEvaluates(py, axes, e);
    EvaluatesOnly(py, axes, e, r);
  }

  lemma TruthIsPythons(v: Value)
    ensures Truthy(v) <==> !IsFalse(v)
  {
  }

  lemma YieldsIff(v: Value, r: Outcome)
    ensures Yields(v, r) <==> r == Validate(v)
  {
  }

  lemma ReturnsIff(p: Result<Value, bool>, r: Outcome)
    ensures Returns(p, r) <==> r == Checked(p)
  {
  }

  lemma OperatesIff(py: Python, op: BinaryOp, a: Value, b: Value, r: Outcome)
    ensures Operates(py, op, a, b, r) <==> r == Operate(py, op, a, b)
  {
  }

  lemma NamesIff(f: Expr, name: string)
    ensures Names(f, name) <==> Callee(f) == Some(name)
  {
  }

  // ---------------------------------------------------------------- the meaning is allowed

  lemma {:induction false} MeaningEvaluates(py: Python, axes: Axes, e: Expr)
    ensures Evaluates(py, axes, e, Meaning(py, axes, e))
    decreases e, 2
  {
    match e
    case Constant(_) =>
    case Name(_) =>
    case TupleOf(es) => SequenceEvaluates(py, axes, es, true);
    case ListOf(es) => SequenceEvaluates(py, axes, es, false);
    case Attribute(_, _) =>
    case Binary(left, op, right) => BinaryEvaluates(py, axes, left, op, right);
    case Unary(op, x) => UnaryEvaluates(py, axes, op, x);
    case Boolean(op, h, es) => BooleanEvaluates(py, axes, op, h, es);
    case Compare(first, ops, es) => CompareEvaluates(py, axes, first, ops, es);
    case IfExp(t, b, o) => IfEvaluates(py, axes, t, b, o);
    case Call(f, args, _) => CallEvaluates(py, axes, f, args);
    case Other(_) =>
  }

  lemma BinaryEvaluates(py: Python, axes: Axes, left: Expr, op: BinaryOp, right: Expr)
    ensures BinaryRule(py, axes, left, op, right, Combined(py, op, Meaning(py, axes, left), Meaning(py, axes, right)))
    decreases Binary(left, op, right), 1
  {
    MeaningEvaluates(py, axes, left);
    MeaningEvaluates(py, axes, right);
    BinaryAllows(py, axes, left, op, right, Meaning(py, axes, left), Meaning(py, axes, right));
  }

  lemma BinaryAllows(py: Python, axes: Axes, left: Expr, op: BinaryOp, right: Expr, a: Outcome, b: Outcome)
    requires Evaluates(py, axes, left, a) && Evaluates(py, axes, right, b)
    ensures BinaryRule(py, axes, left, op, right, Combined(py, op, a, b))
  {
    if a.Ok? && b.Ok? { OperatesIff(py, op, a.value, b.value, Operate(py, op, a.value, b.value)); }
  }

  lemma UnaryEvaluates(py: Python, axes: Axes, op: UnaryOp, x: Expr)
    ensures UnaryRule(py, axes, op, x, Negated(py, op, Meaning(py, axes, x)))
    decreases Unary(op, x), 1
  {
    MeaningEvaluates(py, axes, x);
    UnaryAllows(py, axes, op, x, Meaning(py, axes, x));
  }

  lemma UnaryAllows(py: Python, axes: Axes, op: UnaryOp, x: Expr, v: Outcome)
    requires Evaluates(py, axes, x, v)
    ensures UnaryRule(py, axes, op, x, Negated(py, op, v))
  {
    if v.Ok? { ReturnsIff(py.unary(op, v.value), Checked(py.unary(op, v.value))); }
  }

  lemma IfEvaluates(py: Python, axes: Axes, t: Expr, b: Expr, o: Expr)
    ensures IfRule(py, axes, t, b, o, Chosen(Meaning(py, axes, t), Meaning(py, axes, b), Meaning(py, axes, o)))
    decreases IfExp(t, b, o), 1
  {
    MeaningEvaluates(py, axes, t);
    MeaningEvaluates(py, axes, b);
    MeaningEvaluates(py, axes, o);
    IfAllows(py, axes, t, b, o, Meaning(py, axes, t), Meaning(py, axes, b), Meaning(py, axes, o));
  }

  lemma IfAllows(py: Python, axes: Axes, t: Expr, b: Expr, o: Expr, test: Outcome, body: Outcome, orelse: Outcome)
    ensures Evaluates(py, axes, t, test) && Evaluates(py, axes, b, body) && Evaluates(py, axes, o, orelse) ==>
              IfRule(py, axes, t, b, o, Chosen(test, body, orelse))
  {
    if test.Ok? { TruthIsPythons(test.value); }
  }

  lemma CallEvaluates(py: Python, axes: Axes, f: Expr, args: seq<Expr>)
    ensures CallRule(py, axes, f, args, Applied(py, f, MeaningAll(py, axes, args)))
    decreases args, 4
  {
    ListEvaluates(py, axes, args);
    forall name ensures Names(f, name) <==> Callee(f) == Some(name) { NamesIff(f, name); }
    if Callee(f).Some? {
      var name := Callee(f).value;
      assert Names(f, name);
      var vs := MeaningAll(py, axes, args);
      if vs.Ok? { CallsIff(py, f, name, vs.value, Apply(py, f, vs.value)); }
    }
  }

  lemma SequenceEvaluates(py: Python, axes: Axes, es: seq<Expr>, tuple: bool)
    ensures SequenceRule(py, axes, es, tuple, Gathered(MeaningAll(py, axes, es), tuple))
    decreases es, 4
  {
    ListEvaluates(py, axes, es);
    var vs := MeaningAll(py, axes, es);
    if vs.Ok? {
      var v := if tuple then Tup(vs.value) else Lst(vs.value);
      YieldsIff(v, Validate(v));
    }
  }

  /** Left to right, either all have values or one is the first to fail. */
  lemma {:induction false} ListEvaluates(py: Python, axes: Axes, es: seq<Expr>)
    ensures MeaningAll(py, axes, es).Ok? ==> HaveValues(py, axes, es, MeaningAll(py, axes, es).value)
    ensures MeaningAll(py, axes, es).Err? ==> exists k :: FailsAt(py, axes, es, k, MeaningAll(py, axes, es).error)
    decreases es, 3
  {
    if es != [] {
      var v, rest := Meaning(py, axes, es[0]), MeaningAll(py, axes, es[1..]);
      MeaningEvaluates(py, axes, es[0]);
      ListEvaluates(py, axes, es[1..]);
      if v.Err? {
        assert FailsAt(py, axes, es, 0, v.error);
      } else if rest.Err? {
        var k :| FailsAt(py, axes, es[1..], k, rest.error);
        FailsLater(py, axes, es, k, v.value, rest.error);
      } else {
        ValuesLater(py, axes, es, v.value, rest.value);
      }
    }
  }

  lemma FailsLater(py: Python, axes: Axes, es: seq<Expr>, k: nat, v: Value, x: Error)
    requires es != [] && Evaluates(py, axes, es[0], Ok(v)) && FailsAt(py, axes, es[1..], k, x)
    ensures FailsAt(py, axes, es, k + 1, x)
  {
    forall i | 0 <= i < k + 1 ensures HasValue(py, axes, es[i]) {
      if i > 0 { assert es[1..][i - 1] == es[i]; }
    }
  }

  lemma ValuesLater(py: Python, axes: Axes, es: seq<Expr>, v: Value, vs: seq<Value>)
    requires es != [] && Evaluates(py, axes, es[0], Ok(v)) && HaveValues(py, axes, es[1..], vs)
    ensures HaveValues(py, axes, es, [v] + vs)
  {
    forall i | 0 <= i < |es| ensures Evaluates(py, axes, es[i], Ok(([v] + vs)[i])) {
      if i > 0 { assert es[1..][i - 1] == es[i]; }
    }
  }

  // ---------------------------------------------------------------- nothing else is

  lemma {:induction false} EvaluatesOnly(py: Python, axes: Axes, e: Expr, r: Outcome)
    ensures Evaluates(py, axes, e, r) ==> r == Meaning(py, axes, e)
    decreases e, 2
  {
    if Evaluates(py, axes, e, r) {
      match e
      case Constant(_) =>
      case Name(_) =>
      case TupleOf(es) => SequenceOnly(py, axes, es, true, r);
      case ListOf(es) => SequenceOnly(py, axes, es, false, r);
      case Attribute(_, _) =>
      case Binary(left, op, right) => BinaryOnly(py, axes, left, op, right, r);
      case Unary(op, x) => UnaryOnly(py, axes, op, x, r);
      case Boolean(op, h, es) => BooleanOnly(py, axes, op, h, es, r);
      case Compare(first, ops, es) => CompareOnly(py, axes, first, ops, es, r);
      case IfExp(t, b, o) => IfOnly(py, axes, t, b, o, r);
      case Call(f, args, _) => CallOnly(py, axes, f, args, r);
      case Other(_) =>
    }
  }

  lemma BinaryOnly(py: Python, axes: Axes, left: Expr, op: BinaryOp, right: Expr, r: Outcome)
    requires BinaryRule(py, axes, left, op, right, r)
    ensures r == Combined(py, op, Meaning(py, axes, left), Meaning(py, axes, right))
    decreases Binary(left, op, right), 1
  {
    var a, b := BinaryCases(py, axes, left, op, right, r);
    EvaluatesOnly(py, axes, left, a);
    if a.Ok? { EvaluatesOnly(py, axes, right, b); }
  }

  lemma BinaryCases(py: Python, axes: Axes, left: Expr, op: BinaryOp, right: Expr, r: Outcome)
    returns (a: Outcome, b: Outcome)
    requires BinaryRule(py, axes, left, op, right, r)
    ensures Evaluates(py, axes, left, a) && (a.Ok? ==> Evaluates(py, axes, right, b)) && r == Combined(py, op, a, b)
  {
    a, b := r, r;
    if !(r.Err? && Evaluates(py, axes, left, r)) {
      if x :| Evaluates(py, axes, left, Ok(x)) && r.Err? && Evaluates(py, axes, right, r) {
        a := Ok(x);
      } else {
        var x, y :| Evaluates(py, axes, left, Ok(x)) && Evaluates(py, axes, right, Ok(y)) && Operates(py, op, x, y, r);
        a, b := Ok(x), Ok(y);
        OperatesIff(py, op, x, y, r);
      }
    }
  }

  lemma UnaryOnly(py: Python, axes: Axes, op: UnaryOp, x: Expr, r: Outcome)
    requires UnaryRule(py, axes, op, x, r)
    ensures r == Negated(py, op, Meaning(py, axes, x))
    decreases Unary(op, x), 1
  {
    if op != Invert {
      var v := UnaryCases(py, axes, op, x, r);
      EvaluatesOnly(py, axes, x, v);
    }
  }

  lemma UnaryCases(py: Python, axes: Axes, op: UnaryOp, x: Expr, r: Outcome) returns (v: Outcome)
    requires op != Invert && UnaryRule(py, axes, op, x, r)
    ensures Evaluates(py, axes, x, v) && r == Negated(py, op, v)
  {
    v := r;
    if !(r.Err? && Evaluates(py, axes, x, r)) {
      var y :| Evaluates(py, axes, x, Ok(y)) && Returns(py.unary(op, y), r);
      v := Ok(y);
      ReturnsIff(py.unary(op, y), r);
    }
  }

  lemma IfOnly(py: Python, axes: Axes, t: Expr, b: Expr, o: Expr, r: Outcome)
    requires IfRule(py, axes, t, b, o, r)
    ensures r == Chosen(Meaning(py, axes, t), Meaning(py, axes, b), Meaning(py, axes, o))
    decreases IfExp(t, b, o), 1
  {
    var v := IfCases(py, axes, t, b, o, r);
    EvaluatesOnly(py, axes, t, v);
    if v.Ok? { ArmOnly(py, axes, t, b, o, Truthy(v.value), r); }
  }

  lemma ArmOnly(py: Python, axes: Axes, t: Expr, b: Expr, o: Expr, truth: bool, r: Outcome)
    ensures (if truth then Evaluates(py, axes, b, r) else Evaluates(py, axes, o, r)) ==>
              r == if truth then Meaning(py, axes, b) else Meaning(py, axes, o)
    decreases IfExp(t, b, o), 0
  {
    if truth { EvaluatesOnly(py, axes, b, r); } else { EvaluatesOnly(py, axes, o, r); }
  }

  lemma IfCases(py: Python, axes: Axes, t: Expr, b: Expr, o: Expr, r: Outcome) returns (v: Outcome)
    requires IfRule(py, axes, t, b, o, r)
    ensures Evaluates(py, axes, t, v) && (v.Err? ==> r == v)
    ensures v.Ok? ==> if Truthy(v.value) then Evaluates(py, axes, b, r) else Evaluates(py, axes, o, r)
  {
    v := r;
    if !(r.Err? && Evaluates(py, axes, t, r)) {
      if x :| Evaluates(py, axes, t, Ok(x)) && !IsFalse(x) && Evaluates(py, axes, b, r) {
        v := Ok(x);
      } else {
        var x :| Evaluates(py, axes, t, Ok(x)) && IsFalse(x) && Evaluates(py, axes, o, r);
        v := Ok(x);
      }
      TruthIsPythons(v.value);
    }
  }

  lemma {:induction false} ValuesOnly(py: Python, axes: Axes, es: seq<Expr>, vs: seq<Value>)
    requires HaveValues(py, axes, es, vs)
    ensures MeaningAll(py, axes, es) == Ok(vs)
    decreases es, 3
  {
    if es != [] {
      EvaluatesOnly(py, axes, es[0], Ok(vs[0]));
      assert HaveValues(py, axes, es[1..], vs[1..]) by {
        forall i | 0 <= i < |es| - 1 ensures Evaluates(py, axes, es[1..][i], Ok(vs[1..][i])) {
          assert es[1..][i] == es[i + 1];
        }
      }
      ValuesOnly(py, axes, es[1..], vs[1..]);
      assert [vs[0]] + vs[1..] == vs;
    }
  }

  lemma {:induction false} FailureOnly(py: Python, axes: Axes, es: seq<Expr>, k: nat, x: Error)
    requires FailsAt(py, axes, es, k, x)
    ensures MeaningAll(py, axes, es) == Err(x)
    decreases es, 3
  {
    if k == 0 {
      EvaluatesOnly(py, axes, es[0], Err(x));
    } else {
      assert HasValue(py, axes, es[0]);
      var v :| Evaluates(py, axes, es[0], Ok(v));
      EvaluatesOnly(py, axes, es[0], Ok(v));
      assert FailsAt(py, axes, es[1..], k - 1, x) by {
        assert es[1..][k - 1] == es[k];
        forall i | 0 <= i < k - 1 ensures HasValue(py, axes, es[1..][i]) {
          assert es[1..][i] == es[i + 1];
        }
      }
      FailureOnly(py, axes, es[1..], k - 1, x);
    }
  }

  lemma SequenceOnly(py: Python, axes: Axes, es: seq<Expr>, tuple: bool, r: Outcome)
    requires SequenceRule(py, axes, es, tuple, r)
    ensures r == Gathered(MeaningAll(py, axes, es), tuple)
    decreases es, 4
  {
    if k, x :| FailsAt(py, axes, es, k, x) && r == Err(x) {
      FailureOnly(py, axes, es, k, x);
    } else {
      var vs :| HaveValues(py, axes, es, vs) && Yields(if tuple then Tup(vs) else Lst(vs), r);
      ValuesOnly(py, axes, es, vs);
      YieldsIff(if tuple then Tup(vs) else Lst(vs), r);
    }
  }

  lemma CallOnly(py: Python, axes: Axes, f: Expr, args: seq<Expr>, r: Outcome)
    requires CallRule(py, axes, f, args, r)
    ensures r == Applied(py, f, MeaningAll(py, axes, args))
    decreases args, 4
  {
    if Callee(f).None? {
      forall name ensures !Names(f, name) { NamesIff(f, name); }
      assert r == Err(Missing);
    } else {
      NamesIff(f, Callee(f).value);
      if k, x :| FailsAt(py, axes, args, k, x) && r == Err(x) {
        FailureOnly(py, axes, args, k, x);
      } else {
        var name, vs :| Names(f, name) && HaveValues(py, axes, args, vs) && Calls(py, f, name, vs, r);
        NamesIff(f, name);
        ValuesOnly(py, axes, args, vs);
        CallsIff(py, f, name, vs, r);
      }
    }
  }

  lemma CallsIff(py: Python, f: Expr, name: string, vs: seq<Value>, r: Outcome)
    requires Callee(f) == Some(name)
    ensures Calls(py, f, name, vs, r) <==> r == Apply(py, f, vs)
  {
    ReturnsIff(py.call(name, vs), r);
  }

  // ---------------------------------------------------------------- and, or

  lemma SettlesIff(op: BoolOp, v: Value)
    ensures Settles(op, v) <==> (op == And <==> IsFalse(v))
  {
    TruthIsPythons(v);
  }

  lemma BooleanEvaluates(py: Python, axes: Axes, op: BoolOp, h: Expr, es: seq<Expr>)
    ensures BooleanRule(py, axes, op, h, es, Continue(py, axes, op, Meaning(py, axes, h), es))
    decreases Boolean(op, h, es), 1
  {
    MeaningEvaluates(py, axes, h);
    var k := ContinueEvaluates(py, axes, op, h, Meaning(py, axes, h), es);
  }

  /** The operand that decides, counted from the head. */
  lemma {:induction false} ContinueEvaluates(py: Python, axes: Axes, op: BoolOp, h: Expr, v: Outcome, es: seq<Expr>)
    returns (k: nat)
    requires Evaluates(py, axes, h, v)
    ensures DecidedBy(py, axes, op, h, es, k, Continue(py, axes, op, v, es))
    decreases es, 3
  {
    k := 0;
    if v.Ok? {
      SettlesIff(op, v.value);
      if es != [] && !Settles(op, v.value) {
        MeaningEvaluates(py, axes, es[0]);
        var j := ContinueEvaluates(py, axes, op, es[0], Meaning(py, axes, es[0]), es[1..]);
        k := j + 1;
        DecidedLater(py, axes, op, h, v.value, es, j, Continue(py, axes, op, v, es));
      }
    }
  }

  lemma DecidedLater(py: Python, axes: Axes, op: BoolOp, h: Expr, v: Value, es: seq<Expr>, j: nat, r: Outcome)
    requires es != [] && Evaluates(py, axes, h, Ok(v)) && (op == And <==> !IsFalse(v))
    requires DecidedBy(py, axes, op, es[0], es[1..], j, r)
    ensures DecidedBy(py, axes, op, h, es, j + 1, r)
  {
    assert Operand(h, es, j + 1) == Operand(es[0], es[1..], j);
    assert GoesOn(py, axes, op, h);
    forall i | 0 <= i < j + 1 ensures GoesOn(py, axes, op, Operand(h, es, i)) {
      if i > 0 { assert Operand(h, es, i) == Operand(es[0], es[1..], i - 1); }
    }
  }

  lemma BooleanOnly(py: Python, axes: Axes, op: BoolOp, h: Expr, es: seq<Expr>, r: Outcome)
    requires BooleanRule(py, axes, op, h, es, r)
    ensures r == Continue(py, axes, op, Meaning(py, axes, h), es)
    decreases Boolean(op, h, es), 1
  {
    var k :| DecidedBy(py, axes, op, h, es, k, r);
    var v := HeadOf(py, axes, op, h, es, k, r);
    EvaluatesOnly(py, axes, h, v);
    ContinueOnly(py, axes, op, h, v, es, k, r);
  }

  /** What the head of the operands evaluates to, when operand `k` decides. */
  lemma HeadOf(py: Python, axes: Axes, op: BoolOp, h: Expr, es: seq<Expr>, k: nat, r: Outcome) returns (v: Outcome)
    requires DecidedBy(py, axes, op, h, es, k, r)
    ensures Evaluates(py, axes, h, v)
    ensures k == 0 ==> v == r && (v.Err? || es == [] || Settles(op, v.value))
    ensures k > 0 ==> v.Ok? && !Settles(op, v.value)
  {
    v := r;
    if k > 0 {
      assert Operand(h, es, 0) == h && GoesOn(py, axes, op, h);
      var u :| Evaluates(py, axes, h, Ok(u)) && (op == And <==> !IsFalse(u));
      v := Ok(u);
    }
    if v.Ok? { SettlesIff(op, v.value); }
  }

  lemma {:induction false} ContinueOnly(py: Python, axes: Axes, op: BoolOp, h: Expr, v: Outcome, es: seq<Expr>,
                                        k: nat, r: Outcome)
    requires DecidedBy(py, axes, op, h, es, k, r)
    requires k == 0 ==> v == r && (v.Err? || es == [] || Settles(op, v.value))
    requires k > 0 ==> v.Ok? && !Settles(op, v.value)
    ensures r == Continue(py, axes, op, v, es)
    decreases es, 3
  {
    if k > 0 {
      DecidedEarlier(py, axes, op, h, es, k, r);
      var next := HeadOf(py, axes, op, es[0], es[1..], k - 1, r);
      EvaluatesOnly(py, axes, es[0], next);
      ContinueOnly(py, axes, op, es[0], next, es[1..], k - 1, r);
    }
  }

  lemma DecidedEarlier(py: Python, axes: Axes, op: BoolOp, h: Expr, es: seq<Expr>, k: nat, r: Outcome)
    requires 0 < k && DecidedBy(py, axes, op, h, es, k, r)
    ensures DecidedBy(py, axes, op, es[0], es[1..], k - 1, r)
  {
    assert Operand(h, es, k) == Operand(es[0], es[1..], k - 1);
    forall i | 0 <= i < k - 1 ensures GoesOn(py, axes, op, Operand(es[0], es[1..], i)) {
      assert Operand(h, es, i + 1) == Operand(es[0], es[1..], i);
    }
  }

  // ---------------------------------------------------------------- comparison chains

  lemma CompareEvaluates(py: Python, axes: Axes, first: Expr, ops: seq<CompareOp>, es: seq<Expr>)
    ensures CompareRule(py, axes, first, ops, es, ChainFrom(py, axes, Meaning(py, axes, first), ops, es))
    decreases Compare(first, ops, es), 1
  {
    MeaningEvaluates(py, axes, first);
    var v := Meaning(py, axes, first);
    if v.Ok? {
      var vs := ChainEvaluates(py, axes, first, v.value, ops, es);
    }
  }

  /** The values compared until the chain is over. */
  lemma {:induction false} ChainEvaluates(py: Python, axes: Axes, first: Expr, left: Value,
                                          ops: seq<CompareOp>, es: seq<Expr>)
    returns (vs: seq<Value>)
    requires Evaluates(py, axes, first, Ok(left))
    ensures Linked(py, axes, first, ops, es, vs) && vs[0] == left
    ensures ChainEnds(py, axes, ops, es, vs, Chain(py, axes, left, ops, es))
    decreases es, 3
  {
    vs := [left];
    if ops != [] && es != [] {
      var right := Meaning(py, axes, es[0]);
      MeaningEvaluates(py, axes, es[0]);
      if right.Ok? && ops[0] != OtherCompare && py.compare(ops[0], left, right.value) == Ok(true) {
        var more := ChainEvaluates(py, axes, es[0], right.value, ops[1..], es[1..]);
        vs := [left] + more;
        LinkedLater(py, axes, first, left, ops, es, more);
        EndsLater(py, axes, left, ops, es, more, Chain(py, axes, right.value, ops[1..], es[1..]));
      } else {
        BreaksNow(py, axes, left, ops, es, right);
      }
    }
  }

  lemma BreaksNow(py: Python, axes: Axes, left: Value, ops: seq<CompareOp>, es: seq<Expr>, right: Outcome)
    requires ops != [] && es != [] && Evaluates(py, axes, es[0], right) && right == Meaning(py, axes, es[0])
    requires right.Err? || ops[0] == OtherCompare || py.compare(ops[0], left, right.value) != Ok(true)
    ensures ChainEnds(py, axes, ops, es, [left], Chain(py, axes, left, ops, es))
  {
    if right.Ok? {
      assert LinkBreaks(py, ops[0], left, right.value, Chain(py, axes, left, ops, es));
    }
  }

  lemma LinkedLater(py: Python, axes: Axes, first: Expr, left: Value, ops: seq<CompareOp>, es: seq<Expr>,
                    more: seq<Value>)
    requires ops != [] && es != [] && Evaluates(py, axes, first, Ok(left))
    requires Linked(py, axes, es[0], ops[1..], es[1..], more)
    requires ops[0] != OtherCompare && py.compare(ops[0], left, more[0]) == Ok(true)
    ensures Linked(py, axes, first, ops, es, [left] + more)
  {
    var vs := [left] + more;
    forall i | 0 <= i < |vs| - 1
      ensures Evaluates(py, axes, es[i], Ok(vs[i + 1]))
      ensures ops[i] != OtherCompare && py.compare(ops[i], vs[i], vs[i + 1]) == Ok(true)
    {
      if i > 0 { assert es[1..][i - 1] == es[i] && ops[1..][i - 1] == ops[i]; }
    }
  }

  lemma EndsLater(py: Python, axes: Axes, left: Value, ops: seq<CompareOp>, es: seq<Expr>, more: seq<Value>, r: Outcome)
    requires ops != [] && es != [] && 0 < |more| <= |ops| && |more| <= |es|
    requires ChainEnds(py, axes, ops[1..], es[1..], more, r)
    ensures ChainEnds(py, axes, ops, es, [left] + more, r)
  {
    var k := |more| - 1;
    if k < |ops| - 1 && k < |es| - 1 { assert es[1..][k] == es[k + 1] && ops[1..][k] == ops[k + 1]; }
  }

  lemma CompareOnly(py: Python, axes: Axes, first: Expr, ops: seq<CompareOp>, es: seq<Expr>, r: Outcome)
    requires CompareRule(py, axes, first, ops, es, r)
    ensures r == ChainFrom(py, axes, Meaning(py, axes, first), ops, es)
    decreases Compare(first, ops, es), 1
  {
    if r.Err? && Evaluates(py, axes, first, r) {
      EvaluatesOnly(py, axes, first, r);
    } else {
      var vs :| Linked(py, axes, first, ops, es, vs) && ChainEnds(py, axes, ops, es, vs, r);
      EvaluatesOnly(py, axes, first, Ok(vs[0]));
      ChainOnly(py, axes, first, ops, es, vs, r);
    }
  }

  lemma {:induction false} ChainOnly(py: Python, axes: Axes, first: Expr, ops: seq<CompareOp>, es: seq<Expr>,
                                     vs: seq<Value>, r: Outcome)
    requires Linked(py, axes, first, ops, es, vs) && ChainEnds(py, axes, ops, es, vs, r)
    ensures r == Chain(py, axes, vs[0], ops, es)
    decreases es, 3
  {
    if |vs| == 1 {
      LastLink(py, axes, ops, es, vs, r);
    } else {
      EvaluatesOnly(py, axes, es[0], Ok(vs[1]));
      ChainEarlier(py, axes, first, ops, es, vs, r);
      ChainOnly(py, axes, es[0], ops[1..], es[1..], vs[1..], r);
    }
  }

  lemma LastLink(py: Python, axes: Axes, ops: seq<CompareOp>, es: seq<Expr>, vs: seq<Value>, r: Outcome)
    requires |vs| == 1 && ChainEnds(py, axes, ops, es, vs, r)
    ensures r == Chain(py, axes, vs[0], ops, es)
    decreases es, 2
  {
    if ops != [] && es != [] {
      if r.Err? && Evaluates(py, axes, es[0], r) {
        EvaluatesOnly(py, axes, es[0], r);
      } else {
        var b :| Evaluates(py, axes, es[0], Ok(b)) && LinkBreaks(py, ops[0], vs[0], b, r);
        EvaluatesOnly(py, axes, es[0], Ok(b));
      }
    }
  }

  lemma ChainEarlier(py: Python, axes: Axes, first: Expr, ops: seq<CompareOp>, es: seq<Expr>, vs: seq<Value>,
                     r: Outcome)
    requires |vs| > 1 && Linked(py, axes, first, ops, es, vs) && ChainEnds(py, axes, ops, es, vs, r)
    ensures Linked(py, axes, es[0], ops[1..], es[1..], vs[1..]) && ChainEnds(py, axes, ops[1..], es[1..], vs[1..], r)
  {
    var k := |vs| - 1;
    if k < |ops| && k < |es| { assert es[1..][k - 1] == es[k] && ops[1..][k - 1] == ops[k]; }
    forall i | 0 <= i < |vs[1..]| - 1
      ensures Evaluates(py, axes, es[1..][i], Ok(vs[1..][i + 1])) && ops[1..][i] != OtherCompare
      ensures py.compare(ops[1..][i], vs[1..][i], vs[1..][i + 1]) == Ok(true)
    {
      assert es[1..][i] == es[i + 1] && ops[1..][i] == ops[i + 1];
    }
  }
}
