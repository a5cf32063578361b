/** What an expression evaluates to, one rule per kind of node, as Python evaluates it: operands from left to
    right, the first failure is the result, and what is not reached does not matter. The relation does not
    refer to the interpreter. */
module Semantics {
  import opened Common
  import opened Evaluator

  type Axes = map<string, Value>

  /** The values Python takes for false. */
  ghost predicate IsFalse(v: Value) {
    v == Nil || v == Bool(false) || v == Int(0) || v == Float(0.0) || v == Str("") || v == Tup([]) || v == Lst([])
  }

  /** A value leaves the evaluator only if it lies in its domain. */
  ghost predicate Yields(v: Value, r: Outcome) {
    (InDomain(v) && r == Ok(v)) || (!InDomain(v) && r == Err(Rejected))
  }

  /** A primitive returned or raised. */
  ghost predicate Returns(p: Result<Value, bool>, r: Outcome) {
    match p
    case Ok(v) => Yields(v, r)
    case Err(caught) => r == Err(Raised(caught))
  }

  /** A power with a number beyond 64 in magnitude for its exponent. */
  ghost predicate HugePower(op: BinaryOp, b: Value) {
    op == Pow && ((b.Int? && (b.n > 64 || b.n < -64)) || (b.Float? && (b.x > 64.0 || b.x < -64.0)))
  }

  ghost predicate Operates(py: Python, op: BinaryOp, a: Value, b: Value, r: Outcome) {
    if HugePower(op, b) then r == Err(Rejected)
    else if op == OtherBinary then r == Err(Missing)
    else Returns(py.binary(op, a, b), r)
  }

  /** The function a call names. */
  ghost predicate Names(f: Expr, name: string) {
    || (f.Name? && f.id in {"min", "max", "abs", "round", "int", "float"} && name == f.id)
    || (f.Attribute? && (f.attr in MATH_FUNCTIONS || f.attr in MATH_CONSTANTS) && name == "math." + f.attr)
  }

  /** Calling it; a constant of the math module cannot be called. */
  ghost predicate Calls(py: Python, f: Expr, name: string, vs: seq<Value>, r: Outcome) {
    if f.Attribute? && f.attr in MATH_CONSTANTS then r == Err(Raised(true)) else Returns(py.call(name, vs), r)
  }

  ghost predicate Evaluates(py: Python, axes: Axes, e: Expr, r: Outcome)
    decreases e, 2
  {
    match e
    case Constant(v) => Yields(v, r)
    case Name(id) => if id in axes then r == Ok(axes[id]) else r == Err(Rejected)
    case TupleOf(es) => SequenceRule(py, axes, es, true, r)
    case ListOf(es) => SequenceRule(py, axes, es, false, r)
    case Attribute(_, attr) => AttributeRule(py, attr, r)
    case Binary(left, op, right) => BinaryRule(py, axes, left, op, right, r)
    case Unary(op, x) => UnaryRule(py, axes, op, x, r)
    case Boolean(op, h, es) => BooleanRule(py, axes, op, h, es, r)
    case Compare(first, ops, es) => CompareRule(py, axes, first, ops, es, r)
    case IfExp(test, body, orelse) => IfRule(py, axes, test, body, orelse, r)
    case Call(f, args, _) => CallRule(py, axes, f, args, r)
    case Other(_) => r == Err(Missing)
  }

  /** An attribute is one of the math module; its functions must be called. */
  ghost predicate AttributeRule(py: Python, attr: string, r: Outcome) {
    if attr in MATH_FUNCTIONS then r == Err(Rejected)
    else if attr in MATH_CONSTANTS then Yields(py.constant(attr), r)
    else r == Err(Missing)
  }

  ghost predicate SequenceRule(py: Python, axes: Axes, es: seq<Expr>, tuple: bool, r: Outcome)
    decreases es, 1
  {
    || (exists k, x :: FailsAt(py, axes, es, k, x) && r == Err(x))
    || (exists vs :: HaveValues(py, axes, es, vs) && Yields(if tuple then Tup(vs) else Lst(vs), r))
  }

  /** The left operand, then the right one, then the operation. */
  ghost predicate BinaryRule(py: Python, axes: Axes, left: Expr, op: BinaryOp, right: Expr, r: Outcome)
    decreases Binary(left, op, right), 0
  {
    || (r.Err? && Evaluates(py, axes, left, r))
    || (exists a :: Evaluates(py, axes, left, Ok(a)) && r.Err? && Evaluates(py, axes, right, r))
    || (exists a, b :: Evaluates(py, axes, left, Ok(a)) && Evaluates(py, axes, right, Ok(b))
                       && Operates(py, op, a, b, r))
  }

  ghost predicate UnaryRule(py: Python, axes: Axes, op: UnaryOp, x: Expr, r: Outcome)
    decreases Unary(op, x), 0
  {
    if op == Invert then r == Err(Missing)
    else
      || (r.Err? && Evaluates(py, axes, x, r))
      || (exists v :: Evaluates(py, axes, x, Ok(v)) && Returns(py.unary(op, v), r))
  }

  /** The test, then one of the two arms and not the other. */
  ghost predicate IfRule(py: Python, axes: Axes, test: Expr, body: Expr, orelse: Expr, r: Outcome)
    decreases IfExp(test, body, orelse), 0
  {
    || (r.Err? && Evaluates(py, axes, test, r))
    || (exists v :: Evaluates(py, axes, test, Ok(v)) && !IsFalse(v) && Evaluates(py, axes, body, r))
    || (exists v :: Evaluates(py, axes, test, Ok(v)) && IsFalse(v) && Evaluates(py, axes, orelse, r))
  }

  /** The function is looked up before its arguments are evaluated. */
  ghost predicate CallRule(py: Python, axes: Axes, f: Expr, args: seq<Expr>, r: Outcome)
    decreases args, 1
  {
    if forall name :: !Names(f, name) then r == Err(Missing)
    else
      || (exists k, x :: FailsAt(py, axes, args, k, x) && r == Err(x))
      || (exists name, vs :: Names(f, name) && HaveValues(py, axes, args, vs) && Calls(py, f, name, vs, r))
  }

  /** The first operand, then link after link until one does not hold. */
  ghost predicate CompareRule(py: Python, axes: Axes, first: Expr, ops: seq<CompareOp>, es: seq<Expr>, r: Outcome)
    decreases Compare(first, ops, es), 1
  {
    || (r.Err? && Evaluates(py, axes, first, r))
    || (exists vs :: Linked(py, axes, first, ops, es, vs) && ChainEnds(py, axes, ops, es, vs, r))
  }

  /** All expressions have values. */
  ghost predicate HaveValues(py: Python, axes: Axes, es: seq<Expr>, vs: seq<Value>)
    decreases es, 0
  {
    |vs| == |es| && forall i :: 0 <= i < |es| ==> Evaluates(py, axes, es[i], Ok(vs[i]))
  }

  /** Expression `k` is the first that fails. */
  ghost predicate FailsAt(py: Python, axes: Axes, es: seq<Expr>, k: nat, x: Error)
    decreases es, 0
  {
    && k < |es| && Evaluates(py, axes, es[k], Err(x))
    && forall i :: 0 <= i < k ==> HasValue(py, axes, es[i])
  }

  ghost predicate HasValue(py: Python, axes: Axes, e: Expr)
    decreases e, 3
  {
    exists v :: Evaluates(py, axes, e, Ok(v))
  }

  function Operand(h: Expr, es: seq<Expr>, i: nat): Expr
    requires i <= |es|
  {
    if i == 0 then h else es[i - 1]
  }

  ghost predicate BooleanRule(py: Python, axes: Axes, op: BoolOp, h: Expr, es: seq<Expr>, r: Outcome)
    decreases Boolean(op, h, es), 1
  {
    exists k :: DecidedBy(py, axes, op, h, es, k, r)
  }

  /** Operand `k` of `and` or `or` gives the result: those before it are true for `and`, false for `or`, and it
      fails, is not, or is the last. */
  ghost predicate DecidedBy(py: Python, axes: Axes, op: BoolOp, h: Expr, es: seq<Expr>, k: nat, r: Outcome)
    decreases Boolean(op, h, es), 0
  {
    && k <= |es| && Evaluates(py, axes, Operand(h, es, k), r)
    && (k == |es| || r.Err? || (op == And <==> IsFalse(r.value)))
    && forall i :: 0 <= i < k ==> GoesOn(py, axes, op, Operand(h, es, i))
  }

  /** An operand after which the next one is evaluated. */
  ghost predicate GoesOn(py: Python, axes: Axes, op: BoolOp, e: Expr)
    decreases e, 3
  {
    exists v :: Evaluates(py, axes, e, Ok(v)) && (op == And <==> !IsFalse(v))
  }

  /** `vs` are the values of the first operands of a comparison chain, and each compares with the next. */
  ghost predicate Linked(py: Python, axes: Axes, first: Expr, ops: seq<CompareOp>, es: seq<Expr>, vs: seq<Value>)
    decreases Compare(first, ops, es), 0
  {
    && 0 < |vs| <= |ops| + 1 && |vs| <= |es| + 1
    && Evaluates(py, axes, first, Ok(vs[0]))
    && forall i :: 0 <= i < |vs| - 1 ==>
         && Evaluates(py, axes, es[i], Ok(vs[i + 1]))
         && ops[i] != OtherCompare && py.compare(ops[i], vs[i], vs[i + 1]) == Ok(true)
  }

  /** What comes of the chain after that: it is over, or its next operand fails, or its next link does not hold. */
  ghost predicate ChainEnds(py: Python, axes: Axes, ops: seq<CompareOp>, es: seq<Expr>, vs: seq<Value>, r: Outcome)
    requires 0 < |vs| <= |ops| + 1 && |vs| <= |es| + 1
    decreases es, 0
  {
    var k := |vs| - 1;
    if k == |ops| || k == |es| then r == Ok(Bool(true))
    else
      || (r.Err? && Evaluates(py, axes, es[k], r))
      || (exists b :: Evaluates(py, axes, es[k], Ok(b)) && LinkBreaks(py, ops[k], vs[k], b, r))
  }

  ghost predicate LinkBreaks(py: Python, op: CompareOp, a: Value, b: Value, r: Outcome) {
    if op == OtherCompare then r == Err(Missing)
    else
      match py.compare(op, a, b)
      case Ok(holds) => !holds && r == Ok(Bool(false))
      case Err(caught) => r == Err(Raised(caught))
  }
}
