/** The value or the failure of an expression as a recursive function: what the interpreter computes. */
module Denotation {
  import opened Common
  import opened Evaluator
  import opened Semantics

  /** The value of a primitive, validated. */
  function Checked(r: Result<Value, bool>): Outcome {
    if r.Err? then Err(Raised(r.error)) else Validate(r.value)
  }

  predicate ExponentTooLarge(v: Value) {
    (v.Int? && !(-64 <= v.n <= 64)) || (v.Float? && !(-64.0 <= v.x <= 64.0))
  }

  function MathAttribute(py: Python, attr: string): Outcome {
    if attr in MATH_FUNCTIONS then Err(Rejected)
    else if attr in MATH_CONSTANTS then Validate(py.constant(attr))
    else Err(Missing)
  }

  function Operate(py: Python, op: BinaryOp, left: Value, right: Value): Outcome {
    if op == Pow && ExponentTooLarge(right) then Err(Rejected)
    else if op == OtherBinary then Err(Missing)
    else Checked(py.binary(op, left, right))
  }

  /** The function a call names, if the tables hold it. */
  function Callee(f: Expr): Option<string> {
    if f.Name? then (if f.id in FUNCTIONS then Some(f.id) else None)
    else if f.Attribute? && MathName(f.attr) then Some("math." + f.attr)
    else None
  }

  function Apply(py: Python, f: Expr, args: seq<Value>): Outcome
    requires Callee(f).Some?
  {
    if f.Attribute? && f.attr in MATH_CONSTANTS then Err(Raised(true))
    else Checked(py.call(Callee(f).value, args))
  }

  /** Whether a boolean operator is settled by a value. */
  predicate Settles(op: BoolOp, v: Value) {
    if op == And then !Truthy(v) else Truthy(v)
  }

  /** The results of operands, left to right: the first failure, or the operation on their values. */
  function Combined(py: Python, op: BinaryOp, left: Outcome, right: Outcome): Outcome {
    if left.Err? then left else if right.Err? then right else Operate(py, op, left.value, right.value)
  }

  function Negated(py: Python, op: UnaryOp, v: Outcome): Outcome {
    if op == Invert then Err(Missing) else if v.Err? then v else Checked(py.unary(op, v.value))
  }

  function Chosen(test: Outcome, body: Outcome, orelse: Outcome): Outcome {
    if test.Err? then test else if Truthy(test.value) then body else orelse
  }

  function Gathered(vs: Result<seq<Value>, Error>, tuple: bool): Outcome {
    if vs.Err? then Err(vs.error) else Validate(if tuple then Tup(vs.value) else Lst(vs.value))
  }

  function Applied(py: Python, f: Expr, vs: Result<seq<Value>, Error>): Outcome {
    if Callee(f).None? then Err(Missing) else if vs.Err? then Err(vs.error) else Apply(py, f, vs.value)
  }

  function Meaning(py: Python, axes: Axes, e: Expr): Outcome
    decreases e, 0
  {
    match e
    case Constant(v) => Validate(v)
    case Name(id) => if id in axes then Ok(axes[id]) else Err(Rejected)
    case TupleOf(es) => Gathered(MeaningAll(py, axes, es), true)
    case ListOf(es) => Gathered(MeaningAll(py, axes, es), false)
    case Attribute(_, attr) => MathAttribute(py, attr)
    case Binary(l, op, r) => Combined(py, op, Meaning(py, axes, l), Meaning(py, axes, r))
    case Unary(op, x) => Negated(py, op, Meaning(py, axes, x))
    case Boolean(op, h, es) => Continue(py, axes, op, Meaning(py, axes, h), es)
    case Compare(first, ops, es) => ChainFrom(py, axes, Meaning(py, axes, first), ops, es)
    case IfExp(t, b, o) => Chosen(Meaning(py, axes, t), Meaning(py, axes, b), Meaning(py, axes, o))
    case Call(f, args, _) => Applied(py, f, MeaningAll(py, axes, args))
    case Other(_) => Err(Missing)
  }

  function MeaningAll(py: Python, axes: Axes, es: seq<Expr>): (r: Result<seq<Value>, Error>)
    decreases es, 0
  {
    if es == [] then Ok([])
    else
      var v := Meaning(py, axes, es[0]);
      if v.Err? then Err(v.error)
      else
        var vs := MeaningAll(py, axes, es[1..]);
        if vs.Err? then vs else Ok([v.value] + vs.value)
  }

  /** A boolean operator continued from the result so far. */
  function Continue(py: Python, axes: Axes, op: BoolOp, v: Outcome, es: seq<Expr>): Outcome
    decreases es, 0
  {
    if v.Err? || es == [] || Settles(op, v.value) then v
    else Continue(py, axes, op, Meaning(py, axes, es[0]), es[1..])
  }

  function ChainFrom(py: Python, axes: Axes, left: Outcome, ops: seq<CompareOp>, es: seq<Expr>): Outcome
    decreases es, 1
  {
    if left.Err? then left else Chain(py, axes, left.value, ops, es)
  }

  /** A comparison chain continued from its left operand. */
  function Chain(py: Python, axes: Axes, left: Value, ops: seq<CompareOp>, es: seq<Expr>): Outcome
    decreases es, 0
  {
    if ops == [] || es == [] then Ok(Bool(true))
    else
      var right := Meaning(py, axes, es[0]);
      if right.Err? then right
      else if ops[0] == OtherCompare then Err(Missing)
      else
        var holds := py.compare(ops[0], left, right.value);
        if holds.Err? then Err(Raised(holds.error))
        else if !holds.value then Ok(Bool(false))
        else Chain(py, axes, right.value, ops[1..], es[1..])
  }
}
