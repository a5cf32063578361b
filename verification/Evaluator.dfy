/** The restricted expression language of derived matrix values: the value domain with its validation,
    the syntax trees, and the whitelist over the nodes of a tree. */
module Evaluator {
  import opened Common

  datatype Value =
    | Nil | Bool(b: bool) | Str(s: string) | Int(n: int) | Float(x: real) | NonFinite
    | Tup(items: seq<Value>) | Lst(items: seq<Value>) | Object

  datatype BinaryOp = Add | Sub | Mult | Div | FloorDiv | Mod | Pow | OtherBinary
  datatype UnaryOp = USub | UAdd | Not | Invert
  datatype CompareOp = Eq | NotEq | Lt | LtE | Gt | GtE | OtherCompare
  datatype BoolOp = And | Or

  datatype Expr =
    | Constant(value: Value)
    | Name(id: string)
    | TupleOf(elts: seq<Expr>)
    | ListOf(elts: seq<Expr>)
    | Attribute(base: Expr, attr: string)
    | Binary(left: Expr, op: BinaryOp, right: Expr)
    | Unary(uop: UnaryOp, operand: Expr)
    | Boolean(bop: BoolOp, head: Expr, values: seq<Expr>)
    | Compare(first: Expr, ops: seq<CompareOp>, comparators: seq<Expr>)
    | IfExp(test: Expr, body: Expr, orelse: Expr)
    | Call(func: Expr, args: seq<Expr>, keywords: seq<Expr>)
    | Other(children: seq<Expr>)

  /** `Rejected` is a ValueError of the evaluator, `Raised` an exception of a Python primitive, which
      is caught when it is an arithmetic, type or value error, and `Missing` a lookup or a dispatch
      that finds nothing. */
  datatype Error = Rejected | Raised(caught: bool) | Missing

  type Outcome = Result<Value, Error>

  /** Python's operators and functions: a result, or an exception and whether it is caught. */
  datatype Python = Python(
    binary: (BinaryOp, Value, Value) -> Result<Value, bool>,
    unary: (UnaryOp, Value) -> Result<Value, bool>,
    compare: (CompareOp, Value, Value) -> Result<bool, bool>,
    call: (string, seq<Value>) -> Result<Value, bool>,
    constant: string -> Value)

  const MAX_LENGTH := 1024
  const MAX_NODES := 128
  const MAX_SEQUENCE := 64
  const MAX_STRING := 4096
  const MAX_INTEGER := 0x1_0000000000000000_0000000000000000_0000000000000000_0000000000000000

  /** Two to the power 256. */
  const WIDE := 115792089237316195423570985008687907853269984665640564039457584007913129639936

  const FUNCTIONS := {"min", "max", "abs", "round", "int", "float"}
  const MATH_FUNCTIONS := {"ceil", "floor", "sqrt", "log", "log2", "log10", "pow", "exp"}
  const MATH_CONSTANTS := {"pi", "e", "inf"}

  predicate MathName(name: string) { name in MATH_FUNCTIONS || name in MATH_CONSTANTS }

  // ---------------------------------------------------------------- the value domain

  /** Finite built-in values of bounded size. */
  predicate InDomain(v: Value) {
    match v
    case Nil => true
    case Bool(_) => true
    case Str(s) => |s| <= MAX_STRING
    case Int(n) => -MAX_INTEGER < n < MAX_INTEGER
    case Float(_) => true
    case NonFinite => false
    case Tup(items) => |items| <= MAX_SEQUENCE && forall i :: 0 <= i < |items| ==> InDomain(items[i])
    case Lst(items) => |items| <= MAX_SEQUENCE && forall i :: 0 <= i < |items| ==> InDomain(items[i])
    case Object => false
  }

  /** The bounds of the domain: strings of at most 4096 characters, integers of at most 256 bits, finite floats,
      and tuples and lists of at most 64 items of the domain. */
  lemma DomainBounds(v: Value)
    ensures v == Nil || v.Bool? || v.Float? ==> InDomain(v)
    ensures v.Str? ==> (InDomain(v) <==> |v.s| <= 4096)
    ensures v.Int? ==> (InDomain(v) <==> -WIDE < v.n < WIDE)
    ensures v.Tup? || v.Lst? ==>
              (InDomain(v) <==> |v.items| <= 64 && forall i :: 0 <= i < |v.items| ==> InDomain(v.items[i]))
    ensures v == NonFinite || v == Object ==> !InDomain(v)
  {
  }

  /** The validator rebuilds a value item by item; it changes nothing and accepts exactly the domain. */
  function Validate(v: Value): (r: Outcome)
    ensures r == if InDomain(v) then Ok(v) else Err(Rejected)
  {
    match v
    case Nil => Ok(v)
    case Bool(_) => Ok(v)
    case Str(s) => if |s| > MAX_STRING then Err(Rejected) else Ok(v)
    case Int(n) => if n >= MAX_INTEGER || n <= -MAX_INTEGER then Err(Rejected) else Ok(v)
    case Float(_) => Ok(v)
    case Tup(items) =>
      if |items| > MAX_SEQUENCE then Err(Rejected)
      else var c := ValidateAll(items); if c.Err? then Err(c.error) else Ok(Tup(c.value))
    case Lst(items) =>
      if |items| > MAX_SEQUENCE then Err(Rejected)
      else var c := ValidateAll(items); if c.Err? then Err(c.error) else Ok(Lst(c.value))
    case NonFinite => Err(Rejected)
    case Object => Err(Rejected)
  }

  function ValidateAll(vs: seq<Value>): (r: Result<seq<Value>, Error>)
    ensures r == if (forall i :: 0 <= i < |vs| ==> InDomain(vs[i])) then Ok(vs) else Err(Rejected)
  {
    if vs == [] then Ok([])
    else
      var head := Validate(vs[0]);
      if head.Err? then Err(head.error)
      else
        assert vs == [vs[0]] + vs[1..];
        assert forall i :: 0 <= i < |vs[1..]| ==> vs[1..][i] == vs[i + 1];
        var tail := ValidateAll(vs[1..]);
        if tail.Err? then Err(tail.error) else Ok([head.value] + tail.value)
  }

  predicate Truthy(v: Value) {
    match v
    case Nil => false
    case Bool(b) => b
    case Str(s) => s != []
    case Int(n) => n != 0
    case Float(x) => x != 0.0
    case Tup(items) => items != []
    case Lst(items) => items != []
    case NonFinite => true
    case Object => true
  }

  // ---------------------------------------------------------------- the whitelist

  /** The nodes a walk over the tree visits: expressions, operators and keyword arguments. */
  datatype Node = Tree(e: Expr) | BinaryNode(b: BinaryOp) | UnaryNode(u: UnaryOp) | CompareNode(c: CompareOp)
                | BoolNode | Load | Keyword

  function Nodes(e: Expr): seq<Node> {
    [Tree(e)] +
    match e
    case Constant(_) => []
    case Name(_) => [Load]
    case TupleOf(es) => NodesAll(es) + [Load]
    case ListOf(es) => NodesAll(es) + [Load]
    case Attribute(base, _) => Nodes(base) + [Load]
    case Binary(l, op, r) => Nodes(l) + [BinaryNode(op)] + Nodes(r)
    case Unary(op, x) => [UnaryNode(op)] + Nodes(x)
    case Boolean(_, h, es) => [BoolNode] + Nodes(h) + NodesAll(es)
    case Compare(l, ops, es) => Nodes(l) + Map(op => CompareNode(op), ops) + NodesAll(es)
    case IfExp(t, b, o) => Nodes(t) + Nodes(b) + Nodes(o)
    case Call(f, args, kws) => Nodes(f) + NodesAll(args) + seq(|kws|, i => Keyword) + NodesAll(kws)
    case Other(es) => NodesAll(es)
  }

  function NodesAll(es: seq<Expr>): seq<Node> {
    if es == [] then [] else Nodes(es[0]) + NodesAll(es[1..])
  }

  predicate Dunder(id: string) { |id| >= 2 && id[0] == '_' && id[1] == '_' }

  predicate FunctionOk(f: Expr) {
    || (f.Name? && f.id in FUNCTIONS)
    || (f.Attribute? && f.base == Name("math") && MathName(f.attr))
  }

  /** The test on one visited node. */
  predicate NodeOk(n: Node) {
    match n
    case Tree(e) =>
      && !e.Other?
      && (e.Attribute? ==> e.base == Name("math") && MathName(e.attr))
      && (e.Name? ==> !Dunder(e.id))
      && (e.Call? ==> FunctionOk(e.func))
    case BinaryNode(op) => op != OtherBinary
    case UnaryNode(op) => op != Invert
    case CompareNode(op) => op != OtherCompare
    case BoolNode => true
    case Load => true
    case Keyword => false
  }

  /** The trees that can be interpreted, by structure. */
  predicate Whitelisted(e: Expr) {
    match e
    case Constant(_) => true
    case Name(id) => !Dunder(id)
    case TupleOf(es) => AllWhitelisted(es)
    case ListOf(es) => AllWhitelisted(es)
    case Attribute(base, attr) => base == Name("math") && MathName(attr)
    case Binary(l, op, r) => op != OtherBinary && Whitelisted(l) && Whitelisted(r)
    case Unary(op, x) => op != Invert && Whitelisted(x)
    case Boolean(_, h, es) => Whitelisted(h) && AllWhitelisted(es)
    case Compare(l, ops, es) => Whitelisted(l) && OtherCompare !in ops && AllWhitelisted(es)
    case IfExp(t, b, o) => Whitelisted(t) && Whitelisted(b) && Whitelisted(o)
    case Call(f, args, kws) => FunctionOk(f) && AllWhitelisted(args) && kws == []
    case Other(_) => false
  }

  predicate AllWhitelisted(es: seq<Expr>) {
    forall i :: 0 <= i < |es| ==> Whitelisted(es[i])
  }

  ghost predicate AllOk(ns: seq<Node>) {
    forall n :: n in ns ==> NodeOk(n)
  }

  /** The tests node by node, as the walk makes them. */
  ghost predicate EachOk(ns: seq<Node>) {
    ns == [] || (NodeOk(ns[0]) && EachOk(ns[1..]))
  }

  lemma {:induction false} EachOkIff(ns: seq<Node>)
    ensures EachOk(ns) <==> AllOk(ns)
  {
    if ns != [] {
      EachOkIff(ns[1..]);
      assert forall n :: n in ns <==> n == ns[0] || n in ns[1..];
    }
  }

  lemma {:induction false} EachOkAppend(a: seq<Node>, b: seq<Node>)
    ensures EachOk(a + b) <==> EachOk(a) && EachOk(b)
  {
    if a == [] {
      assert a + b == b;
    } else {
      EachOkAppend(a[1..], b);
      assert (a + b)[1..] == a[1..] + b;
    }
  }

  /** A node and what the walk visits below it. */
  lemma EachOkBelow(n: Node, a: seq<Node>, b: seq<Node>, c: seq<Node>)
    ensures EachOk([n] + (a + b + c)) <==> NodeOk(n) && EachOk(a) && EachOk(b) && EachOk(c)
  {
    EachOkOne(n);
    EachOkAppend([n], a + b + c);
    EachOkAppend(a + b, c);
    EachOkAppend(a, b);
  }

  lemma EachOkTwo(n: Node, a: seq<Node>, b: seq<Node>)
    ensures EachOk([n] + (a + b)) <==> NodeOk(n) && EachOk(a) && EachOk(b)
  {
    EachOkOne(n);
    EachOkAppend([n], a + b);
    EachOkAppend(a, b);
  }

  lemma EachOkOne(n: Node)
    ensures EachOk([n]) <==> NodeOk(n)
  {
    assert [n][1..] == [];
  }

  /** The walk accepts exactly the whitelisted trees. */
  lemma WalkIsWhitelist(e: Expr)
    ensures AllOk(Nodes(e)) <==> Whitelisted(e)
  {
    WalkOne(e);
    EachOkIff(Nodes(e));
  }

  lemma {:induction false} WalkOne(e: Expr)
    ensures EachOk(Nodes(e)) <==> Whitelisted(e)
    decreases e, 1
  {
    match e
    case Constant(_) => EachOkTwo(Tree(e), [], []);
    case Name(_) => EachOkTwo(Tree(e), [], [Load]); EachOkOne(Load);
    case TupleOf(es) => WalkItems(e, es);
    case ListOf(es) => WalkItems(e, es);
    case Attribute(base, _) => WalkAttribute(e);
    case Binary(l, op, r) => WalkBinary(l, op, r);
    case Unary(op, x) => WalkUnary(op, x);
    case Boolean(_, h, es) => WalkBoolean(e, h, es);
    case Compare(l, ops, es) => WalkCompare(l, ops, es);
    case IfExp(t, b, o) => WalkIf(t, b, o);
    case Call(f, args, kws) => WalkCall(f, args, kws);
    case Other(es) => EachOkTwo(Tree(e), [], NodesAll(es));
  }

  lemma WalkItems(e: Expr, es: seq<Expr>)
    requires e == TupleOf(es) || e == ListOf(es)
    ensures EachOk(Nodes(e)) <==> Whitelisted(e)
    decreases e, 0
  {
    EachOkTwo(Tree(e), NodesAll(es), [Load]);
    EachOkOne(Load);
    WalkAll(es);
  }

  lemma WalkAttribute(e: Expr)
    requires e.Attribute?
    ensures EachOk(Nodes(e)) <==> Whitelisted(e)
  {
    EachOkTwo(Tree(e), Nodes(e.base), [Load]);
    EachOkOne(Load);
    MathNodes();
  }

  lemma MathNodes()
    ensures EachOk(Nodes(Name("math")))
  {
    EachOkTwo(Tree(Name("math")), [], [Load]);
    EachOkOne(Load);
    assert Nodes(Name("math")) == [Tree(Name("math"))] + ([] + [Load]);
  }

  lemma WalkBinary(l: Expr, op: BinaryOp, r: Expr)
    ensures EachOk(Nodes(Binary(l, op, r))) <==> Whitelisted(Binary(l, op, r))
    decreases Binary(l, op, r), 0
  {
    EachOkBelow(Tree(Binary(l, op, r)), Nodes(l), [BinaryNode(op)], Nodes(r));
    EachOkOne(BinaryNode(op));
    WalkOne(l);
    WalkOne(r);
  }

  lemma WalkUnary(op: UnaryOp, x: Expr)
    ensures EachOk(Nodes(Unary(op, x))) <==> Whitelisted(Unary(op, x))
    decreases Unary(op, x), 0
  {
    EachOkTwo(Tree(Unary(op, x)), [UnaryNode(op)], Nodes(x));
    EachOkOne(UnaryNode(op));
    WalkOne(x);
  }

  lemma WalkBoolean(e: Expr, h: Expr, es: seq<Expr>)
    requires e.Boolean? && e.head == h && e.values == es
    ensures EachOk(Nodes(e)) <==> Whitelisted(e)
    decreases e, 0
  {
    EachOkBelow(Tree(e), [BoolNode], Nodes(h), NodesAll(es));
    EachOkOne(BoolNode);
    WalkOne(h);
    WalkAll(es);
  }

  lemma WalkIf(t: Expr, b: Expr, o: Expr)
    ensures EachOk(Nodes(IfExp(t, b, o))) <==> Whitelisted(IfExp(t, b, o))
    decreases IfExp(t, b, o), 0
  {
    EachOkBelow(Tree(IfExp(t, b, o)), Nodes(t), Nodes(b), Nodes(o));
    WalkOne(t);
    WalkOne(b);
    WalkOne(o);
  }

  lemma WalkCompare(l: Expr, ops: seq<CompareOp>, es: seq<Expr>)
    ensures EachOk(Nodes(Compare(l, ops, es))) <==> Whitelisted(Compare(l, ops, es))
    decreases Compare(l, ops, es), 0
  {
    var marks := Map(op => CompareNode(op), ops);
    EachOkBelow(Tree(Compare(l, ops, es)), Nodes(l), marks, NodesAll(es));
    CompareMarks(ops, marks);
    WalkOne(l);
    WalkAll(es);
  }

  lemma CompareMarks(ops: seq<CompareOp>, marks: seq<Node>)
    requires |marks| == |ops| && forall i :: 0 <= i < |ops| ==> marks[i] == CompareNode(ops[i])
    ensures EachOk(marks) <==> OtherCompare !in ops
  {
    EachOkIff(marks);
    forall i | 0 <= i < |ops| ensures marks[i] in marks && (NodeOk(marks[i]) <==> ops[i] != OtherCompare) {}
  }

  lemma WalkCall(f: Expr, args: seq<Expr>, kws: seq<Expr>)
    ensures EachOk(Nodes(Call(f, args, kws))) <==> Whitelisted(Call(f, args, kws))
    decreases Call(f, args, kws), 0
  {
    var marks := seq(|kws|, i => Keyword);
    EachOkBelow(Tree(Call(f, args, kws)), Nodes(f) + NodesAll(args), marks, NodesAll(kws));
    EachOkAppend(Nodes(f), NodesAll(args));
    assert EachOk(marks) <==> kws == [];
    WalkAll(args);
    if FunctionOk(f) { FunctionNodes(f); }
  }

  lemma FunctionNodes(f: Expr)
    requires FunctionOk(f)
    ensures EachOk(Nodes(f))
  {
    if f.Attribute? {
      WalkAttribute(f);
    } else {
      EachOkTwo(Tree(f), [], [Load]);
      EachOkOne(Load);
      assert Nodes(f) == [Tree(f)] + ([] + [Load]);
    }
  }

  lemma {:induction false} WalkAll(es: seq<Expr>)
    ensures EachOk(NodesAll(es)) <==> AllWhitelisted(es)
    decreases es, 2
  {
    if es != [] {
      WalkOne(es[0]);
      WalkAll(es[1..]);
      EachOkAppend(Nodes(es[0]), NodesAll(es[1..]));
      assert es == [es[0]] + es[1..];
    }
  }
}
