/** The interpreter of the restricted expression language, proved against the evaluation relation, and the
    soundness of the whitelist for it. */
module Interpreter {
  import opened Common
  import opened Evaluator
  import opened Semantics
  import opened Denotation
  import opened Adequacy

  // ---------------------------------------------------------------- the interpreter

  method InterpretExpression(py: Python, axes: Axes, e: Expr) returns (r: Outcome)
    ensures r == Meaning(py, axes, e)
    decreases e, 1
  {
    match e {
      case Constant(v) => return Validate(v);
      case Name(id) =>
        if id !in axes {
          return Err(Rejected);
        }
        return Ok(axes[id]);
      case TupleOf(es) =>
        var vs := InterpretAll(py, axes, es);
        return if vs.Err? then Err(vs.error) else Validate(Tup(vs.value));
      case ListOf(es) =>
        var vs := InterpretAll(py, axes, es);
        return if vs.Err? then Err(vs.error) else Validate(Lst(vs.value));
      case Attribute(_, attr) => return MathAttribute(py, attr);
      case Binary(l, op, rhs) =>
        var left := InterpretExpression(py, axes, l);
        if left.Err? {
          return left;
        }
        var right := InterpretExpression(py, axes, rhs);
        if right.Err? {
          return right;
        }
        return Operate(py, op, left.value, right.value);
      case Unary(op, x) =>
        if op == Invert {
          return Err(Missing);
        }
        var v := InterpretExpression(py, axes, x);
        return if v.Err? then v else Checked(py.unary(op, v.value));
      case Boolean(op, h, es) => r := InterpretBoolean(py, axes, op, h, es);
      case Compare(first, ops, es) => r := InterpretCompare(py, axes, first, ops, es);
      case IfExp(t, b, o) =>
        var v := InterpretExpression(py, axes, t);
        if v.Err? {
          return v;
        }
        if Truthy(v.value) {
          r := InterpretExpression(py, axes, b);
        } else {
          r := InterpretExpression(py, axes, o);
        }
      case Call(f, args, _) =>
        if Callee(f).None? {
          return Err(Missing);
        }
        var vs := InterpretAll(py, axes, args);
        return if vs.Err? then Err(vs.error) else Apply(py, f, vs.value);
      case Other(_) => return Err(Missing);
    }
  }

  method InterpretAll(py: Python, axes: Axes, es: seq<Expr>) returns (r: Result<seq<Value>, Error>)
    ensures r == MeaningAll(py, axes, es)
    decreases es, 1
  {
    var vs: seq<Value> := [];
    assert es[0..] == es && forall xs: seq<Value> :: [] + xs == xs;
    for i := 0 to |es|
      invariant MeaningAll(py, axes, es) == Prepend(vs, MeaningAll(py, axes, es[i..]))
    {
      var v := InterpretExpression(py, axes, es[i]);
      assert es[i..][1..] == es[i + 1..];
      if v.Err? {
        return Err(v.error);
      }
      PrependNext(vs, v.value, MeaningAll(py, axes, es[i + 1..]));
      vs := vs + [v.value];
    }
    assert es[|es|..] == [] && vs + [] == vs;
    return Ok(vs);
  }

  function Prepend(vs: seq<Value>, r: Result<seq<Value>, Error>): Result<seq<Value>, Error> {
    if r.Err? then r else Ok(vs + r.value)
  }

  lemma PrependNext(vs: seq<Value>, v: Value, r: Result<seq<Value>, Error>)
    ensures Prepend(vs, Prepend([v], r)) == Prepend(vs + [v], r)
  {
    if r.Ok? { Assoc(vs, [v], r.value); }
  }

  method InterpretBoolean(py: Python, axes: Axes, op: BoolOp, h: Expr, es: seq<Expr>) returns (r: Outcome)
    ensures r == Meaning(py, axes, Boolean(op, h, es))
    decreases Boolean(op, h, es), 0
  {
    r := InterpretExpression(py, axes, h);
    ghost var first := r;
    if r.Err? {
      return;
    }
    for i := 0 to |es|
      invariant r.Ok? && Continue(py, axes, op, first, es) == Continue(py, axes, op, r, es[i..])
    {
      if Settles(op, r.value) {
        return;
      }
      assert es[i..][1..] == es[i + 1..];
      r := InterpretExpression(py, axes, es[i]);
      if r.Err? {
        return;
      }
    }
  }

  method InterpretCompare(py: Python, axes: Axes, first: Expr, ops: seq<CompareOp>, es: seq<Expr>) returns (r: Outcome)
    ensures r == Meaning(py, axes, Compare(first, ops, es))
    decreases Compare(first, ops, es), 0
  {
    r := InterpretExpression(py, axes, first);
    if r.Err? {
      return;
    }
    var left := r.value;
    ghost var start := left;
    var n := if |ops| <= |es| then |ops| else |es|;
    for i := 0 to n
      invariant Chain(py, axes, start, ops, es) == Chain(py, axes, left, ops[i..], es[i..])
    {
      var right := InterpretExpression(py, axes, es[i]);
      assert es[i..][1..] == es[i + 1..] && ops[i..][1..] == ops[i + 1..];
      if right.Err? {
        return right;
      }
      if ops[i] == OtherCompare {
        return Err(Missing);
      }
      var holds := py.compare(ops[i], left, right.value);
      if holds.Err? {
        return Err(Raised(holds.error));
      }
      if !holds.value {
        return Ok(Bool(false));
      }
      left := right.value;
    }
    return Ok(Bool(true));
  }

  // ---------------------------------------------------------------- soundness

  ghost predicate AxesOk(axes: Axes) {
    forall id :: id in axes ==> InDomain(axes[id])
  }

  /** A value of the domain, or an error other than a failed lookup. */
  ghost predicate Sound(r: Outcome) {
    if r.Ok? then InDomain(r.value) else r.error != Missing
  }

  /** A whitelisted tree evaluates to a value of the domain or is rejected; no operator, function or
      handler is ever missing. */
  lemma {:induction false} WhitelistIsSound(py: Python, axes: Axes, e: Expr)
    requires Whitelisted(e) && AxesOk(axes)
    ensures Sound(Meaning(py, axes, e))
    decreases e, 0
  {
    match e
    case Constant(_) =>
    case Name(_) =>
    case TupleOf(es) => AllSound(py, axes, es);
    case ListOf(es) => AllSound(py, axes, es);
    case Attribute(_, _) =>
    case Binary(l, _, r) => WhitelistIsSound(py, axes, l); WhitelistIsSound(py, axes, r);
    case Unary(_, x) => WhitelistIsSound(py, axes, x);
    case Boolean(op, h, es) =>
      WhitelistIsSound(py, axes, h);
      ContinueSound(py, axes, op, Meaning(py, axes, h), es);
    case Compare(first, ops, es) =>
      WhitelistIsSound(py, axes, first);
      var v := Meaning(py, axes, first);
      if v.Ok? { ChainSound(py, axes, v.value, ops, es); }
    case IfExp(t, b, o) =>
      WhitelistIsSound(py, axes, t); WhitelistIsSound(py, axes, b); WhitelistIsSound(py, axes, o);
    case Call(_, args, _) => AllSound(py, axes, args);
  }

  lemma {:induction false} AllSound(py: Python, axes: Axes, es: seq<Expr>)
    requires AllWhitelisted(es) && AxesOk(axes)
    ensures MeaningAll(py, axes, es).Err? ==> MeaningAll(py, axes, es).error != Missing
    decreases es, 0
  {
    if es != [] {
      WhitelistIsSound(py, axes, es[0]);
      AllSound(py, axes, es[1..]);
    }
  }

  lemma {:induction false} ContinueSound(py: Python, axes: Axes, op: BoolOp, v: Outcome, es: seq<Expr>)
    requires AllWhitelisted(es) && AxesOk(axes) && Sound(v)
    ensures Sound(Continue(py, axes, op, v, es))
    decreases es, 0
  {
    if v.Ok? && es != [] && !Settles(op, v.value) {
      WhitelistIsSound(py, axes, es[0]);
      ContinueSound(py, axes, op, Meaning(py, axes, es[0]), es[1..]);
    }
  }

  lemma {:induction false} ChainSound(py: Python, axes: Axes, left: Value, ops: seq<CompareOp>, es: seq<Expr>)
    requires OtherCompare !in ops && AllWhitelisted(es) && AxesOk(axes)
    ensures Sound(Chain(py, axes, left, ops, es))
    decreases es, 0
  {
    if ops != [] && es != [] {
      WhitelistIsSound(py, axes, es[0]);
      var right := Meaning(py, axes, es[0]);
      if right.Ok? { ChainSound(py, axes, right.value, ops[1..], es[1..]); }
    }
  }

  /** Every subexpression of an accepted tree is sound too, whether or not it is reached. */
  lemma SubexpressionsSound(py: Python, axes: Axes, e: Expr, sub: Expr)
    requires AllOk(Nodes(e)) && AxesOk(axes) && Tree(sub) in Nodes(e)
    ensures Sound(Meaning(py, axes, sub))
  {
    NodesClosed(e, sub);
    WalkIsWhitelist(sub);
    WhitelistIsSound(py, axes, sub);
  }

  lemma {:induction false} NodesClosed(e: Expr, sub: Expr)
    requires Tree(sub) in Nodes(e)
    ensures forall n :: n in Nodes(sub) ==> n in Nodes(e)
    decreases e, 0
  {
    if sub != e {
      match e
      case TupleOf(es) => NodesAllClosed(es, sub);
      case ListOf(es) => NodesAllClosed(es, sub);
      case Attribute(base, _) => NodesClosed(base, sub);
      case Binary(l, _, r) => if Tree(sub) in Nodes(l) { NodesClosed(l, sub); } else { NodesClosed(r, sub); }
      case Unary(_, x) => NodesClosed(x, sub);
      case Boolean(_, h, es) => if Tree(sub) in Nodes(h) { NodesClosed(h, sub); } else { NodesAllClosed(es, sub); }
      case Compare(l, ops, es) => if Tree(sub) in Nodes(l) { NodesClosed(l, sub); } else { NodesAllClosed(es, sub); }
      case IfExp(t, b, o) =>
        if Tree(sub) in Nodes(t) { NodesClosed(t, sub); }
        else if Tree(sub) in Nodes(b) { NodesClosed(b, sub); }
        else { NodesClosed(o, sub); }
      case Call(f, args, kws) =>
        if Tree(sub) in Nodes(f) { NodesClosed(f, sub); }
        else if Tree(sub) in NodesAll(args) { NodesAllClosed(args, sub); }
        else { NodesAllClosed(kws, sub); }
      case Other(es) => NodesAllClosed(es, sub);
      case Constant(_) =>
      case Name(_) =>
    }
  }

  lemma {:induction false} NodesAllClosed(es: seq<Expr>, sub: Expr)
    requires Tree(sub) in NodesAll(es)
    ensures forall n :: n in Nodes(sub) ==> n in NodesAll(es)
    decreases es, 0
  {
    if Tree(sub) in Nodes(es[0]) { NodesClosed(es[0], sub); } else { NodesAllClosed(es[1..], sub); }
  }

  // ---------------------------------------------------------------- what is accepted

  /** What a node of an accepted tree can be, whatever lies below it. */
  ghost predicate Allowed(e: Expr) {
    match e
    case Constant(_) => true
    case Name(id) => !("__" <= id)
    case TupleOf(_) => true
    case ListOf(_) => true
    case Attribute(base, attr) => base == Name("math") && attr in MATH_NAMES
    case Binary(_, op, _) => op in {Add, Sub, Mult, Div, FloorDiv, Mod, Pow}
    case Unary(op, _) => op in {USub, UAdd, Not}
    case Boolean(_, _, _) => true
    case Compare(_, ops, _) => forall i :: 0 <= i < |ops| ==> ops[i] in {Eq, NotEq, Lt, LtE, Gt, GtE}
    case IfExp(_, _, _) => true
    case Call(f, _, kws) =>
      && kws == []
      && (|| (f.Name? && f.id in {"min", "max", "abs", "round", "int", "float"})
          || (f.Attribute? && f.base == Name("math") && f.attr in MATH_NAMES))
    case Other(_) => false
  }

  const MATH_NAMES := {"ceil", "floor", "sqrt", "log", "log2", "log10", "pow", "exp", "pi", "e", "inf"}

  lemma WhitelistedAllowed(e: Expr)
    requires Whitelisted(e)
    ensures Allowed(e)
  {
    if e.Compare? {
      forall i | 0 <= i < |e.ops| ensures e.ops[i] != OtherCompare { assert e.ops[i] in e.ops; }
    }
  }

  /** Everything in an accepted tree is allowed. */
  lemma AcceptedIsAllowed(e: Expr, sub: Expr)
    requires Whitelisted(e) && Tree(sub) in Nodes(e)
    ensures Allowed(sub)
  {
    WalkIsWhitelist(e);
    NodesClosed(e, sub);
    WalkIsWhitelist(sub);
    WhitelistedAllowed(sub);
  }

  ghost predicate AllAllowed(e: Expr) {
    forall sub :: Tree(sub) in Nodes(e) ==> Allowed(sub)
  }

  /** And a tree in which everything is allowed is accepted. */
  lemma {:induction false} AllowedIsAccepted(e: Expr)
    requires AllAllowed(e)
    ensures Whitelisted(e)
    decreases e, 0
  {
    assert Tree(e) in Nodes(e) && Allowed(e);
    match e
    case TupleOf(es) => ItemsAccepted(e, es);
    case ListOf(es) => ItemsAccepted(e, es);
    case Binary(l, _, r) => PartAccepted(e, l); PartAccepted(e, r);
    case Unary(_, x) => PartAccepted(e, x);
    case Boolean(_, h, es) => PartAccepted(e, h); ItemsAccepted(e, es);
    case Compare(l, _, es) => PartAccepted(e, l); ItemsAccepted(e, es);
    case IfExp(t, b, o) => PartAccepted(e, t); PartAccepted(e, b); PartAccepted(e, o);
    case Call(_, args, _) => ItemsAccepted(e, args);
    case _ =>
  }

  lemma PartAccepted(e: Expr, x: Expr)
    requires AllAllowed(e) && x < e && forall n :: n in Nodes(x) ==> n in Nodes(e)
    ensures Whitelisted(x)
    decreases x, 1
  {
    AllowedIsAccepted(x);
  }

  lemma ItemsAccepted(e: Expr, es: seq<Expr>)
    requires AllAllowed(e) && forall n :: n in NodesAll(es) ==> n in Nodes(e)
    ensures AllWhitelisted(es)
    decreases es, 1
  {
    forall i | 0 <= i < |es| ensures Whitelisted(es[i]) {
      ItemNodes(es, i);
      AllowedIsAccepted(es[i]);
    }
  }

  lemma {:induction false} ItemNodes(es: seq<Expr>, i: nat)
    requires i < |es|
    ensures forall n :: n in Nodes(es[i]) ==> n in NodesAll(es)
  {
    if i > 0 { ItemNodes(es[1..], i - 1); }
  }

  // ---------------------------------------------------------------- short circuits

  /** An operand that neither fails nor settles the operator. */
  ghost predicate Passes(py: Python, axes: Axes, op: BoolOp, e: Expr) {
    Meaning(py, axes, e).Ok? && !Settles(op, Meaning(py, axes, e).value)
  }

  /** Operand `k` decides a boolean operator: those before it pass, and it does not or is the last. */
  ghost predicate Decides(py: Python, axes: Axes, op: BoolOp, es: seq<Expr>, k: nat) {
    && k < |es| && (!Passes(py, axes, op, es[k]) || k == |es| - 1)
    && forall j :: 0 <= j < k ==> Passes(py, axes, op, es[j])
  }

  /** `and` and `or` have the value or the failure of their deciding operand, and no other operand can
      decide: what comes after it has no influence. */
  lemma {:induction false} BooleanMeaning(py: Python, axes: Axes, op: BoolOp, h: Expr, es: seq<Expr>) returns (k: nat)
    ensures Decides(py, axes, op, [h] + es, k)
    ensures Meaning(py, axes, Boolean(op, h, es)) == Meaning(py, axes, ([h] + es)[k])
    ensures forall j :: Decides(py, axes, op, [h] + es, j) ==> j == k
    decreases |es|
  {
    k := 0;
    if Passes(py, axes, op, h) && es != [] {
      var j := BooleanMeaning(py, axes, op, es[0], es[1..]);
      assert [es[0]] + es[1..] == es;
      k := j + 1;
      DecidesNext(py, axes, op, h, es, j);
      BooleanStep(py, axes, op, h, es);
    }
    DecidesOnce(py, axes, op, [h] + es, k);
  }

  lemma BooleanStep(py: Python, axes: Axes, op: BoolOp, h: Expr, es: seq<Expr>)
    requires es != [] && Passes(py, axes, op, h)
    ensures Meaning(py, axes, Boolean(op, h, es)) == Meaning(py, axes, Boolean(op, es[0], es[1..]))
  {
  }

  lemma DecidesNext(py: Python, axes: Axes, op: BoolOp, h: Expr, es: seq<Expr>, j: nat)
    requires Passes(py, axes, op, h) && Decides(py, axes, op, es, j)
    ensures Decides(py, axes, op, [h] + es, j + 1)
  {
    var all := [h] + es;
    assert all[j + 1] == es[j];
    forall i | 0 <= i < j + 1 ensures Passes(py, axes, op, all[i]) {
      assert i > 0 ==> all[i] == es[i - 1];
    }
  }

  lemma DecidesOnce(py: Python, axes: Axes, op: BoolOp, es: seq<Expr>, k: nat)
    requires Decides(py, axes, op, es, k)
    ensures forall j :: Decides(py, axes, op, es, j) ==> j == k
  {
  }

  /** Link `i` of a comparison chain: both operands have values and they compare. */
  ghost predicate LinkHolds(py: Python, axes: Axes, ops: seq<CompareOp>, es: seq<Expr>, i: nat)
    requires i < |ops| && i + 1 < |es|
  {
    var a, b := Meaning(py, axes, es[i]), Meaning(py, axes, es[i + 1]);
    a.Ok? && b.Ok? && ops[i] != OtherCompare && py.compare(ops[i], a.value, b.value) == Ok(true)
  }

  /** A chain is true if and only if its first operand has a value and every link holds. */
  lemma {:induction false} ChainTrueIff(py: Python, axes: Axes, first: Expr, ops: seq<CompareOp>, es: seq<Expr>)
    requires |ops| == |es|
    ensures Meaning(py, axes, Compare(first, ops, es)) == Ok(Bool(true)) <==>
            Meaning(py, axes, first).Ok? && forall i :: 0 <= i < |ops| ==> LinkHolds(py, axes, ops, [first] + es, i)
    decreases |es|
  {
    assert Meaning(py, axes, Compare(first, ops, es)) == ChainFrom(py, axes, Meaning(py, axes, first), ops, es);
    if es == [] && Meaning(py, axes, first).Ok? {
      assert Chain(py, axes, Meaning(py, axes, first).value, ops, es) == Ok(Bool(true));
    }
    if es != [] && Meaning(py, axes, first).Ok? {
      assert ([first] + es)[0] == first && ([first] + es)[1] == es[0];
      ChainTrueIff(py, axes, es[0], ops[1..], es[1..]);
      ChainStep(py, axes, Meaning(py, axes, first).value, ops, es);
      assert [es[0]] + es[1..] == es;
      forall i | 0 <= i < |ops| - 1
        ensures LinkHolds(py, axes, ops, [first] + es, i + 1) == LinkHolds(py, axes, ops[1..], es, i)
      {
        assert ([first] + es)[i + 1] == es[i] && ([first] + es)[i + 2] == es[i + 1];
      }
      if LinkHolds(py, axes, ops, [first] + es, 0) {
        LinksShift(py, axes, first, ops, es);
      }
    }
  }

  /** One link of a chain, and the rest of it as a chain of its own. */
  lemma ChainStep(py: Python, axes: Axes, left: Value, ops: seq<CompareOp>, es: seq<Expr>)
    requires |ops| == |es| > 0
    ensures Chain(py, axes, left, ops, es) == Ok(Bool(true)) <==>
            && Meaning(py, axes, es[0]).Ok? && ops[0] != OtherCompare
            && py.compare(ops[0], left, Meaning(py, axes, es[0]).value) == Ok(true)
            && Meaning(py, axes, Compare(es[0], ops[1..], es[1..])) == Ok(Bool(true))
  {
    var right := Meaning(py, axes, es[0]);
    assert Meaning(py, axes, Compare(es[0], ops[1..], es[1..])) == ChainFrom(py, axes, right, ops[1..], es[1..]);
  }

  lemma LinksShift(py: Python, axes: Axes, first: Expr, ops: seq<CompareOp>, es: seq<Expr>)
    requires |ops| == |es| > 0 && LinkHolds(py, axes, ops, [first] + es, 0)
    requires forall i :: 0 <= i < |ops| - 1 ==>
               LinkHolds(py, axes, ops, [first] + es, i + 1) == LinkHolds(py, axes, ops[1..], es, i)
    ensures (forall i :: 0 <= i < |ops| ==> LinkHolds(py, axes, ops, [first] + es, i)) <==>
            (forall i :: 0 <= i < |ops| - 1 ==> LinkHolds(py, axes, ops[1..], es, i))
  {
    if forall i :: 0 <= i < |ops| - 1 ==> LinkHolds(py, axes, ops[1..], es, i) {
      forall i | 0 <= i < |ops| ensures LinkHolds(py, axes, ops, [first] + es, i) {
        if i > 0 { assert LinkHolds(py, axes, ops[1..], es, i - 1); }
      }
    }
    if forall i :: 0 <= i < |ops| ==> LinkHolds(py, axes, ops, [first] + es, i) {
      forall i | 0 <= i < |ops| - 1 ensures LinkHolds(py, axes, ops[1..], es, i) {
        assert LinkHolds(py, axes, ops, [first] + es, i + 1);
      }
    }
  }

  // ---------------------------------------------------------------- the whole evaluation

  predicate AxisName(identifier: string -> bool, name: string) { identifier(name) && !Dunder(name) }

  /** The interpreter's entry: the body of a parsed expression. What it returns is the one result that the
      evaluation rules allow. */
  method InterpretTree(py: Python, axes: Axes, e: Expr) returns (r: Outcome)
    ensures forall o :: Evaluates(py, axes, e, o) <==> o == r
    ensures r == Meaning(py, axes, e)
  {
    r := InterpretExpression(py, axes, e);
    forall o ensures Evaluates(py, axes, e, o) <==> o == r {
      EvaluatesIff(py, axes, e, o);
    }
  }

  /** The text and the axes pass the tests made before parsing. */
  ghost predicate InputOk(identifier: string -> bool, length: nat, axes: Axes) {
    && 0 < length <= 1024 && AxesOk(axes)
    && forall id :: id in axes ==> identifier(id) && !("__" <= id)
  }

  /** The tree passes those made after it. */
  ghost predicate TreeOk(tree: Option<Expr>) {
    tree.Some? && |Nodes(tree.value)| + 1 <= 128 && Whitelisted(tree.value)
  }

  /** The tests on a tree: its size, and every node of the walk. */
  method WalkTree(e: Expr) returns (ok: bool)
    ensures ok <==> |Nodes(e)| + 1 <= MAX_NODES && Whitelisted(e)
  {
    var nodes := Nodes(e);
    if |nodes| + 1 > MAX_NODES {
      return false;
    }
    WalkIsWhitelist(e);
    for i := 0 to |nodes|
      invariant forall j :: 0 <= j < i ==> NodeOk(nodes[j])
    {
      if !NodeOk(nodes[i]) {
        return false;
      }
    }
    return true;
  }

  /** Evaluating a derived value. `tree` is what parsing the text gave. A value is returned exactly when the rules
      give one; every failure is a rejection, but for an exception of Python that nobody catches. */
  method EvalDerived(py: Python, identifier: string -> bool, length: nat, tree: Option<Expr>, axes: Axes)
    returns (r: Outcome)
    ensures Sound(r)
    ensures forall v :: r == Ok(v) <==>
                        InputOk(identifier, length, axes) && TreeOk(tree) && Evaluates(py, axes, tree.value, Ok(v))
    ensures r.Err? && r.error != Rejected <==>
            InputOk(identifier, length, axes) && TreeOk(tree) && Evaluates(py, axes, tree.value, Err(Raised(false)))
    ensures r.Err? && r.error != Rejected ==> r == Err(Raised(false))
  {
    if length == 0 || length > MAX_LENGTH {
      return Err(Rejected);
    }
    if !(forall id :: id in axes ==> AxisName(identifier, id)) {
      return Err(Rejected);
    }
    if !(forall id :: id in axes ==> Validate(axes[id]).Ok?) {
      return Err(Rejected);
    }
    if tree.None? {
      return Err(Rejected);
    }
    var accepted := WalkTree(tree.value);
    if !accepted {
      return Err(Rejected);
    }
    WhitelistIsSound(py, axes, tree.value);
    r := InterpretTree(py, axes, tree.value);
    if r.Ok? {
      r := Validate(r.value);
    } else if r.error == Raised(true) {
      r := Err(Rejected);
    }
  }
}
