/**
 The condition trees of rules and their evaluator (src/rule_engine/mod.rs).

 `Eval` follows the source branch by branch: it stops at the first child that
 decides the answer, and it panics (`None`) when it meets a leaf without a
 right-hand side whose label is present. `Holds` says what a condition means,
 with quantifiers instead of an evaluation order.
 */
module RuleEngine {
  import opened Common

  datatype LeafOperator = Eq

  datatype Value = Str(s: string)

  datatype Condition =
    | And(conds: seq<Condition>)
    | Or(conds: seq<Condition>)
    | Not(cond: Condition)
    | Leaf(lhs: string, op: LeafOperator, rhs: Option<Value>)

  type MatchContext = map<string, Value>

  function Eval(c: Condition, ctx: MatchContext): Option<bool>
    decreases c, 1
  {
    match c
    case And(conds) => EvalAnd(conds, ctx)
    case Or(conds) => EvalOr(conds, ctx)
    case Not(cond) => (match Eval(cond, ctx) case Some(b) => Some(!b) case None => None)
    case Leaf(lhs, Eq, rhs) =>
      if lhs !in ctx then Some(false)
      else if rhs.None? then None
      else Some(ctx[lhs] == rhs.value)
  }

  function EvalAnd(conds: seq<Condition>, ctx: MatchContext): Option<bool>
    decreases conds, 0
  {
    if conds == [] then Some(true)
    else match Eval(conds[0], ctx)
      case Some(true) => EvalAnd(conds[1..], ctx)
      case early => early
  }

  function EvalOr(conds: seq<Condition>, ctx: MatchContext): Option<bool>
    decreases conds, 0
  {
    if conds == [] then Some(false)
    else match Eval(conds[0], ctx)
      case Some(false) => EvalOr(conds[1..], ctx)
      case early => early
  }

  /** What a condition says about a client's labels. */
  ghost predicate Holds(c: Condition, ctx: MatchContext) {
    match c
    case And(conds) => forall d | d in conds :: Holds(d, ctx)
    case Or(conds) => exists d | d in conds :: Holds(d, ctx)
    case Not(cond) => !Holds(cond, ctx)
    case Leaf(lhs, _, rhs) => lhs in ctx && rhs.Some? && ctx[lhs] == rhs.value
  }

  /** Every leaf has a right-hand side. */
  ghost predicate Binary(c: Condition) {
    match c
    case And(conds) => forall d | d in conds :: Binary(d)
    case Or(conds) => forall d | d in conds :: Binary(d)
    case Not(cond) => Binary(cond)
    case Leaf(_, _, rhs) => rhs.Some?
  }

  lemma {:induction false} EvalDecides(c: Condition, ctx: MatchContext)
    requires Binary(c)
    ensures Eval(c, ctx) == Some(Holds(c, ctx))
    decreases c, 1
  {
    match c
    case And(conds) => EvalAndDecides(conds, ctx);
    case Or(conds) => EvalOrDecides(conds, ctx);
    case Not(cond) => EvalDecides(cond, ctx);
    case Leaf(_, _, _) =>
  }

  lemma {:induction false} EvalAndDecides(conds: seq<Condition>, ctx: MatchContext)
    requires forall d | d in conds :: Binary(d)
    ensures EvalAnd(conds, ctx) == Some(forall d | d in conds :: Holds(d, ctx))
    decreases conds, 0
  {
    if conds != [] {
      EvalDecides(conds[0], ctx);
      EvalAndDecides(conds[1..], ctx);
      assert forall d :: d in conds <==> d == conds[0] || d in conds[1..];
    }
  }

  lemma {:induction false} EvalOrDecides(conds: seq<Condition>, ctx: MatchContext)
    requires forall d | d in conds :: Binary(d)
    ensures EvalOr(conds, ctx) == Some(exists d | d in conds :: Holds(d, ctx))
    decreases conds, 0
  {
    if conds != [] {
      EvalDecides(conds[0], ctx);
      EvalOrDecides(conds[1..], ctx);
      assert forall d :: d in conds <==> d == conds[0] || d in conds[1..];
    }
  }

  // Flattening: an `And` below an `And`, or an `Or` below an `Or`, gives its
  // children to its parent.

  datatype Op = AndOp | OrOp

  function Splice(op: Op, c: Condition): seq<Condition> {
    match (op, c)
    case (AndOp, And(conds)) => conds
    case (OrOp, Or(conds)) => conds
    case _ => [c]
  }

  function Flatten(c: Condition): Condition
    decreases c, 1
  {
    match c
    case And(conds) => And(FlattenChildren(AndOp, conds))
    case Or(conds) => Or(FlattenChildren(OrOp, conds))
    case Not(cond) => Not(Flatten(cond))
    case Leaf(_, _, _) => c
  }

  function FlattenChildren(op: Op, conds: seq<Condition>): seq<Condition>
    decreases conds, 0
  {
    if conds == [] then []
    else Splice(op, Flatten(conds[0])) + FlattenChildren(op, conds[1..])
  }

  /** No `And` directly below an `And`, no `Or` directly below an `Or`. */
  ghost predicate IsFlat(c: Condition) {
    match c
    case And(conds) => forall d | d in conds :: !d.And? && IsFlat(d)
    case Or(conds) => forall d | d in conds :: !d.Or? && IsFlat(d)
    case Not(cond) => IsFlat(cond)
    case Leaf(_, _, _) => true
  }

  lemma {:induction false} EvalAndAppend(a: seq<Condition>, b: seq<Condition>, ctx: MatchContext)
    ensures EvalAnd(a + b, ctx)
         == if EvalAnd(a, ctx) == Some(true) then EvalAnd(b, ctx) else EvalAnd(a, ctx)
  {
    if a == [] {
      assert a + b == b;
    } else {
      assert (a + b)[1..] == a[1..] + b;
      EvalAndAppend(a[1..], b, ctx);
    }
  }

  lemma {:induction false} EvalOrAppend(a: seq<Condition>, b: seq<Condition>, ctx: MatchContext)
    ensures EvalOr(a + b, ctx)
         == if EvalOr(a, ctx) == Some(false) then EvalOr(b, ctx) else EvalOr(a, ctx)
  {
    if a == [] {
      assert a + b == b;
    } else {
      assert (a + b)[1..] == a[1..] + b;
      EvalOrAppend(a[1..], b, ctx);
    }
  }

  /** Flattening changes nothing an evaluation can show, not even a panic. */
  lemma {:induction false} FlattenKeepsEval(c: Condition, ctx: MatchContext)
    ensures Eval(Flatten(c), ctx) == Eval(c, ctx)
    decreases c, 1
  {
    match c
    case And(conds) => FlattenChildrenKeepEval(AndOp, conds, ctx);
    case Or(conds) => FlattenChildrenKeepEval(OrOp, conds, ctx);
    case Not(cond) => FlattenKeepsEval(cond, ctx);
    case Leaf(_, _, _) =>
  }

  lemma {:induction false} FlattenChildrenKeepEval(op: Op, conds: seq<Condition>, ctx: MatchContext)
    ensures op == AndOp ==> EvalAnd(FlattenChildren(op, conds), ctx) == EvalAnd(conds, ctx)
    ensures op == OrOp ==> EvalOr(FlattenChildren(op, conds), ctx) == EvalOr(conds, ctx)
    decreases conds, 0
  {
    if conds != [] {
      FlattenKeepsEval(conds[0], ctx);
      FlattenChildrenKeepEval(op, conds[1..], ctx);
      var head, tail := Splice(op, Flatten(conds[0])), FlattenChildren(op, conds[1..]);
      EvalAndAppend(head, tail, ctx);
      EvalOrAppend(head, tail, ctx);
    }
  }

  lemma {:induction false} FlattenIsFlat(c: Condition)
    ensures IsFlat(Flatten(c))
    decreases c, 1
  {
    match c
    case And(conds) => FlattenChildrenAreFlat(AndOp, conds);
    case Or(conds) => FlattenChildrenAreFlat(OrOp, conds);
    case Not(cond) => FlattenIsFlat(cond);
    case Leaf(_, _, _) =>
  }

  lemma {:induction false} FlattenChildrenAreFlat(op: Op, conds: seq<Condition>)
    ensures forall d | d in FlattenChildren(op, conds) ::
      IsFlat(d) && (op == AndOp ==> !d.And?) && (op == OrOp ==> !d.Or?)
    decreases conds, 0
  {
    if conds != [] {
      FlattenIsFlat(conds[0]);
      FlattenChildrenAreFlat(op, conds[1..]);
    }
  }

  /** Flattening is the identity on exactly the flat trees. */
  lemma {:induction false} FlattenFixesFlat(c: Condition)
    ensures Flatten(c) == c <==> IsFlat(c)
    decreases c, 1
  {
    FlattenIsFlat(c);
    if IsFlat(c) {
      match c
      case And(conds) => FlattenChildrenFixFlat(AndOp, conds);
      case Or(conds) => FlattenChildrenFixFlat(OrOp, conds);
      case Not(cond) => FlattenFixesFlat(cond);
      case Leaf(_, _, _) =>
    }
  }

  lemma {:induction false} FlattenChildrenFixFlat(op: Op, conds: seq<Condition>)
    requires forall d | d in conds ::
      IsFlat(d) && (op == AndOp ==> !d.And?) && (op == OrOp ==> !d.Or?)
    ensures FlattenChildren(op, conds) == conds
    decreases conds, 0
  {
    if conds != [] {
      FlattenFixesFlat(conds[0]);
      FlattenChildrenFixFlat(op, conds[1..]);
    }
  }
}
