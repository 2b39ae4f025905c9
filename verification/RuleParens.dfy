/**
 The minimal print of a condition has the fewest parentheses: no text of the
 grammar that says the same, up to nesting of one operator, has fewer.
 */
module RuleParens {
  import opened RuleEngine
  import opened RuleGrammar
  import opened RulePrinter

  // How many parentheses a phrase has

  function AtomParens(a: AtomPhrase): nat { if a.LeafPhrase? then 0 else 1 + OrParens(a.inner) }

  function AndParens(p: AndPhrase): nat { AtomParens(p.first.atom) + if p.OneAnd? then 0 else AndParens(p.more) }

  function OrParens(p: OrPhrase): nat { AndParens(p.first) + if p.OneOr? then 0 else OrParens(p.more) }

  // How many a condition needs

  /** The priority of a condition's operator: the higher, the weaker it binds. */
  function Rank(c: Condition): nat {
    match c case Leaf(_, _, _) => 0 case Not(_) => 1 case And(_) => 2 case Or(_) => 3
  }

  /** The parentheses that a condition needs inside. */
  function Inside(c: Condition): nat
    decreases c, 0
  {
    match c
    case Leaf(_, _, _) => 0
    case Not(cond) => Need(0, cond)
    case And(conds) => NeedAll(1, conds)
    case Or(conds) => NeedAll(2, conds)
  }

  /** The parentheses that a condition needs where operators up to a rank may stand bare. */
  function Need(rank: nat, c: Condition): nat
    decreases c, 1
  {
    Inside(c) + if Rank(c) > rank then 1 else 0
  }

  function NeedAll(rank: nat, conds: seq<Condition>): nat
    decreases conds, 0
  {
    if conds == [] then 0 else Need(rank, conds[0]) + NeedAll(rank, conds[1..])
  }

  lemma {:induction false} NeedAllAppend(rank: nat, a: seq<Condition>, b: seq<Condition>)
    ensures NeedAll(rank, a + b) == NeedAll(rank, a) + NeedAll(rank, b)
  {
    if a == [] {
      assert a + b == b;
    } else {
      assert (a + b)[1..] == a[1..] + b;
      NeedAllAppend(rank, a[1..], b);
    }
  }

  // No phrase has fewer

  lemma {:induction false} AtomHasEnough(a: AtomPhrase)
    requires a.Valid()
    ensures AtomParens(a) >= Need(0, a.Tree())
  {
    if a.ParenPhrase? {
      OrHasEnough(a.inner);
    }
  }

  lemma NotHasEnough(u: NotPhrase)
    requires u.Valid()
    ensures AtomParens(u.atom) >= Need(1, u.Tree())
  {
    AtomHasEnough(u.atom);
  }

  lemma {:induction false} AndHasEnough(p: AndPhrase)
    requires p.Valid()
    ensures AndParens(p) >= NeedAll(1, p.Trees()) && AndParens(p) >= Need(2, p.Tree())
  {
    NotHasEnough(p.first);
    if p.OneAnd? {
      assert p.Trees() == [p.first.Tree()];
    } else {
      AndHasEnough(p.more);
      assert p.Trees()[1..] == p.more.Trees();
    }
  }

  lemma {:induction false} OrHasEnough(p: OrPhrase)
    requires p.Valid()
    ensures OrParens(p) >= NeedAll(2, p.Trees()) && OrParens(p) >= Need(3, p.Tree())
  {
    AndHasEnough(p.first);
    if p.OneOr? {
      assert p.Trees() == [p.first.Tree()];
    } else {
      OrHasEnough(p.more);
      assert p.Trees()[1..] == p.more.Trees();
    }
  }

  // Flattening needs no more

  lemma {:induction false} FlattenNeeds(c: Condition)
    ensures Rank(Flatten(c)) == Rank(c) && Inside(Flatten(c)) <= Inside(c)
    decreases c, 1
  {
    match c
    case Leaf(_, _, _) =>
    case Not(cond) => FlattenNeeds(cond);
    case And(conds) => FlattenChildrenNeed(AndOp, conds);
    case Or(conds) => FlattenChildrenNeed(OrOp, conds);
  }

  lemma {:induction false} FlattenChildrenNeed(op: Op, conds: seq<Condition>)
    ensures var rank := if op == AndOp then 1 else 2; NeedAll(rank, FlattenChildren(op, conds)) <= NeedAll(rank, conds)
    decreases conds, 0
  {
    if conds != [] {
      var rank := if op == AndOp then 1 else 2;
      var head := Splice(op, Flatten(conds[0]));
      FlattenNeeds(conds[0]);
      FlattenChildrenNeed(op, conds[1..]);
      FirstChildNeeds(op, rank, conds);
      assert head == [Flatten(conds[0])] ==> head[1..] == [];
    }
  }

  lemma FirstChildNeeds(op: Op, rank: nat, conds: seq<Condition>)
    requires conds != []
    ensures NeedAll(rank, FlattenChildren(op, conds)) == NeedAll(rank, Splice(op, Flatten(conds[0])))
      + if |conds| == 1 then 0 else NeedAll(rank, FlattenChildren(op, conds[1..]))
  {
    NeedAllAppend(rank, Splice(op, Flatten(conds[0])), FlattenChildren(op, conds[1..]));
  }

  // The minimal print has just what is needed

  lemma {:induction false} AppendAndParens(p: AndPhrase, w: string, q: AndPhrase)
    ensures AndParens(AppendAnd(p, w, q)) == AndParens(p) + AndParens(q)
  {
    if p.MoreAnd? {
      AppendAndParens(p.more, w, q);
    }
  }

  lemma {:induction false} AppendOrParens(p: OrPhrase, w: string, q: OrPhrase)
    ensures OrParens(AppendOr(p, w, q)) == OrParens(p) + OrParens(q)
  {
    if p.MoreOr? {
      AppendOrParens(p.more, w, q);
    }
  }

  lemma {:induction false} LayAtomTight(sp: Spacing, c: Condition, n: nat)
    requires OnlySpaces(sp) && Shaped(c)
    ensures AtomParens(LayAtom(Minimal, sp, c, n).0) == Need(0, Flatten(c))
    decreases c, Steps(0, c)
  {
    if !c.Leaf? {
      LayOrTight(sp, c, n + 1);
    }
  }

  lemma {:induction false} LayNotTight(sp: Spacing, c: Condition, n: nat)
    requires OnlySpaces(sp) && Shaped(c)
    ensures AtomParens(LayNot(Minimal, sp, c, n).0.atom) == Need(1, Flatten(c))
    decreases c, Steps(1, c)
  {
    if c.Not? {
      LayAtomTight(sp, c.cond, n + 1);
    } else {
      LayAtomTight(sp, c, n);
    }
  }

  lemma {:induction false} LayAndTight(sp: Spacing, c: Condition, n: nat)
    requires OnlySpaces(sp) && Shaped(c)
    ensures AndParens(LayAnd(Minimal, sp, c, n).0) == Need(2, Flatten(c))
    decreases c, Steps(2, c)
  {
    if c.And? {
      LayAndsTight(sp, c.conds, n);
    } else {
      LayNotTight(sp, c, n);
    }
  }

  lemma {:induction false} LayAndHeadTight(sp: Spacing, c: Condition, n: nat)
    requires OnlySpaces(sp) && Shaped(c)
    ensures AndParens(LayAndHead(Minimal, sp, c, n).0) == NeedAll(1, Splice(AndOp, Flatten(c)))
    decreases c, 4
  {
    if c.And? {
      LayAndTight(sp, c, n);
    } else {
      LayNotTight(sp, c, n);
      assert Splice(AndOp, Flatten(c)) == [Flatten(c)];
    }
  }

  lemma LayAndsUnfold(sp: Spacing, conds: seq<Condition>, n: nat)
    requires OnlySpaces(sp) && |conds| > 1 && forall d | d in conds :: Shaped(d)
    ensures var (head, m) := LayAndHead(Minimal, sp, conds[0], n);
      LayAnds(Minimal, sp, conds, n).0 == AppendAnd(head, sp(m), LayAnds(Minimal, sp, conds[1..], m + 1).0)
  {
  }

  lemma {:induction false} LayAndsTight(sp: Spacing, conds: seq<Condition>, n: nat)
    requires OnlySpaces(sp) && conds != [] && forall d | d in conds :: Shaped(d)
    ensures AndParens(LayAnds(Minimal, sp, conds, n).0) == NeedAll(1, FlattenChildren(AndOp, conds))
    decreases conds, 4
  {
    var (head, m) := LayAndHead(Minimal, sp, conds[0], n);
    LayAndHeadTight(sp, conds[0], n);
    FirstChildNeeds(AndOp, 1, conds);
    if |conds| > 1 {
      LayAndsUnfold(sp, conds, n);
      LayAndsTight(sp, conds[1..], m + 1);
      AppendAndParens(head, sp(m), LayAnds(Minimal, sp, conds[1..], m + 1).0);
    }
  }

  lemma {:induction false} LayOrTight(sp: Spacing, c: Condition, n: nat)
    requires OnlySpaces(sp) && Shaped(c)
    ensures OrParens(LayOr(Minimal, sp, c, n).0) == Need(3, Flatten(c))
    decreases c, Steps(3, c)
  {
    if c.Or? {
      LayOrsTight(sp, c.conds, n);
    } else {
      LayAndTight(sp, c, n);
    }
  }

  lemma {:induction false} LayOrHeadTight(sp: Spacing, c: Condition, n: nat)
    requires OnlySpaces(sp) && Shaped(c)
    ensures OrParens(LayOrHead(Minimal, sp, c, n).0) == NeedAll(2, Splice(OrOp, Flatten(c)))
    decreases c, 4
  {
    if c.Or? {
      LayOrTight(sp, c, n);
    } else {
      LayAndTight(sp, c, n);
      assert Splice(OrOp, Flatten(c)) == [Flatten(c)];
    }
  }

  lemma LayOrsUnfold(sp: Spacing, conds: seq<Condition>, n: nat)
    requires OnlySpaces(sp) && |conds| > 1 && forall d | d in conds :: Shaped(d)
    ensures var (head, m) := LayOrHead(Minimal, sp, conds[0], n);
      LayOrs(Minimal, sp, conds, n).0 == AppendOr(head, sp(m), LayOrs(Minimal, sp, conds[1..], m + 1).0)
  {
  }

  lemma {:induction false} LayOrsTight(sp: Spacing, conds: seq<Condition>, n: nat)
    requires OnlySpaces(sp) && conds != [] && forall d | d in conds :: Shaped(d)
    ensures OrParens(LayOrs(Minimal, sp, conds, n).0) == NeedAll(2, FlattenChildren(OrOp, conds))
    decreases conds, 4
  {
    var (head, m) := LayOrHead(Minimal, sp, conds[0], n);
    LayOrHeadTight(sp, conds[0], n);
    FirstChildNeeds(OrOp, 2, conds);
    if |conds| > 1 {
      LayOrsUnfold(sp, conds, n);
      LayOrsTight(sp, conds[1..], m + 1);
      AppendOrParens(head, sp(m), LayOrs(Minimal, sp, conds[1..], m + 1).0);
    }
  }

  /** No phrase for a condition that is the same when flattened has fewer
      parentheses than the minimal print. */
  lemma MinimalIsMinimal(sp: Spacing, c: Condition, q: OrPhrase)
    requires OnlySpaces(sp) && Shaped(c) && q.Valid() && Flatten(q.Tree()) == Flatten(c)
    ensures OrParens(LayOr(Minimal, sp, c, 1).0) <= OrParens(q)
  {
    LayOrTight(sp, c, 1);
    FlattenNeeds(q.Tree());
    OrHasEnough(q);
  }
}
