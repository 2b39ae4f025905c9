/**
 Printing conditions as rule texts, and the round trips through the parser.

 The exact style keeps every grouping of the tree in parentheses; the minimal
 style leaves out the parentheses that the priorities make unnecessary, also
 around an operand of the same operator. `sp` gives the spaces after each token.
 */
module RulePrinter {
  import opened Common
  import opened RuleEngine
  import opened RuleLexer
  import opened RuleParser
  import opened RuleGrammar

  datatype Style = Exact | Minimal

  type Spacing = nat -> string

  ghost predicate OnlySpaces(sp: Spacing) { forall n: nat :: Spaces(sp(n)) }

  /** The trees that parsing can give: operators with two operands or more,
      identifiers on the left and non-empty strings on the right. */
  ghost predicate Shaped(c: Condition) {
    match c
    case And(conds) => |conds| >= 2 && forall d | d in conds :: Shaped(d)
    case Or(conds) => |conds| >= 2 && forall d | d in conds :: Shaped(d)
    case Not(cond) => Shaped(cond)
    case Leaf(lhs, _, rhs) => ValidIdentifier(lhs) && rhs.Some? && rhs.value.s != ""
  }

  /** What is read back from a print of `c`. */
  function ReadBack(style: Style, c: Condition): Condition {
    if style == Exact then c else Flatten(c)
  }

  function AppendAnd(p: AndPhrase, w: string, q: AndPhrase): (r: AndPhrase)
    ensures r.MoreAnd?
    ensures p.Valid() && Spaces(w) && q.Valid() ==> r.Valid() && r.Trees() == p.Trees() + q.Trees()
  {
    match p
    case OneAnd(u) => MoreAnd(u, w, q)
    case MoreAnd(u, w1, more) =>
      assert p.Valid() && q.Valid() ==>
        [u.Tree()] + (more.Trees() + q.Trees()) == [u.Tree()] + more.Trees() + q.Trees();
      MoreAnd(u, w1, AppendAnd(more, w, q))
  }

  function AppendOr(p: OrPhrase, w: string, q: OrPhrase): (r: OrPhrase)
    ensures r.MoreOr?
    ensures p.Valid() && Spaces(w) && q.Valid() ==> r.Valid() && r.Trees() == p.Trees() + q.Trees()
  {
    match p
    case OneOr(a) => MoreOr(a, w, q)
    case MoreOr(a, w1, more) =>
      assert p.Valid() && q.Valid() ==>
        [a.Tree()] + (more.Trees() + q.Trees()) == [a.Tree()] + more.Trees() + q.Trees();
      MoreOr(a, w1, AppendOr(more, w, q))
  }

  /** The number of levels below which `c` is taken apart: `Or` at level 3,
      `And` at 2, `Not` at 1, a leaf at 0, and round again inside parentheses. */
  function Steps(level: nat, c: Condition): (n: nat)
    ensures n < 4
  {
    (level + 4 - match c case Or(_) => 3 case And(_) => 2 case Not(_) => 1 case Leaf(_, _, _) => 0) % 4
  }

  /** The operands that are read back from a print of `conds`. */
  function Operands(op: Op, style: Style, conds: seq<Condition>): seq<Condition> {
    if style == Exact then conds else FlattenChildren(op, conds)
  }

  function FirstOperands(op: Op, style: Style, c: Condition): seq<Condition> {
    if style == Exact then [c] else Splice(op, Flatten(c))
  }

  lemma TreesJoin(op: Op, style: Style, conds: seq<Condition>)
    requires conds != []
    ensures |conds| == 1 ==> Operands(op, style, conds) == FirstOperands(op, style, conds[0])
    ensures Operands(op, style, conds) == FirstOperands(op, style, conds[0]) + Operands(op, style, conds[1..])
  {
    assert conds == [conds[0]] + conds[1..];
    assert |conds| == 1 ==> FlattenChildren(op, conds[1..]) == [];
  }

  // Each of the following returns its phrase and the next unused index of `sp`.

  ghost function LayAtom(style: Style, sp: Spacing, c: Condition, n: nat): (r: (AtomPhrase, nat))
    requires OnlySpaces(sp) && Shaped(c)
    ensures r.0.Valid() && r.0.Tree() == ReadBack(style, c)
    decreases c, Steps(0, c)
  {
    if c.Leaf? then
      (LeafPhrase(c.lhs, sp(n), sp(n + 1), Quoted(EscapeString(c.rhs.value.s)), sp(n + 2)), n + 3)
    else
      var (inner, m) := LayOr(style, sp, c, n + 1);
      (ParenPhrase(sp(n), inner, sp(m)), m + 1)
  }

  ghost function LayNot(style: Style, sp: Spacing, c: Condition, n: nat): (r: (NotPhrase, nat))
    requires OnlySpaces(sp) && Shaped(c)
    ensures r.0.Valid() && r.0.Tree() == ReadBack(style, c)
    decreases c, Steps(1, c)
  {
    if c.Not? then
      var (atom, m) := LayAtom(style, sp, c.cond, n + 1);
      (Bang(sp(n), atom), m)
    else
      var (atom, m) := LayAtom(style, sp, c, n);
      (Bare(atom), m)
  }

  ghost function LayAnd(style: Style, sp: Spacing, c: Condition, n: nat): (r: (AndPhrase, nat))
    requires OnlySpaces(sp) && Shaped(c)
    ensures r.0.Valid() && r.0.Tree() == ReadBack(style, c) && (c.And? ==> r.0.MoreAnd?)
    decreases c, Steps(2, c)
  {
    if c.And? then LayAnds(style, sp, c.conds, n)
    else
      var (u, m) := LayNot(style, sp, c, n);
      (OneAnd(u), m)
  }

  /** An operand of `&&`, without parentheses around one of the same operator in the minimal style. */
  ghost function LayAndHead(style: Style, sp: Spacing, c: Condition, n: nat): (r: (AndPhrase, nat))
    requires OnlySpaces(sp) && Shaped(c)
    ensures r.0.Valid() && r.0.Trees() == FirstOperands(AndOp, style, c)
    decreases c, 4
  {
    if style == Minimal && c.And? then LayAnd(style, sp, c, n)
    else
      var (u, m) := LayNot(style, sp, c, n);
      (OneAnd(u), m)
  }

  ghost function LayAnds(style: Style, sp: Spacing, conds: seq<Condition>, n: nat): (r: (AndPhrase, nat))
    requires OnlySpaces(sp) && conds != [] && forall d | d in conds :: Shaped(d)
    ensures r.0.Valid() && (|conds| >= 2 ==> r.0.MoreAnd?)
    ensures r.0.Trees() == Operands(AndOp, style, conds)
    decreases conds, 4
  {
    var (head, m) := LayAndHead(style, sp, conds[0], n);
    TreesJoin(AndOp, style, conds);
    if |conds| == 1 then (head, m)
    else
      var (tail, k) := LayAnds(style, sp, conds[1..], m + 1);
      (AppendAnd(head, sp(m), tail), k)
  }

  ghost function LayOr(style: Style, sp: Spacing, c: Condition, n: nat): (r: (OrPhrase, nat))
    requires OnlySpaces(sp) && Shaped(c)
    ensures r.0.Valid() && r.0.Tree() == ReadBack(style, c) && (c.Or? ==> r.0.MoreOr?)
    decreases c, Steps(3, c)
  {
    if c.Or? then LayOrs(style, sp, c.conds, n)
    else
      var (a, m) := LayAnd(style, sp, c, n);
      (OneOr(a), m)
  }

  /** An operand of `||`, without parentheses around one of the same operator in the minimal style. */
  ghost function LayOrHead(style: Style, sp: Spacing, c: Condition, n: nat): (r: (OrPhrase, nat))
    requires OnlySpaces(sp) && Shaped(c)
    ensures r.0.Valid() && r.0.Trees() == FirstOperands(OrOp, style, c)
    decreases c, 4
  {
    if style == Minimal && c.Or? then LayOr(style, sp, c, n)
    else
      var (a, m) := LayAnd(style, sp, c, n);
      (OneOr(a), m)
  }

  ghost function LayOrs(style: Style, sp: Spacing, conds: seq<Condition>, n: nat): (r: (OrPhrase, nat))
    requires OnlySpaces(sp) && conds != [] && forall d | d in conds :: Shaped(d)
    ensures r.0.Valid() && (|conds| >= 2 ==> r.0.MoreOr?)
    ensures r.0.Trees() == Operands(OrOp, style, conds)
    decreases conds, 4
  {
    var (head, m) := LayOrHead(style, sp, conds[0], n);
    TreesJoin(OrOp, style, conds);
    if |conds| == 1 then (head, m)
    else
      var (tail, k) := LayOrs(style, sp, conds[1..], m + 1);
      (AppendOr(head, sp(m), tail), k)
  }

  ghost function Print(style: Style, sp: Spacing, c: Condition): string
    requires OnlySpaces(sp) && Shaped(c)
  {
    sp(0) + LayOr(style, sp, c, 1).0.Then("")
  }

  lemma PrintThenParse(style: Style, sp: Spacing, c: Condition)
    requires OnlySpaces(sp) && Shaped(c)
    ensures ParseRule(Print(style, sp, c)) == Some(ReadBack(style, c))
  {
    var p := LayOr(style, sp, c, 1).0;
    assert Derives(sp(0), p, Print(style, sp, c), p.Tree());
    ParserIsGrammar(Print(style, sp, c), p.Tree());
  }

  /** Whatever the spaces, an exact print is read back as the tree it was made from. */
  lemma ExactRoundTrip(sp: Spacing, c: Condition)
    requires OnlySpaces(sp) && Shaped(c)
    ensures ParseRule(Print(Exact, sp, c)) == Some(c)
  {
    PrintThenParse(Exact, sp, c);
  }

  /** A minimal print is read back flattened: as the same tree only when the tree
      is flat, and always as one that evaluates alike. */
  lemma MinimalRoundTrip(sp: Spacing, c: Condition, ctx: MatchContext)
    requires OnlySpaces(sp) && Shaped(c)
    ensures ParseRule(Print(Minimal, sp, c)).Some?
    ensures Eval(ParseRule(Print(Minimal, sp, c)).value, ctx) == Eval(c, ctx)
    ensures ParseRule(Print(Minimal, sp, c)) == Some(c) <==> IsFlat(c)
  {
    PrintThenParse(Minimal, sp, c);
    FlattenKeepsEval(c, ctx);
    FlattenFixesFlat(c);
  }

  lemma {:induction false} AtomIsShaped(a: AtomPhrase)
    requires a.Valid()
    ensures Shaped(a.Tree())
  {
    if a.ParenPhrase? {
      OrIsShaped(a.inner);
    }
  }

  lemma {:induction false} AndIsShaped(p: AndPhrase)
    requires p.Valid()
    ensures Shaped(p.Tree()) && forall d | d in p.Trees() :: Shaped(d)
  {
    AtomIsShaped(p.first.atom);
    assert Shaped(p.first.Tree());
    if p.MoreAnd? {
      AndIsShaped(p.more);
      assert p.Trees() == [p.first.Tree()] + p.more.Trees();
    }
  }

  lemma {:induction false} OrIsShaped(p: OrPhrase)
    requires p.Valid()
    ensures Shaped(p.Tree()) && forall d | d in p.Trees() :: Shaped(d)
  {
    AndIsShaped(p.first);
    if p.MoreOr? {
      OrIsShaped(p.more);
      assert p.Trees() == [p.first.Tree()] + p.more.Trees();
    }
  }

  /** The trees that some text denotes are exactly the shaped ones; no text
      denotes a comparison with the empty string. */
  lemma ParseableIsShaped(c: Condition)
    ensures (exists text :: ParseRule(text) == Some(c)) <==> Shaped(c)
  {
    if text :| ParseRule(text) == Some(c) {
      ParserIsGrammar(text, c);
      var w, p :| Derives(w, p, text, c);
      OrIsShaped(p);
    }
    if Shaped(c) {
      ExactRoundTrip(_ => "", c);
    }
  }

  lemma {:induction false} ShapedIsBinary(c: Condition)
    requires Shaped(c)
    ensures Binary(c)
  {
    match c
    case And(conds) => forall d | d in conds ensures Binary(d) { ShapedIsBinary(d); }
    case Or(conds) => forall d | d in conds ensures Binary(d) { ShapedIsBinary(d); }
    case Not(cond) => ShapedIsBinary(cond);
    case Leaf(_, _, _) =>
  }

  /** A parsed rule evaluates without a panic, to what it says. */
  lemma ParsedRulesEvaluate(text: string, ctx: MatchContext)
    requires ParseRule(text).Some?
    ensures Eval(ParseRule(text).value, ctx) == Some(Holds(ParseRule(text).value, ctx))
  {
    var c := ParseRule(text).value;
    ParseableIsShaped(c);
    ShapedIsBinary(c);
    EvalDecides(c, ctx);
  }

  /** The literal `""` denotes its two quotes. */
  lemma EmptyLiteralDenotesQuotes(lhs: string)
    requires ValidIdentifier(lhs)
    ensures ParseRule(lhs + "==\"\"") == Some(Leaf(lhs, Eq, Some(Str("\"\""))))
  {
    var a := LeafPhrase(lhs, "", "", Empty, "");
    var u := OneAnd(Bare(a));
    var p := OneOr(u);
    var text := lhs + "==\"\"";
    assert a.Valid() && u.Valid();
    assert p.Then("") == u.Then("") == a.Then("") == text;
    assert text == "" + p.Then("");
    assert u.Tree() == a.Tree();
    assert Derives("", p, text, p.Tree());
    ParserIsGrammar(text, p.Tree());
  }
}
