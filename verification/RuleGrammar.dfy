/**
 The grammar of rule texts, from the priority table at the head of
 src/parser/rule.rs, as trees of phrases: `||` binds weaker than `&&`, `&&`
 weaker than `!`, and `!` stands before a leaf or a parenthesis. Any spaces may
 stand between two tokens. A phrase carries its spaces, so `Then` gives its text
 and `Tree` the condition it stands for.

 The parser accepts exactly the texts of the grammar, each as what it derives.
 */
module RuleGrammar {
  import opened Common
  import opened RuleEngine
  import opened RuleLexer
  import opened RuleParser

  datatype AtomPhrase =
    | LeafPhrase(ident: string, beforeOp: string, afterOp: string, lit: Literal, after: string)
    | ParenPhrase(open: string, inner: OrPhrase, close: string)
  {
    ghost predicate Valid() {
      match this
      case LeafPhrase(ident, w1, w2, lit, w3) =>
        ValidIdentifier(ident) && lit.Valid() && Spaces(w1) && Spaces(w2) && Spaces(w3)
      case ParenPhrase(w1, inner, w2) => inner.Valid() && Spaces(w1) && Spaces(w2)
    }

    /** The text of this phrase followed by `k`. */
    function Then(k: string): string {
      match this
      case LeafPhrase(ident, w1, w2, lit, w3) =>
        ident + (w1 + ("==" + (w2 + (lit.Then(w3 + k)))))
      case ParenPhrase(w1, inner, w2) => "(" + (w1 + inner.Then(")" + (w2 + k)))
    }

    ghost function Tree(): Condition
      requires Valid()
    {
      match this
      case LeafPhrase(ident, _, _, lit, _) => Leaf(ident, Eq, Some(Str(lit.Value())))
      case ParenPhrase(_, inner, _) => inner.Tree()
    }
  }

  datatype NotPhrase = Bare(atom: AtomPhrase) | Bang(space: string, atom: AtomPhrase)
  {
    ghost predicate Valid() { atom.Valid() && (Bang? ==> Spaces(space)) }

    function Then(k: string): string {
      match this
      case Bare(atom) => atom.Then(k)
      case Bang(w, atom) => "!" + (w + atom.Then(k))
    }

    ghost function Tree(): Condition
      requires Valid()
    {
      if Bare? then atom.Tree() else Not(atom.Tree())
    }
  }

  datatype AndPhrase = OneAnd(first: NotPhrase) | MoreAnd(first: NotPhrase, space: string, more: AndPhrase)
  {
    ghost predicate Valid() { first.Valid() && (MoreAnd? ==> Spaces(space) && more.Valid()) }

    function Then(k: string): string {
      match this
      case OneAnd(first) => first.Then(k)
      case MoreAnd(first, w, more) => first.Then("&&" + (w + more.Then(k)))
    }

    ghost function Trees(): (ts: seq<Condition>)
      requires Valid()
      ensures |ts| >= 1 && (MoreAnd? ==> |ts| >= 2)
      decreases this, 0
    {
      [first.Tree()] + if OneAnd? then [] else more.Trees()
    }

    ghost function Tree(): Condition
      requires Valid()
      decreases this, 1
    {
      if OneAnd? then first.Tree() else And(Trees())
    }
  }

  datatype OrPhrase = OneOr(first: AndPhrase) | MoreOr(first: AndPhrase, space: string, more: OrPhrase)
  {
    ghost predicate Valid() { first.Valid() && (MoreOr? ==> Spaces(space) && more.Valid()) }

    function Then(k: string): string {
      match this
      case OneOr(first) => first.Then(k)
      case MoreOr(first, w, more) => first.Then("||" + (w + more.Then(k)))
    }

    ghost function Trees(): (ts: seq<Condition>)
      requires Valid()
      ensures |ts| >= 1 && (MoreOr? ==> |ts| >= 2)
      decreases this, 0
    {
      [first.Tree()] + if OneOr? then [] else more.Trees()
    }

    ghost function Tree(): Condition
      requires Valid()
      decreases this, 1
    {
      if OneOr? then first.Tree() else Or(Trees())
    }
  }

  /** The text consists of spaces and the phrase `p`, which stands for `c`. */
  ghost predicate Derives(w: string, p: OrPhrase, text: string, c: Condition) {
    Spaces(w) && p.Valid() && text == w + p.Then("") && p.Tree() == c
  }

  ghost predicate Derivable(text: string, c: Condition) {
    exists w, p :: Derives(w, p, text, c)
  }

  // Every phrase is read back.

  lemma NothingSkipped(i: string)
    requires NoSpaceAhead(i)
    ensures SkipSpace(i) == i
  {
  }

  lemma WsTagReads(tag: string, w1: string, w2: string, k: string)
    requires tag != "" && !IsSpace(tag[0]) && Spaces(w1) && Spaces(w2) && NoSpaceAhead(k)
    ensures WsTag(tag, w1 + (tag + (w2 + k))) == Done(k, tag)
  {
    var j := tag + (w2 + k);
    SkipSpaces(w1, j);
    assert j[|tag|..] == w2 + k;
    SkipSpaces(w2, k);
  }

  lemma AtomStarts(a: AtomPhrase, k: string)
    requires a.Valid()
    ensures NoSpaceAhead(a.Then(k)) && !("!" <= a.Then(k))
  {
    if a.LeafPhrase? {
      assert a.Then(k)[0] == a.ident[0];
    }
  }

  /** No phrase starts with a space. */
  lemma AndStarts(p: AndPhrase, k: string)
    requires p.Valid()
    ensures NoSpaceAhead(p.Then(k))
  {
    var tail := if p.OneAnd? then k else "&&" + (p.space + p.more.Then(k));
    assert p.Then(k) == p.first.Then(tail);
    if p.first.Bare? {
      AtomStarts(p.first.atom, tail);
    }
  }

  lemma IdentifierPartReads(a: AtomPhrase, w: string, i3: string)
    requires a.LeafPhrase? && a.Valid() && Spaces(w) && i3 != "" && i3[0] == '='
    ensures Identifier(SkipSpace(w + (a.ident + (a.beforeOp + i3)))) == Done(a.beforeOp + i3, a.ident)
    ensures SkipSpace(a.beforeOp + i3) == i3
  {
    var i2 := a.beforeOp + i3;
    assert (a.ident + i2)[0] == a.ident[0];
    SkipSpaces(w, a.ident + i2);
    assert i2[0] == if a.beforeOp == "" then '=' else a.beforeOp[0];
    IdentifierReads(a.ident, i2);
    SkipSpaces(a.beforeOp, i3);
  }

  lemma OperatorPartReads(a: AtomPhrase, i4: string)
    requires a.LeafPhrase? && a.Valid() && i4 != "" && i4[0] == '"'
    ensures WsTag("==", "==" + (a.afterOp + i4)) == Done(i4, "==")
    ensures SkipSpace(i4) == i4
  {
    var i3 := "==" + (a.afterOp + i4);
    WsTagReads("==", "", a.afterOp, i4);
    assert "" + i3 == i3;
  }

  lemma LeafReads(a: AtomPhrase, w: string, k: string)
    requires a.LeafPhrase? && a.Valid() && Spaces(w) && NoSpaceAhead(k)
    ensures LeafExpr(w + a.Then(k)) == Done(k, a.Tree())
  {
    var i5 := a.after + k;
    var i4 := a.lit.Then(i5);
    IdentifierPartReads(a, w, "==" + (a.afterOp + i4));
    OperatorPartReads(a, i4);
    LiteralReads(a.lit, i5);
    SkipSpaces(a.after, k);
  }

  lemma ParenIsNoLeaf(w: string, k: string)
    requires Spaces(w)
    ensures LeafExpr(w + ("(" + k)).Fail?
  {
    SkipSpaces(w, "(" + k);
  }

  lemma {:induction false} AtomReads(a: AtomPhrase, w: string, k: string)
    requires a.Valid() && Spaces(w) && NoSpaceAhead(k)
    ensures LeafExprOrParen(w + a.Then(k)) == Done(k, a.Tree())
    decreases a, 1
  {
    if a.LeafPhrase? {
      LeafReads(a, w, k);
    } else {
      ParenIsNoLeaf(w, a.open + a.inner.Then(")" + (a.close + k)));
      ParenReads(a, w, k);
    }
  }

  lemma {:induction false} ParenReads(a: AtomPhrase, w: string, k: string)
    requires a.ParenPhrase? && a.Valid() && Spaces(w) && NoSpaceAhead(k)
    ensures Parenthesised(w + a.Then(k)) == Done(k, a.Tree())
    decreases a, 0
  {
    var close := ")" + (a.close + k);
    var body := a.inner.Then(close);
    OrStarts(a.inner, close);
    WsTagReads("(", w, a.open, body);
    OrReads(a.inner, "", close);
    assert "" + body == body && "" + close == close;
    WsTagReads(")", "", a.close, k);
  }

  lemma OrStarts(p: OrPhrase, k: string)
    requires p.Valid()
    ensures NoSpaceAhead(p.Then(k))
  {
    AndStarts(p.first, if p.OneOr? then k else "||" + (p.space + p.more.Then(k)));
  }

  lemma ExprNotBare(i: string)
    requires !("!" <= i)
    ensures ExprNot(i) == LeafExprOrParen(i)
  {
    assert Negated(i).Fail?;
  }

  lemma ExprNotBang(i: string)
    requires LeafExprOrParen(i).Done?
    ensures ExprNot("!" + i) == Done(LeafExprOrParen(i).rest, Not(LeafExprOrParen(i).value))
  {
    assert ("!" + i)[1..] == i;
    assert Negated("!" + i).Done?;
  }

  lemma {:induction false} NotReads(u: NotPhrase, w: string, k: string)
    requires u.Valid() && Spaces(w) && NoSpaceAhead(k)
    ensures WsExprNot(w + u.Then(k)) == Done(k, u.Tree())
    decreases u
  {
    var i := u.Then(k);
    AndStarts(OneAnd(u), k);
    SkipSpaces(w, i);
    NothingSkipped(k);
    if u.Bare? {
      AtomStarts(u.atom, k);
      ExprNotBare(i);
      AtomReads(u.atom, "", k);
      assert "" + i == i;
    } else {
      AtomReads(u.atom, u.space, k);
      ExprNotBang(u.space + u.atom.Then(k));
    }
  }

  lemma {:induction false} AndTailReads(p: AndPhrase, w: string, k: string)
    requires p.Valid() && Spaces(w) && NoSpaceAhead(k) && !("&&" <= k)
    ensures AndTail("&&" + (w + p.Then(k))) == (k, p.Trees())
    decreases p, 1
  {
    AndStarts(p, k);
    var i := "&&" + (w + p.Then(k));
    assert "" + i == i;
    WsTagReads("&&", "", w, p.Then(k));
    AndReadsParts(p, "", k);
    assert "" + p.Then(k) == p.Then(k);
  }

  /** The first operand and the repetition, read one after the other. */
  lemma {:induction false} AndReadsParts(p: AndPhrase, w: string, k: string)
    requires p.Valid() && Spaces(w) && NoSpaceAhead(k) && !("&&" <= k)
    ensures var r := WsExprNot(w + p.Then(k));
      r.Done? && r.value == p.first.Tree() && AndTail(r.rest) == (k, p.Trees()[1..])
    decreases p, 0
  {
    match p
    case OneAnd(u) =>
      NotReads(u, w, k);
      SkipSpaces("", k);
      assert "" + k == k;
    case MoreAnd(u, w1, more) =>
      NotReads(u, w, "&&" + (w1 + more.Then(k)));
      AndTailReads(more, w1, k);
  }

  lemma {:induction false} AndReads(p: AndPhrase, w: string, k: string)
    requires p.Valid() && Spaces(w) && NoSpaceAhead(k) && !("&&" <= k)
    ensures WsExprAnd(w + p.Then(k)) == Done(k, p.Tree())
    decreases p, 1
  {
    AndStarts(p, k);
    SkipSpaces(w, p.Then(k));
    AndReadsParts(p, "", k);
    assert "" + p.Then(k) == p.Then(k);
    SkipSpaces("", k);
    assert "" + k == k;
  }

  /** What may follow a whole expression: the end, or anything that no
      operator or space starts. */
  predicate EndsExpr(k: string) { NoSpaceAhead(k) && !("&&" <= k) && !("||" <= k) }

  lemma {:induction false} OrTailReads(p: OrPhrase, w: string, k: string)
    requires p.Valid() && Spaces(w) && EndsExpr(k)
    ensures OrTail("||" + (w + p.Then(k))) == (k, p.Trees())
    decreases p, 1
  {
    OrStarts(p, k);
    var i := "||" + (w + p.Then(k));
    assert "" + i == i;
    WsTagReads("||", "", w, p.Then(k));
    OrReadsParts(p, "", k);
    assert "" + p.Then(k) == p.Then(k);
  }

  lemma {:induction false} OrReadsParts(p: OrPhrase, w: string, k: string)
    requires p.Valid() && Spaces(w) && EndsExpr(k)
    ensures var r := WsExprAnd(w + p.Then(k));
      r.Done? && r.value == p.first.Tree() && OrTail(r.rest) == (k, p.Trees()[1..])
    decreases p, 0
  {
    match p
    case OneOr(a) =>
      AndReads(a, w, k);
      SkipSpaces("", k);
      assert "" + k == k;
    case MoreOr(a, w1, more) =>
      AndReads(a, w, "||" + (w1 + more.Then(k)));
      OrTailReads(more, w1, k);
  }

  lemma {:induction false} OrReads(p: OrPhrase, w: string, k: string)
    requires p.Valid() && Spaces(w) && EndsExpr(k)
    ensures ExprOr(w + p.Then(k)) == Done(k, p.Tree())
    decreases p, 1
  {
    OrReadsParts(p, w, k);
  }

  // Everything that is read is a phrase.

  lemma WsTagSound(tag: string, i: string) returns (w1: string, w2: string)
    requires tag != "" && WsTag(tag, i).Done?
    ensures Spaces(w1) && Spaces(w2) && NoSpaceAhead(WsTag(tag, i).rest)
    ensures i == w1 + (tag + (w2 + WsTag(tag, i).rest))
  {
    w1 := SkippedSpaces(i);
    var j := SkipSpace(i);
    w2 := SkippedSpaces(j[|tag|..]);
    assert j == tag + j[|tag|..];
  }

  lemma NoLeadingSpaces(w: string, k: string)
    requires Spaces(w)
    ensures w == "" || !NoSpaceAhead(w + k)
    ensures w == "" ==> w + k == k
  {
  }

  lemma LeafSound(i: string) returns (w: string, a: AtomPhrase)
    requires LeafExpr(i).Done?
    ensures Spaces(w) && a.Valid() && NoSpaceAhead(LeafExpr(i).rest)
    ensures i == w + a.Then(LeafExpr(i).rest) && a.Tree() == LeafExpr(i).value
  {
    w := SkippedSpaces(i);
    var i0 := SkipSpace(i);
    IdentifierSound(i0);
    var ident, i1 := Identifier(i0).value, Identifier(i0).rest;
    var w1 := SkippedSpaces(i1);
    NothingSkipped(SkipSpace(i1));
    var w1', w2 := WsTagSound("==", SkipSpace(i1));
    NoLeadingSpaces(w1', "==" + (w2 + WsTag("==", SkipSpace(i1)).rest));
    var i2 := WsTag("==", SkipSpace(i1)).rest;
    NothingSkipped(i2);
    var lit := LiteralSound(i2);
    var i3 := RhsLiteral(i2).rest;
    var w3 := SkippedSpaces(i3);
    a := LeafPhrase(ident, w1, w2, lit, w3);
    assert SkipSpace(i1) == "==" + (w2 + i2);
  }

  lemma {:induction false} AtomSound(i: string) returns (w: string, a: AtomPhrase)
    requires LeafExprOrParen(i).Done?
    ensures var r := LeafExprOrParen(i);
      Spaces(w) && a.Valid() && NoSpaceAhead(r.rest) && i == w + a.Then(r.rest) && a.Tree() == r.value
    decreases |i|, 1
  {
    if LeafExpr(i).Done? {
      w, a := LeafSound(i);
    } else {
      var w0, w1 := WsTagSound("(", i);
      var i1 := WsTag("(", i).rest;
      var wi, inner := OrSound(i1);
      NoLeadingSpaces(wi, inner.Then(ExprOr(i1).rest));
      assert i1 == inner.Then(ExprOr(i1).rest);
      var i2 := ExprOr(i1).rest;
      var w2, w3 := WsTagSound(")", i2);
      NoLeadingSpaces(w2, ")" + (w3 + WsTag(")", i2).rest));
      w, a := w0, ParenPhrase(w1, inner, w3);
      assert i2 == ")" + (w3 + WsTag(")", i2).rest);
    }
  }

  lemma {:induction false} NotSound(i: string) returns (w: string, u: NotPhrase)
    requires WsExprNot(i).Done?
    ensures var r := WsExprNot(i);
      Spaces(w) && u.Valid() && NoSpaceAhead(r.rest) && i == w + u.Then(r.rest) && u.Tree() == r.value
    decreases |i|, 3
  {
    w := SkippedSpaces(i);
    var j := SkipSpace(i);
    var rest := ExprNot(j).rest;
    if Negated(j).Done? {
      var w1, a := AtomSound(j[1..]);
      u := Bang(w1, a);
      assert j == "!" + j[1..];
    } else {
      var w1, a := AtomSound(j);
      NoLeadingSpaces(w1, a.Then(rest));
      u := Bare(a);
      assert j == a.Then(rest);
    }
    NothingSkipped(rest);
  }

  /** A repetition of `&&` after the phrase `u`. */
  lemma {:induction false} AndTailSound(u: NotPhrase, i: string) returns (p: AndPhrase)
    requires u.Valid() && NoSpaceAhead(i)
    ensures var (rest, more) := AndTail(i);
      && p.Valid() && NoSpaceAhead(rest) && p.Then(rest) == u.Then(i)
      && p.Trees() == [u.Tree()] + more && p.first.Tree() == u.Tree() && (p.OneAnd? <==> more == [])
    decreases |i|, 0
  {
    var tag := WsTag("&&", i);
    if tag.Done? && WsExprNot(tag.rest).Done? {
      var w0, w1 := WsTagSound("&&", i);
      var w2, u2 := NotSound(tag.rest);
      var i2 := WsExprNot(tag.rest).rest;
      NoLeadingSpaces(w0, "&&" + (w1 + tag.rest));
      NoLeadingSpaces(w2, u2.Then(i2));
      var more := AndTailSound(u2, i2);
      p := MoreAnd(u, w1, more);
      assert tag.rest == u2.Then(i2);
      assert i == "&&" + (w1 + tag.rest);
    } else {
      p := OneAnd(u);
    }
  }

  lemma {:induction false} AndSound(i: string) returns (w: string, p: AndPhrase)
    requires WsExprAnd(i).Done?
    ensures var r := WsExprAnd(i);
      Spaces(w) && p.Valid() && NoSpaceAhead(r.rest) && i == w + p.Then(r.rest) && p.Tree() == r.value
    decreases |i|, 5
  {
    w := SkippedSpaces(i);
    var j := SkipSpace(i);
    var w1, u := NotSound(j);
    var i1 := WsExprNot(j).rest;
    NoLeadingSpaces(w1, u.Then(i1));
    p := AndTailSound(u, i1);
    assert j == u.Then(i1);
    NothingSkipped(AndTail(i1).0);
  }

  /** A repetition of `||` after the phrase `a`. */
  lemma {:induction false} OrTailSound(a: AndPhrase, i: string) returns (p: OrPhrase)
    requires a.Valid() && NoSpaceAhead(i)
    ensures var (rest, more) := OrTail(i);
      && p.Valid() && NoSpaceAhead(rest) && p.Then(rest) == a.Then(i)
      && p.Trees() == [a.Tree()] + more && p.first.Tree() == a.Tree() && (p.OneOr? <==> more == [])
    decreases |i|, 0
  {
    var tag := WsTag("||", i);
    if tag.Done? && WsExprAnd(tag.rest).Done? {
      var w0, w1 := WsTagSound("||", i);
      var w2, a2 := AndSound(tag.rest);
      var i2 := WsExprAnd(tag.rest).rest;
      NoLeadingSpaces(w0, "||" + (w1 + tag.rest));
      NoLeadingSpaces(w2, a2.Then(i2));
      var more := OrTailSound(a2, i2);
      p := MoreOr(a, w1, more);
      assert tag.rest == a2.Then(i2);
      assert i == "||" + (w1 + tag.rest);
    } else {
      p := OneOr(a);
    }
  }

  lemma {:induction false} OrSound(i: string) returns (w: string, p: OrPhrase)
    requires ExprOr(i).Done?
    ensures var r := ExprOr(i);
      Spaces(w) && p.Valid() && NoSpaceAhead(r.rest) && i == w + p.Then(r.rest) && p.Tree() == r.value
    decreases |i|, 6
  {
    var a;
    w, a := AndSound(i);
    p := OrTailSound(a, WsExprAnd(i).rest);
  }

  // The main result.

  /** The parser reads a text as `c` if and only if the grammar derives it so. */
  lemma ParserIsGrammar(text: string, c: Condition)
    ensures ParseRule(text) == Some(c) <==> Derivable(text, c)
  {
    if ParseRule(text) == Some(c) {
      var w, p := OrSound(text);
      assert Derives(w, p, text, c);
    }
    if Derivable(text, c) {
      var w, p :| Derives(w, p, text, c);
      OrReads(p, w, "");
    }
  }
}
