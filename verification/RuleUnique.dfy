/**
 The grammar of rule texts is unambiguous: a text has one derivation at most, down
 to its spaces and the items of its literals. Each lemma says that two phrases with
 the same text, whatever may follow them, are one phrase and are followed by the same.
 */
module RuleUnique {
  import opened Common
  import opened RuleEngine
  import opened RuleLexer
  import opened RuleGrammar

  lemma SpacesCancel(w: string, k: string, v: string, j: string)
    requires Spaces(w) && Spaces(v) && NoSpaceAhead(k) && NoSpaceAhead(j) && w + k == v + j
    ensures w == v && k == j
  {
    SkipSpaces(w, k);
    SkipSpaces(v, j);
    assert w == (w + k)[..|w|] && v == (v + j)[..|v|];
  }

  lemma ItemCancel(x: Item, y: Item, m: string, n: string)
    requires x.Valid() && y.Valid() && x.Text() + m == y.Text() + n
    ensures x == y && m == n
  {
    var i, l := x.Text() + m, |x.Text()|;
    assert i[0] == x.Text()[0] == y.Text()[0];
    if !x.Plain? {
      assert i[1] == x.Text()[1] == y.Text()[1];
    }
    assert |x.Text()| == |y.Text()|;
    assert x.Text() == i[..l] == y.Text() && m == i[l..] == n;
    if x.Hex? {
      assert x.digits == x.Text()[2..] && y.digits == y.Text()[2..];
    }
  }

  lemma {:induction false} ItemsCancel(a: seq<Item>, b: seq<Item>, k: string, j: string)
    requires ValidItems(a) && ValidItems(b) && ItemsText(a) + ("\"" + k) == ItemsText(b) + ("\"" + j)
    ensures a == b && k == j
  {
    NoItemIsQuote(a, k);
    NoItemIsQuote(b, j);
    if a == [] {
      TagCancel("\"", k, j);
    } else {
      FirstItemStands(a, "\"" + k);
      FirstItemStands(b, "\"" + j);
      ItemCancel(a[0], b[0], ItemsText(a[1..]) + ("\"" + k), ItemsText(b[1..]) + ("\"" + j));
      ItemsCancel(a[1..], b[1..], k, j);
      assert [a[0]] + a[1..] == a && [b[0]] + b[1..] == b;
    }
  }

  lemma FirstItemStands(items: seq<Item>, k: string)
    requires items != []
    ensures ItemsText(items) + k == items[0].Text() + (ItemsText(items[1..]) + k)
  {
  }

  /** The closing quote comes first only where there are no items. */
  lemma NoItemIsQuote(items: seq<Item>, k: string)
    requires ValidItems(items)
    ensures (ItemsText(items) + ("\"" + k))[0] == '"' <==> items == []
    ensures items == [] ==> ItemsText(items) + ("\"" + k) == "\"" + k
  {
    if items != [] {
      assert (ItemsText(items) + ("\"" + k))[0] == items[0].Text()[0];
    }
  }

  lemma LiteralCancel(a: Literal, b: Literal, k: string, j: string)
    requires a.Valid() && b.Valid() && a.Then(k) == b.Then(j)
    ensures a == b && k == j
  {
    var x, y := if a.Empty? then [] else a.items, if b.Empty? then [] else b.items;
    NoItemIsQuote(x, k);
    NoItemIsQuote(y, j);
    assert a.Then(k) == "\"" + (ItemsText(x) + ("\"" + k));
    assert b.Then(j) == "\"" + (ItemsText(y) + ("\"" + j));
    assert a.Then(k)[1..] == ItemsText(x) + ("\"" + k) && b.Then(j)[1..] == ItemsText(y) + ("\"" + j);
    ItemsCancel(x, y, k, j);
  }

  lemma TagCancel(tag: string, k: string, j: string)
    requires tag + k == tag + j
    ensures k == j
  {
    assert k == (tag + k)[|tag|..] && j == (tag + j)[|tag|..];
  }

  lemma IdentifierCancel(a: AtomPhrase, b: AtomPhrase, k: string, j: string)
    requires a.LeafPhrase? && b.LeafPhrase? && a.Valid() && b.Valid()
    requires k != "" && k[0] == '=' && j != "" && j[0] == '='
    requires a.ident + (a.beforeOp + k) == b.ident + (b.beforeOp + j)
    ensures a.ident == b.ident && a.beforeOp + k == b.beforeOp + j
  {
    assert (a.beforeOp + k)[0] == if a.beforeOp == "" then '=' else a.beforeOp[0];
    assert (b.beforeOp + j)[0] == if b.beforeOp == "" then '=' else b.beforeOp[0];
    IdentifierReads(a.ident, a.beforeOp + k);
    IdentifierReads(b.ident, b.beforeOp + j);
  }

  lemma LeafCancel(a: AtomPhrase, b: AtomPhrase, k: string, j: string)
    requires a.LeafPhrase? && b.LeafPhrase? && a.Valid() && b.Valid() && NoSpaceAhead(k) && NoSpaceAhead(j)
    requires a.Then(k) == b.Then(j)
    ensures a == b && k == j
  {
    var m, n := a.lit.Then(a.after + k), b.lit.Then(b.after + j);
    var a2, b2 := "==" + (a.afterOp + m), "==" + (b.afterOp + n);
    IdentifierCancel(a, b, a2, b2);
    SpacesCancel(a.beforeOp, a2, b.beforeOp, b2);
    TagCancel("==", a.afterOp + m, b.afterOp + n);
    SpacesCancel(a.afterOp, m, b.afterOp, n);
    LiteralCancel(a.lit, b.lit, a.after + k, b.after + j);
    SpacesCancel(a.after, k, b.after, j);
  }

  lemma {:induction false} AtomCancel(a: AtomPhrase, b: AtomPhrase, k: string, j: string)
    requires a.Valid() && b.Valid() && NoSpaceAhead(k) && NoSpaceAhead(j) && a.Then(k) == b.Then(j)
    ensures a == b && k == j
  {
    AtomKind(a, k);
    AtomKind(b, j);
    if a.LeafPhrase? {
      LeafCancel(a, b, k, j);
    } else {
      var m, n := ")" + (a.close + k), ")" + (b.close + j);
      OrStarts(a.inner, m);
      OrStarts(b.inner, n);
      TagCancel("(", a.open + a.inner.Then(m), b.open + b.inner.Then(n));
      SpacesCancel(a.open, a.inner.Then(m), b.open, b.inner.Then(n));
      OrCancel(a.inner, b.inner, m, n);
      TagCancel(")", a.close + k, b.close + j);
      SpacesCancel(a.close, k, b.close, j);
    }
  }

  /** The first character tells a parenthesis from a leaf. */
  lemma AtomKind(a: AtomPhrase, k: string)
    requires a.Valid()
    ensures a.Then(k) != "" && (a.Then(k)[0] == '(' <==> a.ParenPhrase?)
  {
    if a.LeafPhrase? {
      assert a.Then(k)[0] == a.ident[0];
    }
  }

  lemma {:induction false} NotCancel(u: NotPhrase, v: NotPhrase, k: string, j: string)
    requires u.Valid() && v.Valid() && NoSpaceAhead(k) && NoSpaceAhead(j) && u.Then(k) == v.Then(j)
    ensures u == v && k == j
  {
    AtomStarts(u.atom, k);
    AtomStarts(v.atom, j);
    assert u.Bang? ==> "!" <= u.Then(k);
    assert v.Bang? ==> "!" <= v.Then(j);
    if u.Bang? {
      TagCancel("!", u.space + u.atom.Then(k), v.space + v.atom.Then(j));
      SpacesCancel(u.space, u.atom.Then(k), v.space, v.atom.Then(j));
    }
    AtomCancel(u.atom, v.atom, k, j);
  }

  lemma {:induction false} AndCancel(p: AndPhrase, q: AndPhrase, k: string, j: string)
    requires p.Valid() && q.Valid() && NoSpaceAhead(k) && NoSpaceAhead(j) && p.Then(k) == q.Then(j)
    requires !("&&" <= k) && !("&&" <= j)
    ensures p == q && k == j
  {
    var m := if p.OneAnd? then k else "&&" + (p.space + p.more.Then(k));
    var n := if q.OneAnd? then j else "&&" + (q.space + q.more.Then(j));
    NotCancel(p.first, q.first, m, n);
    if p.MoreAnd? && q.MoreAnd? {
      AndStarts(p.more, k);
      AndStarts(q.more, j);
      TagCancel("&&", p.space + p.more.Then(k), q.space + q.more.Then(j));
      SpacesCancel(p.space, p.more.Then(k), q.space, q.more.Then(j));
      AndCancel(p.more, q.more, k, j);
    }
  }

  lemma {:induction false} OrCancel(p: OrPhrase, q: OrPhrase, k: string, j: string)
    requires p.Valid() && q.Valid() && EndsExpr(k) && EndsExpr(j) && p.Then(k) == q.Then(j)
    ensures p == q && k == j
  {
    var m := if p.OneOr? then k else "||" + (p.space + p.more.Then(k));
    var n := if q.OneOr? then j else "||" + (q.space + q.more.Then(j));
    AndCancel(p.first, q.first, m, n);
    if p.MoreOr? && q.MoreOr? {
      OrStarts(p.more, k);
      OrStarts(q.more, j);
      TagCancel("||", p.space + p.more.Then(k), q.space + q.more.Then(j));
      SpacesCancel(p.space, p.more.Then(k), q.space, q.more.Then(j));
      OrCancel(p.more, q.more, k, j);
    }
  }

  /** A text has at most one derivation. */
  lemma DerivationIsUnique(text: string, w: string, p: OrPhrase, c: Condition, v: string, q: OrPhrase, d: Condition)
    requires Derives(w, p, text, c) && Derives(v, q, text, d)
    ensures w == v && p == q && c == d
  {
    OrStarts(p, "");
    OrStarts(q, "");
    SpacesCancel(w, p.Then(""), v, q.Then(""));
    OrCancel(p, q, "", "");
  }

  /** And so at most one condition. */
  lemma GrammarIsUnambiguous(text: string, c: Condition, d: Condition)
    requires Derivable(text, c) && Derivable(text, d)
    ensures c == d
  {
    var w, p :| Derives(w, p, text, c);
    var v, q :| Derives(v, q, text, d);
    DerivationIsUnique(text, w, p, c, v, q, d);
  }
}
