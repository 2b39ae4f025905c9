/**
 How much the backtracking parser works: the parser of `RuleParser` once more, with
 a counter of how often `leaf_expr_or_paren` (src/parser/rule.rs) is entered. What
 failed alternatives and given-back repetitions have counted stays counted.
 */
module RuleBacktracking {
  import opened Common
  import opened RuleEngine
  import opened RuleLexer
  import opened RuleParser

  datatype Counted<+T> = Counted(calls: nat, result: T)

  function CountAtom(i: string): (r: Counted<Parse<Condition>>)
    ensures r.result == LeafExprOrParen(i)
    decreases |i|, 1
  {
    var leaf := LeafExpr(i);
    if leaf.Done? then Counted(1, leaf)
    else match WsTag("(", i)
      case Fail => Counted(1, Fail)
      case Done(i1, _) =>
        var Counted(n, inner) := CountOr(i1);
        match inner
        case Fail => Counted(1 + n, Fail)
        case Done(i2, c) =>
          match WsTag(")", i2)
          case Fail => Counted(1 + n, Fail)
          case Done(i3, _) => Counted(1 + n, Done(i3, c))
  }

  function CountNegated(i: string): (r: Counted<Parse<Condition>>)
    ensures r.result == Negated(i)
    decreases |i|, 0
  {
    if "!" <= i then
      var Counted(n, atom) := CountAtom(i[1..]);
      match atom
      case Fail => Counted(n, Fail)
      case Done(i1, c) => Counted(n, Done(i1, Not(c)))
    else Counted(0, Fail)
  }

  function CountNot(i: string): (r: Counted<Parse<Condition>>)
    ensures r.result == ExprNot(i)
    decreases |i|, 2
  {
    var Counted(m, negated) := CountNegated(i);
    if negated.Done? then Counted(m, negated)
    else
      var Counted(n, atom) := CountAtom(i);
      Counted(m + n, atom)
  }

  function CountWsNot(i: string): (r: Counted<Parse<Condition>>)
    ensures r.result == WsExprNot(i)
    decreases |i|, 3
  {
    var Counted(n, inner) := CountNot(SkipSpace(i));
    match inner
    case Fail => Counted(n, Fail)
    case Done(i1, c) => Counted(n, Done(SkipSpace(i1), c))
  }

  function CountAndTail(i: string): (r: Counted<(string, seq<Condition>)>)
    ensures r.result == AndTail(i)
    decreases |i|, 0
  {
    match WsTag("&&", i)
    case Fail => Counted(0, (i, []))
    case Done(i1, _) =>
      var Counted(m, operand) := CountWsNot(i1);
      match operand
      case Fail => Counted(m, (i, []))
      case Done(i2, c) =>
        var Counted(n, (rest, more)) := CountAndTail(i2);
        Counted(m + n, (rest, [c] + more))
  }

  function CountAnd(i: string): (r: Counted<Parse<Condition>>)
    ensures r.result == ExprAnd(i)
    decreases |i|, 4
  {
    var Counted(m, operand) := CountWsNot(i);
    match operand
    case Fail => Counted(m, Fail)
    case Done(i1, first) =>
      var Counted(n, (rest, more)) := CountAndTail(i1);
      Counted(m + n, Done(rest, if more == [] then first else And([first] + more)))
  }

  function CountWsAnd(i: string): (r: Counted<Parse<Condition>>)
    ensures r.result == WsExprAnd(i)
    decreases |i|, 5
  {
    var Counted(n, inner) := CountAnd(SkipSpace(i));
    match inner
    case Fail => Counted(n, Fail)
    case Done(i1, c) => Counted(n, Done(SkipSpace(i1), c))
  }

  function CountOrTail(i: string): (r: Counted<(string, seq<Condition>)>)
    ensures r.result == OrTail(i)
    decreases |i|, 0
  {
    match WsTag("||", i)
    case Fail => Counted(0, (i, []))
    case Done(i1, _) =>
      var Counted(m, operand) := CountWsAnd(i1);
      match operand
      case Fail => Counted(m, (i, []))
      case Done(i2, c) =>
        var Counted(n, (rest, more)) := CountOrTail(i2);
        Counted(m + n, (rest, [c] + more))
  }

  /** The whole parser with its counter; its result is the parser's. */
  function CountOr(i: string): (r: Counted<Parse<Condition>>)
    ensures r.result == ExprOr(i)
    decreases |i|, 6
  {
    var Counted(m, operand) := CountWsAnd(i);
    match operand
    case Fail => Counted(m, Fail)
    case Done(i1, first) =>
      var Counted(n, (rest, more)) := CountOrTail(i1);
      Counted(m + n, Done(rest, if more == [] then first else Or([first] + more)))
  }

  /** The parsers that run others, `many0`'s repetitions included. */
  datatype Parser = OrExpr | OrRepeat | AndExpr | AndRepeat | NotExpr | Operand

  /** A parser and the input it is run on. */
  type Call = (Parser, string)

  function Rank(p: Parser): nat {
    match p
    case OrExpr => 4
    case AndExpr => 3
    case NotExpr => 2
    case Operand => 1
    case _ => 0
  }

  predicate IsSmaller(c: Call, d: Call) { |c.1| < |d.1| || (|c.1| == |d.1| && Rank(c.0) < Rank(d.0)) }

  /** What a call runs itself: an alternative only once the one before it failed,
      and what stands later in a sequence only once the earlier was read. */
  function RunsOf(d: Call): (cs: seq<Call>)
    ensures forall c | c in cs :: IsSmaller(c, d)
  {
    var i := d.1;
    match d.0
    case OrExpr => Chained((AndExpr, SkipSpace(i)), WsExprAnd(i), OrRepeat)
    case OrRepeat =>
      (match WsTag("||", i)
       case Fail => []
       case Done(i1, _) => Chained((AndExpr, SkipSpace(i1)), WsExprAnd(i1), OrRepeat))
    case AndExpr => Chained((NotExpr, SkipSpace(i)), WsExprNot(i), AndRepeat)
    case AndRepeat =>
      (match WsTag("&&", i)
       case Fail => []
       case Done(i1, _) => Chained((NotExpr, SkipSpace(i1)), WsExprNot(i1), AndRepeat))
    case NotExpr =>
      (if "!" <= i then [(Operand, i[1..])] else []) + if Negated(i).Fail? then [(Operand, i)] else []
    case Operand =>
      if LeafExpr(i).Fail? && WsTag("(", i).Done? then [(OrExpr, WsTag("(", i).rest)] else []
  }

  /** A first call and, when it read something, the repetition after it. */
  function Chained(first: Call, read: Parse<Condition>, next: Parser): seq<Call> {
    [first] + if read.Done? then [(next, read.rest)] else []
  }

  /** How many calls of `leaf_expr_or_paren` a call comes to, itself included. */
  function Entries(d: Call): nat
    decreases |d.1|, Rank(d.0), 1, 0
  {
    (if d.0.Operand? then 1 else 0) + EntriesOfAll(d, RunsOf(d))
  }

  function EntriesOfAll(d: Call, cs: seq<Call>): nat
    requires forall c | c in cs :: IsSmaller(c, d)
    decreases |d.1|, Rank(d.0), 0, |cs|
  {
    if cs == [] then 0
    else
      assert IsSmaller(cs[0], d);
      Entries(cs[0]) + EntriesOfAll(d, cs[1..])
  }

  lemma EntriesOfOne(d: Call, b: seq<Call>)
    requires |b| <= 1 && forall c | c in b :: IsSmaller(c, d)
    ensures EntriesOfAll(d, b) == if b == [] then 0 else Entries(b[0])
  {
    if b != [] {
      assert b[1..] == [];
    }
  }

  lemma EntriesOfFew(d: Call, a: seq<Call>, b: seq<Call>)
    requires |a| <= 1 && |b| <= 1 && forall c | c in a + b :: IsSmaller(c, d)
    ensures EntriesOfAll(d, a + b)
      == (if a == [] then 0 else Entries(a[0])) + if b == [] then 0 else Entries(b[0])
  {
    EntriesOfOne(d, b);
    if a == [] {
      assert a + b == b;
    } else {
      assert (a + b)[0] == a[0] && (a + b)[1..] == b;
    }
  }

  lemma ChainedEntries(d: Call, first: Call, read: Parse<Condition>, next: Parser)
    requires IsSmaller(first, d) && (read.Done? ==> IsSmaller((next, read.rest), d))
    requires !d.0.Operand? && RunsOf(d) == Chained(first, read, next)
    ensures Entries(d) == Entries(first) + if read.Done? then Entries((next, read.rest)) else 0
  {
    EntriesOfFew(d, [first], if read.Done? then [(next, read.rest)] else []);
  }

  lemma {:induction false} OrIsEntries(i: string)
    ensures CountOr(i).calls == Entries((OrExpr, i))
    decreases |i|, 6
  {
    var j, operand := SkipSpace(i), WsExprAnd(i);
    AndIsEntries(j);
    if operand.Done? {
      OrTailIsEntries(operand.rest);
    }
    ChainedEntries((OrExpr, i), (AndExpr, j), operand, OrRepeat);
  }

  lemma {:induction false} OrTailIsEntries(i: string)
    ensures CountOrTail(i).calls == Entries((OrRepeat, i))
    decreases |i|, 0
  {
    var tag := WsTag("||", i);
    if tag.Done? {
      var j, operand := SkipSpace(tag.rest), WsExprAnd(tag.rest);
      AndIsEntries(j);
      if operand.Done? {
        OrTailIsEntries(operand.rest);
      }
      ChainedEntries((OrRepeat, i), (AndExpr, j), operand, OrRepeat);
    }
  }

  lemma {:induction false} AndIsEntries(i: string)
    ensures CountAnd(i).calls == Entries((AndExpr, i))
    decreases |i|, 4
  {
    var j, operand := SkipSpace(i), WsExprNot(i);
    NotIsEntries(j);
    if operand.Done? {
      AndTailIsEntries(operand.rest);
    }
    ChainedEntries((AndExpr, i), (NotExpr, j), operand, AndRepeat);
  }

  lemma {:induction false} AndTailIsEntries(i: string)
    ensures CountAndTail(i).calls == Entries((AndRepeat, i))
    decreases |i|, 0
  {
    var tag := WsTag("&&", i);
    if tag.Done? {
      var j, operand := SkipSpace(tag.rest), WsExprNot(tag.rest);
      NotIsEntries(j);
      if operand.Done? {
        AndTailIsEntries(operand.rest);
      }
      ChainedEntries((AndRepeat, i), (NotExpr, j), operand, AndRepeat);
    }
  }

  lemma NotEntries(i: string)
    ensures Entries((NotExpr, i)) == (if "!" <= i then Entries((Operand, i[1..])) else 0)
      + if Negated(i).Fail? then Entries((Operand, i)) else 0
  {
    var d: Call := (NotExpr, i);
    var bang: seq<Call> := if "!" <= i then [(Operand, i[1..])] else [];
    var bare: seq<Call> := if Negated(i).Fail? then [(Operand, i)] else [];
    assert RunsOf(d) == bang + bare;
    EntriesOfFew(d, bang, bare);
  }

  lemma {:induction false} NotIsEntries(i: string)
    ensures CountNot(i).calls == Entries((NotExpr, i))
    decreases |i|, 2
  {
    AtomIsEntries(i);
    if "!" <= i {
      AtomIsEntries(i[1..]);
    }
    NotEntries(i);
  }

  lemma {:induction false} AtomIsEntries(i: string)
    ensures CountAtom(i).calls == Entries((Operand, i))
    decreases |i|, 1
  {
    var runs := RunsOf((Operand, i));
    if runs != [] {
      OrIsEntries(runs[0].1);
      EntriesOfFew((Operand, i), [runs[0]], []);
      assert runs == [runs[0]] + [];
    }
  }

  /** The counter counts: what it says is how many calls of `leaf_expr_or_paren`
      the run of the whole parser comes to. */
  lemma CounterCounts(text: string)
    ensures CountOr(text).calls == Entries((OrExpr, text))
  {
    OrIsEntries(text);
  }

  /** The input left over starts with an operator whose operand was not there.
      No enclosing parser reads past it. */
  predicate Stuck(tag: string, i: string) { tag <= SkipSpace(i) }

  lemma StuckExcludes(tag: string, other: string, i: string)
    requires tag != "" && other != "" && tag[0] != other[0]
    ensures Stuck(tag, i) ==> WsTag(other, i).Fail?
  {
  }

  lemma {:induction false} AtomBound(i: string)
    ensures var r := LeafExprOrParen(i);
      if r.Done? then CountAtom(i).calls <= |i| - |r.rest| else CountAtom(i).calls <= |i| + 1
    decreases |i|, 1
  {
    if LeafExpr(i).Fail? && WsTag("(", i).Done? {
      var i1 := WsTag("(", i).rest;
      OrBound(i1);
      if ExprOr(i1).Done? {
        StuckExcludes("&&", ")", ExprOr(i1).rest);
        StuckExcludes("||", ")", ExprOr(i1).rest);
      }
    }
  }

  lemma {:induction false} NotBound(i: string)
    ensures var r := ExprNot(i);
      if r.Done? then CountNot(i).calls <= |i| - |r.rest| else CountNot(i).calls <= |i| + 1
    decreases |i|, 2
  {
    AtomBound(i);
    if "!" <= i {
      AtomBound(i[1..]);
      BangIsNoAtom(i);
    }
  }

  lemma BangIsNoAtom(i: string)
    requires "!" <= i
    ensures LeafExprOrParen(i).Fail? && CountAtom(i).calls == 1
  {
    assert SkipSpace(i) == i;
    assert LeafExpr(i).Fail?;
    assert WsTag("(", i).Fail?;
  }

  /** Either the calls are paid for by the text that was read, or the rest is
      stuck and all the text pays. */
  lemma {:induction false} AndTailBound(i: string)
    ensures var rest := AndTail(i).0;
      CountAndTail(i).calls <= |i| - |rest| || (CountAndTail(i).calls <= |i| && Stuck("&&", rest))
    decreases |i|, 0
  {
    var tag := WsTag("&&", i);
    if tag.Done? {
      TagLength("&&", i);
      NotBound(SkipSpace(tag.rest));
      var operand := WsExprNot(tag.rest);
      if operand.Done? {
        AndTailBound(operand.rest);
      }
    }
  }

  lemma TagLength(tag: string, i: string)
    requires tag != ""
    ensures WsTag(tag, i).Done? ==> |WsTag(tag, i).rest| + |tag| <= |i| && Stuck(tag, i)
  {
  }

  lemma {:induction false} AndBound(i: string)
    ensures var r := ExprAnd(i);
      if r.Fail? then CountAnd(i).calls <= |i| + 1
      else CountAnd(i).calls <= |i| - |r.rest| || (CountAnd(i).calls <= |i| && Stuck("&&", r.rest))
    decreases |i|, 4
  {
    NotBound(SkipSpace(i));
    if WsExprNot(i).Done? {
      AndTailBound(WsExprNot(i).rest);
    }
  }

  lemma {:induction false} OrTailBound(i: string)
    ensures var rest := OrTail(i).0;
      CountOrTail(i).calls <= |i| - |rest|
      || (CountOrTail(i).calls <= |i| && (Stuck("&&", rest) || Stuck("||", rest)))
    decreases |i|, 0
  {
    var tag := WsTag("||", i);
    if tag.Done? {
      TagLength("||", i);
      AndBound(SkipSpace(tag.rest));
      var operand := WsExprAnd(tag.rest);
      if operand.Done? {
        SkipIsIdempotent(ExprAnd(SkipSpace(tag.rest)).rest);
        StuckExcludes("&&", "||", operand.rest);
        OrTailBound(operand.rest);
      }
    }
  }

  lemma {:induction false} SkipIsIdempotent(i: string)
    ensures SkipSpace(SkipSpace(i)) == SkipSpace(i)
  {
    if i != "" && IsSpace(i[0]) {
      SkipIsIdempotent(i[1..]);
    }
  }

  lemma {:induction false} OrBound(i: string)
    ensures var r := ExprOr(i);
      if r.Fail? then CountOr(i).calls <= |i| + 1
      else (CountOr(i).calls <= |i| - |r.rest|
            || (CountOr(i).calls <= |i| && (Stuck("&&", r.rest) || Stuck("||", r.rest))))
    decreases |i|, 6
  {
    AndBound(SkipSpace(i));
    if WsExprAnd(i).Done? {
      var i1 := WsExprAnd(i).rest;
      SkipIsIdempotent(ExprAnd(SkipSpace(i)).rest);
      StuckExcludes("&&", "||", i1);
      OrTailBound(i1);
    }
  }

  /** Whatever the text, parsing it enters an operand at most once per character,
      and once more. */
  lemma LinearBacktracking(text: string)
    ensures CountOr(text).calls <= |text| + 1
  {
    OrBound(text);
  }

  function Opened(n: nat): (s: string)
    ensures |s| == n
  {
    if n == 0 then "" else "(" + Opened(n - 1)
  }

  /** The bound is met at every length. */
  lemma {:induction false} BoundIsMet(n: nat)
    ensures |Opened(n)| == n && CountOr(Opened(n)).calls == n + 1 && ExprOr(Opened(n)).Fail?
  {
    var i := Opened(n);
    assert SkipSpace(i) == i;
    if n > 0 {
      BoundIsMet(n - 1);
      var i1 := Opened(n - 1);
      assert i[1..] == i1;
      assert SkipSpace(i1) == i1;
      assert LeafExpr(i).Fail?;
      assert WsTag("(", i) == Done(i1, "(");
      assert !("!" <= i);
      assert CountAtom(i).calls == 1 + CountOr(i1).calls;
      assert LeafExprOrParen(i).Fail?;
      assert CountNot(i).calls == CountAtom(i).calls;
    } else {
      assert LeafExpr(i).Fail? && WsTag("(", i).Fail?;
      assert CountAtom(i).calls == 1;
      assert CountNot(i).calls == 1;
    }
    assert ExprNot(i).Fail? && WsExprNot(i).Fail? && ExprAnd(i).Fail? && WsExprAnd(i).Fail?;
    assert CountAnd(i).calls == CountNot(i).calls;
  }
}
