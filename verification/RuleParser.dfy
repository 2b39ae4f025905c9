/**
 The backtracking parser of rule texts (src/parser/rule.rs) and the check that
 nothing of a text is left over (src/model/rule.rs).

 Every function is the source's combinator expression of the same name, applied
 to the input and written out: an alternative is tried when the one before it
 fails, and a repetition that fails in the middle gives back what it had read.
 */
module RuleParser {
  import opened Common
  import opened RuleEngine
  import opened RuleLexer

  /** A tag with spaces on both sides. */
  function WsTag(tag: string, i: string): (r: Parse<string>)
    requires tag != ""
    ensures r.Done? ==> |r.rest| < |i|
  {
    var j := SkipSpace(i);
    if tag <= j then Done(SkipSpace(j[|tag|..]), tag) else Fail
  }

  function LeafExpr(i: string): (r: Parse<Condition>)
    ensures r.Done? ==> |r.rest| < |i|
  {
    match Identifier(SkipSpace(i))
    case Fail => Fail
    case Done(i1, ident) =>
      match WsTag("==", SkipSpace(i1))
      case Fail => Fail
      case Done(i2, _) =>
        match RhsLiteral(SkipSpace(i2))
        case Fail => Fail
        case Done(i3, v) => Done(SkipSpace(i3), Leaf(ident, Eq, Some(Str(v))))
  }

  function LeafExprOrParen(i: string): (r: Parse<Condition>)
    ensures r.Done? ==> |r.rest| < |i|
    decreases |i|, 1
  {
    var leaf := LeafExpr(i);
    if leaf.Done? then leaf else Parenthesised(i)
  }

  function Parenthesised(i: string): (r: Parse<Condition>)
    ensures r.Done? ==> |r.rest| < |i|
    decreases |i|, 0
  {
    match WsTag("(", i)
    case Fail => Fail
    case Done(i1, _) =>
      match ExprOr(i1)
      case Fail => Fail
      case Done(i2, c) =>
        match WsTag(")", i2)
        case Fail => Fail
        case Done(i3, _) => Done(i3, c)
  }

  function Negated(i: string): (r: Parse<Condition>)
    ensures r.Done? ==> |r.rest| < |i|
    decreases |i|, 0
  {
    if "!" <= i then
      match LeafExprOrParen(i[1..])
      case Fail => Fail
      case Done(i1, c) => Done(i1, Not(c))
    else Fail
  }

  function ExprNot(i: string): (r: Parse<Condition>)
    ensures r.Done? ==> |r.rest| < |i|
    decreases |i|, 2
  {
    var negated := Negated(i);
    if negated.Done? then negated else LeafExprOrParen(i)
  }

  function WsExprNot(i: string): (r: Parse<Condition>)
    ensures r.Done? ==> |r.rest| < |i|
    decreases |i|, 3
  {
    match ExprNot(SkipSpace(i))
    case Fail => Fail
    case Done(i1, c) => Done(SkipSpace(i1), c)
  }

  /** The operands read by the repetition of `&&`, and the rest of the input. */
  function AndTail(i: string): (r: (string, seq<Condition>))
    ensures |r.0| <= |i|
    decreases |i|, 0
  {
    match WsTag("&&", i)
    case Fail => (i, [])
    case Done(i1, _) =>
      match WsExprNot(i1)
      case Fail => (i, [])
      case Done(i2, c) => var (rest, more) := AndTail(i2); (rest, [c] + more)
  }

  function ExprAnd(i: string): (r: Parse<Condition>)
    ensures r.Done? ==> |r.rest| < |i|
    decreases |i|, 4
  {
    match WsExprNot(i)
    case Fail => Fail
    case Done(i1, first) =>
      var (rest, more) := AndTail(i1);
      Done(rest, if more == [] then first else And([first] + more))
  }

  function WsExprAnd(i: string): (r: Parse<Condition>)
    ensures r.Done? ==> |r.rest| < |i|
    decreases |i|, 5
  {
    match ExprAnd(SkipSpace(i))
    case Fail => Fail
    case Done(i1, c) => Done(SkipSpace(i1), c)
  }

  /** The operands read by the repetition of `||`, and the rest of the input. */
  function OrTail(i: string): (r: (string, seq<Condition>))
    ensures |r.0| <= |i|
    decreases |i|, 0
  {
    match WsTag("||", i)
    case Fail => (i, [])
    case Done(i1, _) =>
      match WsExprAnd(i1)
      case Fail => (i, [])
      case Done(i2, c) => var (rest, more) := OrTail(i2); (rest, [c] + more)
  }

  function ExprOr(i: string): (r: Parse<Condition>)
    ensures r.Done? ==> |r.rest| < |i|
    decreases |i|, 6
  {
    match WsExprAnd(i)
    case Fail => Fail
    case Done(i1, first) =>
      var (rest, more) := OrTail(i1);
      Done(rest, if more == [] then first else Or([first] + more))
  }

  /** The condition of a rule text: the whole text must be read. */
  function ParseRule(text: string): Option<Condition> {
    match ExprOr(text)
    case Fail => None
    case Done(rest, c) => if rest == "" then Some(c) else None
  }
}
