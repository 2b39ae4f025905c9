/**
 The tokens of rule texts: spaces, identifiers and string literals
 (src/parser/rule.rs). Each lexer returns what is left of the input together
 with what it read, as the parser combinators of the source do.
 */
module RuleLexer {
  import opened Common

  datatype Parse<+T> = Fail | Done(rest: string, value: T)

  predicate IsSpace(c: char) { c == ' ' || c == '\t' || c == '\r' || c == '\n' }

  predicate IsIdStart(c: char) { 'a' <= c <= 'z' || 'A' <= c <= 'Z' || c == '_' }

  predicate IsIdChar(c: char) { IsIdStart(c) || '0' <= c <= '9' }

  predicate IsControl(c: char) { c < ' ' || c == 0x7F as char }

  predicate IsHex(c: char) { '0' <= c <= '9' || 'a' <= c <= 'f' || 'A' <= c <= 'F' }

  /** A character that stands for itself inside a string literal. */
  predicate IsNormal(c: char) { c != '\\' && c != '"' && !IsControl(c) }

  function SkipSpace(i: string): (rest: string)
    ensures |rest| <= |i|
  {
    if i != "" && IsSpace(i[0]) then SkipSpace(i[1..]) else i
  }

  function IdRun(i: string): (n: nat)
    ensures n <= |i|
  {
    if i != "" && IsIdChar(i[0]) then 1 + IdRun(i[1..]) else 0
  }

  function Identifier(i: string): (r: Parse<string>)
    ensures r.Done? ==> |r.rest| < |i|
  {
    if i != "" && IsIdStart(i[0]) then
      var n := 1 + IdRun(i[1..]);
      Done(i[n..], i[..n])
    else Fail
  }

  predicate IsShortEscape(c: char) {
    c == '"' || c == '\\' || c == '/' || c == 'b' || c == 'f' || c == 'n' || c == 'r' || c == 't'
  }

  predicate IsHexOrU(c: char) { IsHex(c) || c == 'u' }

  /** What is left after the part of an escape that follows the backslash. */
  function Escapable(i: string): (rest: Option<string>)
    ensures rest.Some? ==> |rest.value| < |i|
  {
    if i != "" && IsShortEscape(i[0]) then Some(i[1..])
    else if |i| >= 5 && i[0] == 'u' && IsHexOrU(i[1]) && IsHexOrU(i[2]) && IsHexOrU(i[3]) && IsHexOrU(i[4])
    then Some(i[5..])
    else None
  }

  /** What is left after the longest run of normal characters and escapes;
      `started` tells whether the run already has a character. */
  function EscapedRun(i: string, started: bool): (rest: Option<string>)
    ensures rest.Some? ==> |rest.value| <= |i|
  {
    if i == "" then Some("")
    else if IsNormal(i[0]) then EscapedRun(i[1..], true)
    else if i[0] == '\\' then
      (match Escapable(i[1..])
       case None => None
       case Some(rest) => EscapedRun(rest, true))
    else if started then Some(i)
    else None
  }

  /** The text before the closing quote, when `body` has a run that ends there. */
  function Closed(body: string, run: Option<string>): (r: Parse<string>)
    requires run.Some? ==> |run.value| <= |body|
    ensures r.Done? ==> |r.rest| < |body|
  {
    if run.Some? && run.value != "" && run.value[0] == '"' then
      Done(run.value[1..], body[..|body| - |run.value|])
    else Fail
  }

  /** The text of a literal. The empty literal is returned with its quotes. */
  function StringText(i: string): (r: Parse<string>)
    ensures r.Done? ==> |r.rest| < |i|
  {
    if |i| >= 2 && i[0] == '"' && i[1] == '"' then Done(i[2..], "\"\"")
    else if i != "" && i[0] == '"' then
      Closed(i[1..], EscapedRun(i[1..], false))
    else Fail
  }

  function HexValue(c: char): (n: nat)
    requires IsHex(c)
    ensures n < 16
  {
    if '0' <= c <= '9' then c as int - '0' as int
    else if 'a' <= c <= 'f' then c as int - 'a' as int + 10
    else c as int - 'A' as int + 10
  }

  function HexNumber(s: string): (n: nat)
    requires |s| == 4 && IsHex(s[0]) && IsHex(s[1]) && IsHex(s[2]) && IsHex(s[3])
    ensures n < 0x1_0000
  {
    HexValue(s[0]) * 0x1000 + HexValue(s[1]) * 0x100 + HexValue(s[2]) * 0x10 + HexValue(s[3])
  }

  /** The character of a four-digit escape; surrogates have none. */
  function HexChar(s: string): Option<char> {
    if |s| == 4 && IsHex(s[0]) && IsHex(s[1]) && IsHex(s[2]) && IsHex(s[3]) then
      var n := HexNumber(s);
      if n < 0xD800 || 0xE000 <= n then Some(n as char) else None
    else None
  }

  /** The character of a one-letter escape. */
  function ShortChar(c: char): Option<char> {
    match c
    case '"' => Some('"')
    case '\\' => Some('\\')
    case 'b' => Some(0x8 as char)
    case 'f' => Some(0xC as char)
    case 'n' => Some('\n')
    case 'r' => Some('\r')
    case 't' => Some('\t')
    case _ => None
  }

  function Unescape(s: string): Option<string> {
    if s == "" then Some("")
    else if s[0] != '\\' then Prepend(s[0], Unescape(s[1..]))
    else if |s| >= 2 && ShortChar(s[1]).Some? then
      Prepend(ShortChar(s[1]).value, Unescape(s[2..]))
    else if |s| >= 6 && s[1] == 'u' && HexChar(s[2..6]).Some? then
      Prepend(HexChar(s[2..6]).value, Unescape(s[6..]))
    else None
  }

  function Prepend(c: char, s: Option<string>): Option<string> {
    match s case None => None case Some(t) => Some([c] + t)
  }

  function RhsLiteral(i: string): (r: Parse<string>)
    ensures r.Done? ==> |r.rest| < |i|
  {
    match StringText(i)
    case Fail => Fail
    case Done(rest, raw) =>
      match Unescape(raw)
      case None => Fail
      case Some(v) => Done(rest, v)
  }

  // The same tokens, described instead of read.

  ghost predicate Spaces(w: string) { forall k | 0 <= k < |w| :: IsSpace(w[k]) }

  /** `k` can follow a run of spaces without lengthening it. */
  predicate NoSpaceAhead(k: string) { k == "" || !IsSpace(k[0]) }

  ghost predicate ValidIdentifier(s: string) {
    s != "" && IsIdStart(s[0]) && forall k | 0 <= k < |s| :: IsIdChar(s[k])
  }

  datatype Item = Plain(c: char) | Short(c: char) | Hex(digits: string)
  {
    predicate Valid() {
      match this
      case Plain(c) => IsNormal(c)
      case Short(c) => ShortChar(c).Some?
      case Hex(digits) => HexChar(digits).Some?
    }

    function Text(): string {
      match this
      case Plain(c) => [c]
      case Short(c) => ['\\', c]
      case Hex(digits) => "\\u" + digits
    }

    function Char(): char
      requires Valid()
    {
      match this
      case Plain(c) => c
      case Short(c) => ShortChar(c).value
      case Hex(digits) => HexChar(digits).value
    }
  }

  ghost predicate ValidItems(items: seq<Item>) { forall k | 0 <= k < |items| :: items[k].Valid() }

  function ItemsText(items: seq<Item>): string {
    if items == [] then "" else items[0].Text() + ItemsText(items[1..])
  }

  function ItemsValue(items: seq<Item>): (s: string)
    requires ValidItems(items)
    ensures |s| == |items|
  {
    if items == [] then "" else [items[0].Char()] + ItemsValue(items[1..])
  }

  /** `""`, or at least one item between quotes. */
  datatype Literal = Empty | Quoted(items: seq<Item>)
  {
    ghost predicate Valid() { this.Quoted? ==> items != [] && ValidItems(items) }

    /** The text of this literal followed by `k`. */
    function Then(k: string): string {
      match this
      case Empty => "\"" + ("\"" + k)
      case Quoted(items) => "\"" + (ItemsText(items) + ("\"" + k))
    }

    /** The string a literal denotes; `""` denotes the two quotes themselves. */
    function Value(): string
      requires Valid()
    {
      match this
      case Empty => "\"\""
      case Quoted(items) => ItemsValue(items)
    }
  }

  lemma {:induction false} SkipSpaces(w: string, k: string)
    requires Spaces(w) && NoSpaceAhead(k)
    ensures SkipSpace(w + k) == k
  {
    if w == "" {
      assert w + k == k;
    } else {
      assert (w + k)[1..] == w[1..] + k;
      SkipSpaces(w[1..], k);
    }
  }

  /** The spaces that `SkipSpace` drops. */
  lemma {:induction false} SkippedSpaces(i: string) returns (w: string)
    ensures Spaces(w) && i == w + SkipSpace(i) && NoSpaceAhead(SkipSpace(i))
  {
    w := "";
    if i != "" && IsSpace(i[0]) {
      var v := SkippedSpaces(i[1..]);
      w := [i[0]] + v;
      assert SkipSpace(i) == SkipSpace(i[1..]);
      assert i == [i[0]] + i[1..];
    }
  }

  lemma {:induction false} IdRunStops(s: string, k: string)
    requires forall j | 0 <= j < |s| :: IsIdChar(s[j])
    requires k == "" || !IsIdChar(k[0])
    ensures IdRun(s + k) == |s|
  {
    if s == "" {
      assert s + k == k;
    } else {
      assert (s + k)[1..] == s[1..] + k;
      IdRunStops(s[1..], k);
    }
  }

  lemma IdentifierReads(s: string, k: string)
    requires ValidIdentifier(s) && (k == "" || !IsIdChar(k[0]))
    ensures Identifier(s + k) == Done(k, s)
  {
    assert (s + k)[1..] == s[1..] + k;
    IdRunStops(s[1..], k);
    assert (s + k)[|s|..] == k && (s + k)[..|s|] == s;
  }

  lemma {:induction false} IdRunIsIdChars(i: string)
    ensures forall k | 0 <= k < IdRun(i) :: IsIdChar(i[k])
    ensures IdRun(i) < |i| ==> !IsIdChar(i[IdRun(i)])
  {
    if i != "" && IsIdChar(i[0]) {
      IdRunIsIdChars(i[1..]);
      assert forall k | 1 <= k < IdRun(i) :: i[k] == i[1..][k - 1];
    }
  }

  lemma IdentifierSound(i: string)
    requires Identifier(i).Done?
    ensures ValidIdentifier(Identifier(i).value) && i == Identifier(i).value + Identifier(i).rest
  {
    IdRunIsIdChars(i[1..]);
    var s := Identifier(i).value;
    forall k | 0 <= k < |s| ensures IsIdChar(s[k]) {
      if k > 0 { assert s[k] == i[1..][k - 1]; }
    }
  }

  // The characters, told by tables

  const LOWER := "abcdefghijklmnopqrstuvwxyz"
  const UPPER := "ABCDEFGHIJKLMNOPQRSTUVWXYZ"
  const DIGITS := "0123456789"

  /** A table of consecutive characters holds just those between its ends. */
  lemma Consecutive(table: string, first: char, c: char)
    requires forall i | 0 <= i < |table| :: table[i] as int == first as int + i
    ensures first as int <= c as int < first as int + |table| <==> c in table
  {
    if first as int <= c as int < first as int + |table| {
      assert table[c as int - first as int] == c;
    }
  }

  lemma Letters(c: char)
    ensures 'a' <= c <= 'z' <==> c in LOWER
    ensures 'A' <= c <= 'Z' <==> c in UPPER
    ensures '0' <= c <= '9' <==> c in DIGITS
  {
    Consecutive(LOWER, 'a', c);
    Consecutive(UPPER, 'A', c);
    Consecutive(DIGITS, '0', c);
  }

  /** Spaces, the characters of identifiers, and those that stand for themselves in a literal. */
  lemma CharacterClasses(c: char)
    ensures IsSpace(c) <==> c in " \t\r\n"
    ensures IsIdStart(c) <==> c in LOWER || c in UPPER || c == '_'
    ensures IsIdChar(c) <==> c in LOWER || c in UPPER || c == '_' || c in DIGITS
    ensures IsNormal(c) <==> c as int >= 32 && c as int != 127 && c !in "\"\\"
  {
    Letters(c);
  }

  const SHORT_ESCAPES := map['"' := 34, '\\' := 92, 'b' := 8, 'f' := 12, 'n' := 10, 'r' := 13, 't' := 9]

  /** The one-letter escapes and the codes of their characters. */
  lemma ShortEscapes(c: char)
    ensures ShortChar(c).Some? <==> c in SHORT_ESCAPES
    ensures c in SHORT_ESCAPES ==> ShortChar(c).value as int == SHORT_ESCAPES[c]
  {
  }

  const HEX_LOWER := "0123456789abcdef"
  const HEX_UPPER := "0123456789ABCDEF"

  lemma HexDigits(d: nat)
    requires d < 16
    ensures IsHex(HEX_LOWER[d]) && HexValue(HEX_LOWER[d]) == d
    ensures IsHex(HEX_UPPER[d]) && HexValue(HEX_UPPER[d]) == d
  {
  }

  /** Four digits, each in either case, denote the character of that code, the first
      digit counting most; surrogates are no characters. */
  lemma HexEscapes(a: nat, b: nat, c: nat, d: nat, upper: bool)
    requires a < 16 && b < 16 && c < 16 && d < 16
    ensures var digits, n := if upper then HEX_UPPER else HEX_LOWER, ((a * 16 + b) * 16 + c) * 16 + d;
      var text := [digits[a], digits[b], digits[c], digits[d]];
      && (HexChar(text).Some? <==> !(0xD800 <= n <= 0xDFFF))
      && (HexChar(text).Some? ==> HexChar(text).value as int == n)
  {
    HexDigits(a);
    HexDigits(b);
    HexDigits(c);
    HexDigits(d);
  }

  /** No other character is a hexadecimal digit. */
  lemma OnlyHexDigits(c: char)
    ensures IsHex(c) <==> c in HEX_LOWER || c in HEX_UPPER
  {
    assert forall i | 0 <= i < 10 :: HEX_LOWER[i] as int == 48 + i;
    assert forall i | 10 <= i < 16 :: HEX_LOWER[i] as int == 87 + i && HEX_UPPER[i] as int == 55 + i;
    assert '0' <= c <= '9' ==> HEX_LOWER[c as int - 48] == c;
    assert 'a' <= c <= 'f' ==> HEX_LOWER[c as int - 87] == c;
    assert 'A' <= c <= 'F' ==> HEX_UPPER[c as int - 55] == c;
  }

  // String literals: the reader accepts exactly the described literals.

  lemma RunStep(item: Item, more: string, started: bool)
    requires item.Valid()
    ensures EscapedRun(item.Text() + more, started) == EscapedRun(more, true)
  {
    var i := item.Text() + more;
    match item
    case Plain(c) => assert i[0] == c && i[1..] == more;
    case Short(c) => assert i[0] == '\\' && i[1..] == [c] + more && ([c] + more)[1..] == more;
    case Hex(digits) =>
      var after := i[1..];
      assert i[0] == '\\' && after == "u" + digits + more && after[5..] == more;
      assert forall j | 1 <= j < 5 :: after[j] == digits[j - 1];
  }

  lemma UnescapeStep(item: Item, more: string)
    requires item.Valid()
    ensures Unescape(item.Text() + more) == Prepend(item.Char(), Unescape(more))
  {
    var i := item.Text() + more;
    match item
    case Plain(c) => assert i[0] == c && i[1..] == more;
    case Short(c) => assert i[0] == '\\' && i[1] == c && i[2..] == more;
    case Hex(digits) =>
      assert i == ['\\', 'u'] + digits + more;
      assert i[0] == '\\' && i[1] == 'u' && i[2..6] == digits && i[6..] == more;
  }

  lemma {:induction false} EscapedRunReads(items: seq<Item>, tail: string, started: bool)
    requires ValidItems(items) && (started || items != [])
    requires tail != "" && tail[0] == '"'
    ensures EscapedRun(ItemsText(items) + tail, started) == Some(tail)
  {
    if items == [] {
      assert ItemsText(items) + tail == tail;
    } else {
      var more := ItemsText(items[1..]) + tail;
      assert ItemsText(items) + tail == items[0].Text() + more;
      RunStep(items[0], more, started);
      EscapedRunReads(items[1..], tail, true);
    }
  }

  lemma {:induction false} UnescapeItems(items: seq<Item>)
    requires ValidItems(items)
    ensures Unescape(ItemsText(items)) == Some(ItemsValue(items))
  {
    if items != [] {
      UnescapeItems(items[1..]);
      UnescapeStep(items[0], ItemsText(items[1..]));
    }
  }

  lemma UnescapeQuotes()
    ensures Unescape("\"\"") == Some("\"\"")
  {
    var two, one := "\"\"", "\"";
    assert two[1..] == one && one[1..] == "";
    assert ['"'] + "" == one && ['"'] + one == two;
    assert Unescape(one) == Prepend('"', Unescape(""));
    assert Unescape(two) == Prepend('"', Unescape(one));
  }

  lemma ClosedReads(text: string, k: string)
    ensures Closed(text + ("\"" + k), Some("\"" + k)) == Done(k, text)
  {
    var tail := "\"" + k;
    assert tail[1..] == k;
    assert (text + tail)[..|text|] == text;
  }

  lemma QuotedReads(items: seq<Item>, k: string)
    requires items != [] && ValidItems(items)
    ensures StringText(Quoted(items).Then(k)) == Done(k, ItemsText(items))
  {
    var text, tail := ItemsText(items), "\"" + k;
    var i := Quoted(items).Then(k);
    assert i[0] == '"' && i[1..] == text + tail;
    assert i[1] == items[0].Text()[0] != '"';
    EscapedRunReads(items, tail, false);
    ClosedReads(text, k);
  }

  lemma LiteralReads(lit: Literal, k: string)
    requires lit.Valid()
    ensures RhsLiteral(lit.Then(k)) == Done(k, lit.Value())
  {
    match lit
    case Empty =>
      UnescapeQuotes();
      assert lit.Then(k)[2..] == k;
    case Quoted(items) =>
      QuotedReads(items, k);
      UnescapeItems(items);
  }

  /** One step of the reader, seen from its input. */
  lemma FirstItem(i: string, started: bool) returns (item: Item, next: string)
    requires i != "" && (IsNormal(i[0]) || i[0] == '\\') && EscapedRun(i, started).Some?
    ensures i == item.Text() + next && |next| < |i|
    ensures EscapedRun(i, started) == EscapedRun(next, true)
    ensures item.Plain? ==> IsNormal(item.c)
    ensures item.Short? ==> item.c != 'u'
    ensures item.Hex? ==> |item.digits| == 4
  {
    if IsNormal(i[0]) {
      item, next := Plain(i[0]), i[1..];
    } else {
      var after := i[1..];
      next := Escapable(after).value;
      if after[0] == 'u' {
        item := Hex(after[1..5]);
        assert i == ['\\', 'u'] + after[1..5] + next;
      } else {
        item := Short(after[0]);
        assert i == ['\\', after[0]] + next;
      }
    }
  }

  /** Only valid items can be unescaped. */
  lemma UnescapeNeedsValid(item: Item, more: string)
    requires Unescape(item.Text() + more).Some?
    requires item.Plain? ==> IsNormal(item.c)
    requires item.Short? ==> item.c != 'u'
    requires item.Hex? ==> |item.digits| == 4
    ensures item.Valid()
  {
    var i := item.Text() + more;
    match item
    case Plain(_) =>
    case Short(c) => assert i[0] == '\\' && i[1] == c;
    case Hex(digits) =>
      assert i == ['\\', 'u'] + digits + more;
      assert i[0] == '\\' && i[1] == 'u' && i[2..6] == digits;
  }

  /** Cutting the same text at the start of `next` and at the start of `rest`. */
  lemma CutTwice(raw: string, rest: string, text: string, next: string) returns (s: string)
    requires raw + rest == text + next && |rest| <= |next|
    ensures raw == text + s && next == s + rest
  {
    s := raw[|text|..];
    assert forall k | 0 <= k < |text| :: raw[k] == (raw + rest)[k] == text[k];
    assert forall k | 0 <= k < |next| :: next[k] == (text + next)[|text| + k] == (raw + rest)[|text| + k];
  }

  /** The items of the text `raw` of a run that the reader stopped at a quote. */
  lemma {:induction false} RunItems(raw: string, rest: string, started: bool) returns (items: seq<Item>)
    requires EscapedRun(raw + rest, started) == Some(rest) && rest != "" && rest[0] == '"'
    requires Unescape(raw).Some?
    ensures ValidItems(items) && (started || items != [])
    ensures raw == ItemsText(items) && Unescape(raw).value == ItemsValue(items)
    decreases |raw|
  {
    var i := raw + rest;
    if !IsNormal(i[0]) && i[0] != '\\' {
      items := [];
      assert raw == "";
    } else {
      var item, next := FirstItem(i, started);
      var s := CutTwice(raw, rest, item.Text(), next);
      UnescapeNeedsValid(item, s);
      UnescapeStep(item, s);
      var more := RunItems(s, rest, true);
      items := [item] + more;
      assert items[1..] == more;
    }
  }

  lemma {:induction false} RunLeavesSuffix(i: string, started: bool) returns (raw: string)
    requires EscapedRun(i, started).Some?
    ensures i == raw + EscapedRun(i, started).value
    decreases |i|
  {
    if i != "" && (IsNormal(i[0]) || i[0] == '\\') {
      var item, next := FirstItem(i, started);
      var s := RunLeavesSuffix(next, true);
      raw := item.Text() + s;
    } else {
      raw := "";
    }
  }

  lemma ClosedSound(raw: string, rest: string)
    requires Closed(raw + rest, Some(rest)).Done?
    ensures var r := Closed(raw + rest, Some(rest));
      r.value == raw && rest == "\"" + r.rest
  {
    assert (raw + rest)[..|raw|] == raw;
  }

  lemma LiteralSound(i: string) returns (lit: Literal)
    requires RhsLiteral(i).Done?
    ensures lit.Valid() && i == lit.Then(RhsLiteral(i).rest) && lit.Value() == RhsLiteral(i).value
  {
    if |i| >= 2 && i[0] == '"' && i[1] == '"' {
      lit := Empty;
      UnescapeQuotes();
      assert i == "\"" + ("\"" + i[2..]);
    } else {
      var rest := EscapedRun(i[1..], false).value;
      var raw := RunLeavesSuffix(i[1..], false);
      ClosedSound(raw, rest);
      var items := RunItems(raw, rest, false);
      lit := Quoted(items);
      assert i == "\"" + i[1..];
    }
  }

  // Every string has an escaped form.

  function HexDigit(n: nat): (c: char)
    requires n < 16
    ensures IsHex(c) && HexValue(c) == n
  {
    if n < 10 then '0' + n as char else 'a' + (n - 10) as char
  }

  function EscapeChar(c: char): (item: Item)
    ensures item.Valid() && item.Char() == c
  {
    if c == '"' || c == '\\' then Short(c)
    else if IsControl(c) then
      var n := c as int;
      var digits := ['0', '0', HexDigit(n / 16), HexDigit(n % 16)];
      assert HexNumber(digits) == n;
      Hex(digits)
    else Plain(c)
  }

  function EscapeString(s: string): (items: seq<Item>)
    ensures ValidItems(items) && ItemsValue(items) == s
  {
    if s == "" then []
    else
      var more := EscapeString(s[1..]);
      var items := [EscapeChar(s[0])] + more;
      assert items[1..] == more;
      items
  }
}
