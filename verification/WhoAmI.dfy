/**
 The labels of a client, read from lines of `key=value` (`new_whoami` in src/ffi.rs).
 */
module WhoAmI {
  import opened Common
  import opened RuleEngine

  /** White space of Unicode. */
  predicate IsWhite(c: char) {
    || 0x9 as char <= c <= 0xD as char || c == ' ' || c == 0x85 as char || c == 0xA0 as char || c == 0x1680 as char
    || 0x2000 as char <= c <= 0x200A as char || c == 0x2028 as char || c == 0x2029 as char || c == 0x202F as char
    || c == 0x205F as char || c == 0x3000 as char
  }

  const CONTROL_SPACES := [0x9, 0xA, 0xB, 0xC, 0xD]
  const TYPOGRAPHIC_SPACES := [0x2000, 0x2001, 0x2002, 0x2003, 0x2004, 0x2005, 0x2006, 0x2007, 0x2008, 0x2009, 0x200A]
  const OTHER_SPACES := [0x20, 0x85, 0xA0, 0x1680, 0x2028, 0x2029, 0x202F, 0x205F, 0x3000]

  /** The code points with the White_Space property of Unicode, in three tables. */
  lemma WhiteSpace(c: char)
    ensures IsWhite(c) <==> c as int in CONTROL_SPACES || c as int in TYPOGRAPHIC_SPACES || c as int in OTHER_SPACES
  {
    Consecutive(CONTROL_SPACES, c as int);
    Consecutive(TYPOGRAPHIC_SPACES, c as int);
    OtherSpaces(c);
  }

  lemma Consecutive(table: seq<int>, n: int)
    requires table != [] && forall i | 0 <= i < |table| :: table[i] == table[0] + i
    ensures table[0] <= n < table[0] + |table| <==> n in table
  {
    if table[0] <= n < table[0] + |table| {
      assert table[n - table[0]] == n;
    }
  }

  lemma OtherSpaces(c: char)
    ensures c as int in OTHER_SPACES <==>
      || c == ' ' || c == 0x85 as char || c == 0xA0 as char || c == 0x1680 as char || c == 0x2028 as char
      || c == 0x2029 as char || c == 0x202F as char || c == 0x205F as char || c == 0x3000 as char
  {
  }

  function TrimStart(s: string): (t: string)
    ensures |t| <= |s|
  {
    if s != "" && IsWhite(s[0]) then TrimStart(s[1..]) else s
  }

  function TrimEnd(s: string): (t: string)
    ensures |t| <= |s|
  {
    if s != "" && IsWhite(s[|s| - 1]) then TrimEnd(s[..|s| - 1]) else s
  }

  function Trim(s: string): string { TrimEnd(TrimStart(s)) }

  predicate Trimmed(s: string) { s == "" || (!IsWhite(s[0]) && !IsWhite(s[|s| - 1])) }

  /** The place of the first `c`, or the length. */
  function IndexOf(s: string, c: char): (n: nat)
    ensures n <= |s| && c !in s[..n] && (n < |s| ==> s[n] == c)
  {
    if s == "" || s[0] == c then 0
    else
      var n := 1 + IndexOf(s[1..], c);
      assert s[..n] == [s[0]] + s[1..][..n - 1];
      n
  }

  function Lines(s: string): (lines: seq<string>)
    ensures lines != []
    decreases |s|
  {
    var n := IndexOf(s, '\n');
    if n == |s| then [s] else [s[..n]] + Lines(s[n + 1..])
  }

  /** The label of a line, if it has one. */
  function Label(line: string): Option<(string, string)> {
    var n := IndexOf(line, '=');
    if n == |line| then None else Some((Trim(line[..n]), Trim(line[n + 1..])))
  }

  /** A line has a label if it has an equals sign: the first one parts name and value. */
  lemma LabelIs(line: string, k: string, v: string)
    ensures Label(line) == Some((k, v)) <==>
      exists a, b :: line == a + "=" + b && '=' !in a && k == Trim(a) && v == Trim(b)
    ensures Label(line).None? <==> '=' !in line
  {
    var n := IndexOf(line, '=');
    if n < |line| {
      assert line == line[..n] + "=" + line[n + 1..];
    } else {
      assert line[..n] == line;
    }
    if a, b :| line == a + "=" + b && '=' !in a && k == Trim(a) && v == Trim(b) {
      IndexOfFirst(a, '=', b);
      assert line == a + ['='] + b && line[..|a|] == a && line[|a| + 1..] == b;
    }
  }

  predicate IsNamed(line: string, k: string) { Label(line).Some? && Label(line).value.0 == k }

  /** Some line has a label of the name. */
  ghost predicate Names(lines: seq<string>, k: string) { exists i | 0 <= i < |lines| :: IsNamed(lines[i], k) }

  /** Line `i` is the last one with a label of the name. */
  ghost predicate IsLast(lines: seq<string>, i: nat, k: string) {
    i < |lines| && IsNamed(lines[i], k) && forall j | i < j < |lines| :: !IsNamed(lines[j], k)
  }

  /** The map has the name just if some line has, with the value in the last such line. */
  ghost predicate IsLabel(lines: seq<string>, m: MatchContext, k: string) {
    && (k in m <==> Names(lines, k))
    && (k in m ==> exists i: nat :: IsLast(lines, i, k) && m[k] == Str(Label(lines[i]).value.1))
  }

  /** For each name, the value in the last line that has it. */
  ghost predicate AreLabels(lines: seq<string>, m: MatchContext) { forall k :: IsLabel(lines, m, k) }

  /** The labels of a text. */
  ghost predicate IsParsed(val: string, m: MatchContext) { AreLabels(Lines(val), m) }

  function WithLabel(m: MatchContext, line: string): MatchContext {
    match Label(line) case None => m case Some((k, v)) => m[k := Str(v)]
  }

  lemma NamesSnoc(lines: seq<string>, line: string, k: string)
    ensures Names(lines + [line], k) <==> Names(lines, k) || IsNamed(line, k)
    ensures IsNamed(line, k) ==> IsLast(lines + [line], |lines|, k)
    ensures !IsNamed(line, k) ==> forall i: nat | IsLast(lines, i, k) :: IsLast(lines + [line], i, k)
  {
    var all := lines + [line];
    assert all[|lines|] == line && forall i | 0 <= i < |lines| :: all[i] == lines[i];
  }

  lemma IsLabelSnoc(lines: seq<string>, line: string, m: MatchContext, k: string)
    requires IsLabel(lines, m, k)
    ensures IsLabel(lines + [line], WithLabel(m, line), k)
  {
    NamesSnoc(lines, line, k);
    if IsNamed(line, k) {
      assert (lines + [line])[|lines|] == line;
    } else if k in m {
      var i: nat :| IsLast(lines, i, k) && m[k] == Str(Label(lines[i]).value.1);
      assert IsLast(lines + [line], i, k) && (lines + [line])[i] == lines[i];
    }
  }

  lemma AreLabelsSnoc(lines: seq<string>, line: string, m: MatchContext)
    requires AreLabels(lines, m)
    ensures AreLabels(lines + [line], WithLabel(m, line))
  {
    forall k ensures IsLabel(lines + [line], WithLabel(m, line), k) {
      IsLabelSnoc(lines, line, m, k);
    }
  }

  method NewWhoAmI(val: string) returns (ret: MatchContext)
    ensures IsParsed(val, ret)
  {
    ret := map[];
    var parts := Lines(val);
    for i := 0 to |parts|
      invariant AreLabels(parts[..i], ret)
    {
      assert parts[..i + 1] == parts[..i] + [parts[i]];
      AreLabelsSnoc(parts[..i], parts[i], ret);
      var found := Label(parts[i]);
      if found.Some? {
        ret := ret[found.value.0 := Str(found.value.1)];
      }
    }
    assert parts[..|parts|] == parts;
  }

  // Printing labels, and reading them back

  ghost predicate PrintableLabel(k: string, v: string) {
    Trimmed(k) && '=' !in k && '\n' !in k && Trimmed(v) && '\n' !in v
  }

  ghost predicate Printable(m: MatchContext) { forall k | k in m :: PrintableLabel(k, m[k].s) }

  /** One line for each of `ks`. */
  function Print(m: MatchContext, ks: seq<string>): string
    requires forall k | k in ks :: k in m
  {
    if ks == [] then ""
    else if |ks| == 1 then LineOf(m, ks[0])
    else LineOf(m, ks[0]) + "\n" + Print(m, ks[1..])
  }

  function LineOf(m: MatchContext, k: string): string
    requires k in m
  {
    k + "=" + m[k].s
  }

  lemma {:induction false} TrimOfTrimmed(s: string)
    requires Trimmed(s)
    ensures Trim(s) == s
  {
  }

  ghost predicate White(s: string) { forall k | 0 <= k < |s| :: IsWhite(s[k]) }

  lemma {:induction false} TrimStartDrops(s: string) returns (before: string)
    ensures White(before) && s == before + TrimStart(s)
    ensures TrimStart(s) == "" || !IsWhite(TrimStart(s)[0])
  {
    before := "";
    if s != "" && IsWhite(s[0]) {
      var more := TrimStartDrops(s[1..]);
      before := [s[0]] + more;
      assert s == [s[0]] + s[1..];
    }
  }

  lemma {:induction false} TrimEndDrops(s: string) returns (after: string)
    ensures White(after) && s == TrimEnd(s) + after
    ensures TrimEnd(s) == "" || !IsWhite(TrimEnd(s)[|TrimEnd(s)| - 1])
  {
    after := "";
    if s != "" && IsWhite(s[|s| - 1]) {
      var n := |s| - 1;
      var more := TrimEndDrops(s[..n]);
      var kept := TrimEnd(s[..n]);
      after := more + [s[n]];
      assert TrimEnd(s) == kept;
      assert s[..n] == kept + more;
      assert s == s[..n] + [s[n]];
      assert (kept + more) + [s[n]] == kept + (more + [s[n]]);
    }
  }

  /** Trimming drops white space at both ends, and all of it. */
  lemma TrimDrops(s: string) returns (before: string, after: string)
    ensures White(before) && White(after) && s == before + Trim(s) + after && Trimmed(Trim(s))
  {
    before := TrimStartDrops(s);
    after := TrimEndDrops(TrimStart(s));
    assert Trim(s) != "" ==> Trim(s)[0] == TrimStart(s)[0];
  }

  lemma TrimIsTrimmed(s: string)
    ensures Trimmed(Trim(s)) && forall c | c in Trim(s) :: c in s
  {
    var before, after := TrimDrops(s);
  }

  function Unlines(lines: seq<string>): string
    requires lines != []
  {
    if |lines| == 1 then lines[0] else lines[0] + "\n" + Unlines(lines[1..])
  }

  lemma UnlinesCons(line: string, lines: seq<string>)
    requires lines != []
    ensures Unlines([line] + lines) == line + "\n" + Unlines(lines)
  {
    assert ([line] + lines)[1..] == lines;
  }

  /** The lines of a text are its parts between line breaks. */
  lemma {:induction false} LinesSplit(s: string)
    ensures Unlines(Lines(s)) == s && forall i | 0 <= i < |Lines(s)| :: '\n' !in Lines(s)[i]
    decreases |s|
  {
    var n := IndexOf(s, '\n');
    if n < |s| {
      LinesSplit(s[n + 1..]);
      UnlinesCons(s[..n], Lines(s[n + 1..]));
      assert s == s[..n] + "\n" + s[n + 1..];
      assert Lines(s) == [s[..n]] + Lines(s[n + 1..]);
    } else {
      assert s[..n] == s;
    }
  }

  lemma {:induction false} IndexOfFirst(a: string, c: char, b: string)
    requires c !in a
    ensures IndexOf(a + [c] + b, c) == |a|
  {
    if a == "" {
      assert a + [c] + b == [c] + b;
    } else {
      assert (a + [c] + b)[1..] == a[1..] + [c] + b;
      IndexOfFirst(a[1..], c, b);
    }
  }

  lemma LabelOfLine(k: string, v: string)
    requires PrintableLabel(k, v)
    ensures Label(k + "=" + v) == Some((k, v)) && '\n' !in k + "=" + v
  {
    IndexOfFirst(k, '=', v);
    var line := k + "=" + v;
    assert line == k + ['='] + v && line[..|k|] == k && line[|k| + 1..] == v;
    TrimOfTrimmed(k);
    TrimOfTrimmed(v);
  }

  lemma NoBreakNoSplit(line: string)
    requires '\n' !in line
    ensures Lines(line) == [line]
  {
  }

  lemma FirstLine(line: string, rest: string)
    requires '\n' !in line
    ensures Lines(line + "\n" + rest) == [line] + Lines(rest)
  {
    var text := line + "\n" + rest;
    IndexOfFirst(line, '\n', rest);
    assert text == line + ['\n'] + rest && text[..|line|] == line && text[|line| + 1..] == rest;
  }

  lemma LinesOfFirst(m: MatchContext, ks: seq<string>)
    requires Printable(m) && ks != [] && forall k | k in ks :: k in m
    ensures Lines(Print(m, ks)) == [LineOf(m, ks[0])] + if |ks| == 1 then [] else Lines(Print(m, ks[1..]))
  {
    LabelOfLine(ks[0], m[ks[0]].s);
    if |ks| == 1 {
      NoBreakNoSplit(LineOf(m, ks[0]));
    } else {
      FirstLine(LineOf(m, ks[0]), Print(m, ks[1..]));
    }
  }

  lemma {:induction false} LinesOfPrint(m: MatchContext, ks: seq<string>)
    requires Printable(m) && ks != [] && forall k | k in ks :: k in m
    ensures |Lines(Print(m, ks))| == |ks|
    ensures forall i | 0 <= i < |ks| :: Lines(Print(m, ks))[i] == LineOf(m, ks[i])
  {
    LinesOfFirst(m, ks);
    if |ks| > 1 {
      LinesOfPrint(m, ks[1..]);
    }
  }

  lemma {:induction false} LastNamed(lines: seq<string>, n: nat, k: string) returns (i: nat)
    requires n <= |lines| && (exists i | 0 <= i < n :: IsNamed(lines[i], k))
    requires forall j | n <= j < |lines| :: !IsNamed(lines[j], k)
    ensures IsLast(lines, i, k)
  {
    if IsNamed(lines[n - 1], k) {
      i := n - 1;
    } else {
      i := LastNamed(lines, n - 1, k);
    }
  }

  lemma LabelsOfPrint(m: MatchContext, ks: seq<string>)
    requires Printable(m) && ks != [] && forall k | k in ks :: k in m
    ensures |Lines(Print(m, ks))| == |ks|
    ensures forall i | 0 <= i < |ks| :: Label(Lines(Print(m, ks))[i]) == Some((ks[i], m[ks[i]].s))
  {
    LinesOfPrint(m, ks);
    forall i | 0 <= i < |ks| ensures Label(LineOf(m, ks[i])) == Some((ks[i], m[ks[i]].s)) {
      LabelOfLine(ks[i], m[ks[i]].s);
    }
  }

  /** Line for line, the labels are those of the names. */
  ghost predicate LabelledBy(lines: seq<string>, ks: seq<string>, m: MatchContext) {
    && |lines| == |ks| && (forall k | k in ks :: k in m)
    && forall i | 0 <= i < |ks| :: Label(lines[i]) == Some((ks[i], m[ks[i]].s))
  }

  lemma IsLabelOf(lines: seq<string>, ks: seq<string>, m: MatchContext, k: string)
    requires LabelledBy(lines, ks, m) && (k in ks <==> k in m)
    ensures IsLabel(lines, m, k)
  {
    if k in m {
      var i :| 0 <= i < |ks| && ks[i] == k;
      assert IsNamed(lines[i], k);
      var j := LastNamed(lines, |lines|, k);
    } else {
      forall i | 0 <= i < |lines| ensures !IsNamed(lines[i], k) {
        assert ks[i] in ks;
      }
    }
  }

  /** Lines with just the labels of a map, in any order, have that map. */
  lemma AreLabelsOf(lines: seq<string>, ks: seq<string>, m: MatchContext)
    requires LabelledBy(lines, ks, m) && forall k :: k in ks <==> k in m
    ensures AreLabels(lines, m)
  {
    forall k ensures IsLabel(lines, m, k) {
      IsLabelOf(lines, ks, m, k);
    }
  }

  /** Printed in any order, labels are read back as they were. */
  lemma RoundTrip(m: MatchContext, ks: seq<string>)
    requires Printable(m) && forall k :: k in ks <==> k in m
    ensures IsParsed(Print(m, ks), m)
  {
    if ks == [] {
      NoBreakNoSplit("");
      assert Label("").None?;
      assert forall k :: !Names([""], k);
    } else {
      LabelsOfPrint(m, ks);
      AreLabelsOf(Lines(Print(m, ks)), ks, m);
    }
  }

  lemma {:induction false} KeysInOrder(ks: set<string>) returns (order: seq<string>)
    ensures forall k :: k in order <==> k in ks
  {
    order := [];
    if k :| k in ks {
      var rest := KeysInOrder(ks - {k});
      order := [k] + rest;
    }
  }

  /** A text that a C string can hold. */
  predicate IsCText(s: string) { 0 as char !in s }

  ghost predicate HasCTexts(m: MatchContext) { forall k | k in m :: IsCText(k) && IsCText(m[k].s) }

  lemma PartsAreCTexts(s: string, n: nat)
    requires IsCText(s) && n < |s|
    ensures IsCText(s[..n]) && IsCText(s[n + 1..])
  {
  }

  lemma {:induction false} LinesAreCTexts(s: string)
    requires IsCText(s)
    ensures forall i | 0 <= i < |Lines(s)| :: IsCText(Lines(s)[i])
    decreases |s|
  {
    var n := IndexOf(s, '\n');
    if n < |s| {
      PartsAreCTexts(s, n);
      LinesAreCTexts(s[n + 1..]);
      assert Lines(s) == [s[..n]] + Lines(s[n + 1..]);
    } else {
      assert Lines(s) == [s];
    }
  }

  lemma {:induction false} PrintIsCText(m: MatchContext, ks: seq<string>)
    requires HasCTexts(m) && forall k | k in ks :: k in m
    ensures IsCText(Print(m, ks))
  {
    if ks != [] {
      assert IsCText(ks[0]) && IsCText(m[ks[0]].s);
      PrintIsCText(m, ks[1..]);
    }
  }

  lemma LineIsPrintable(line: string)
    requires '\n' !in line && IsCText(line) && Label(line).Some?
    ensures var (k, v) := Label(line).value; PrintableLabel(k, v) && IsCText(k) && IsCText(v)
  {
    var n := IndexOf(line, '=');
    TrimIsTrimmed(line[..n]);
    TrimIsTrimmed(line[n + 1..]);
  }

  lemma ParsedIsPrintable(val: string, m: MatchContext)
    requires IsCText(val) && IsParsed(val, m)
    ensures Printable(m) && HasCTexts(m)
  {
    var lines := Lines(val);
    LinesSplit(val);
    LinesAreCTexts(val);
    forall k | k in m ensures PrintableLabel(k, m[k].s) && IsCText(k) && IsCText(m[k].s) {
      assert IsLabel(lines, m, k);
      var i: nat :| IsLast(lines, i, k) && m[k] == Str(Label(lines[i]).value.1);
      LineIsPrintable(lines[i]);
    }
  }

  /** The labels that some text, as a C string, denotes are exactly the printable
      ones without NUL characters. */
  lemma ParseableIsPrintable(m: MatchContext)
    ensures (exists val :: IsCText(val) && IsParsed(val, m)) <==> Printable(m) && HasCTexts(m)
  {
    if val :| IsCText(val) && IsParsed(val, m) {
      ParsedIsPrintable(val, m);
    }
    if Printable(m) && HasCTexts(m) {
      var ks := KeysInOrder(m.Keys);
      RoundTrip(m, ks);
      PrintIsCText(m, ks);
    }
  }
}
