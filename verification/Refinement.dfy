/**
 From files to answers: what a query over a loaded index answers, told from the
 files of the version's tree, and how the index of a namespace relates to that of
 an enclosing one.
 */
module Refinement {
  import opened Common
  import opened RuleEngine
  import opened RuleParser
  import opened RuleGrammar
  import opened RulePrinter
  import opened Model
  import opened Storage
  import opened IndexData
  import opened Files
  import opened CfgIndex
  import opened Querier

  /** A loaded index is fit for queries. */
  lemma LoadedIsReady(root: Node, ns: Path)
    requires ValidTree(root) && LoadIndices(root, ns).Some?
    ensures Ready(LoadIndices(root, ns).value)
  {
    var ind := LoadIndices(root, ns).value;
    LoadedMapHolds(LoadRule, root, RULES, ns);
    forall k | k in ind.rules ensures Binary(ind.rules[k]) {
      var p, blob :| FileAt(root, RULES, ns, p, blob) && PathText(p) == k;
      var text := blob.ruleText.value;
      assert ParseRule(text) == Some(ind.rules[k]);
      ParseableIsShaped(ind.rules[k]);
      ShapedIsBinary(ind.rules[k]);
    }
    LoadedLinksCount(root, ns, "", IdxLinkItem(0.0, false, "path:/", "", ""));
  }

  /** A rule of the index holds just when the file it was loaded from says so. */
  lemma RuleOfIndexIsFile(root: Node, ns: Path, whoami: MatchContext, rule: string, key: string)
    requires ValidTree(root) && LoadIndices(root, ns).Some? && NamesPath(rule, key)
    ensures RuleHolds(LoadIndices(root, ns).value, whoami, key) <==> RuleHoldsIn(root, ns, whoami, rule)
  {
    var ind := LoadIndices(root, ns).value;
    LoadedMapHolds(LoadRule, root, RULES, ns);
    if RuleHolds(ind, whoami, key) {
      var p, blob :| FileAt(root, RULES, ns, p, blob) && PathText(p) == key;
      assert LoadRule(blob) == Some(ind.rules[key]);
      var text := blob.ruleText.value;
      ParserIsGrammar(text, ind.rules[key]);
      assert RuleFile(root, ns, p, text);
    }
    if RuleHoldsIn(root, ns, whoami, rule) {
      var p, text, c :| RuleFile(root, ns, p, text) && NamesPath(rule, PathText(p))
        && Derivable(text, c) && Holds(c, whoami);
      var blob :| FileAt(root, "rules", ns, p, blob) && blob.ruleText == Some(text);
      ParserIsGrammar(text, c);
      assert LoadRule(blob) == Some(ind.rules[PathText(p)]);
    }
  }

  /** A link is active as often as it is filed, if its rule holds. */
  lemma ActiveAreOccurrences(ind: Indices, whoami: MatchContext, act: seq<IdxLinkItem>, x: IdxLinkItem)
    requires AreActive(ind, whoami, act)
    ensures multiset(act)[x] == if |x.rulePath| >= 6 && RuleHolds(ind, whoami, x.rulePath[6..])
                                then Occurrences(ind.links, x.rulePath[6..], x) else 0
    ensures x in act <==> multiset(act)[x] > 0
  {
    assert multiset(act)[x] == ActiveCount(ind, whoami, ind.rules.Keys, x);
  }

  /** The links that take part in a query are exactly the entries of the link
      files below the namespace whose rule file is there and holds: each as often
      as its link file lists it, and nothing else. */
  lemma ActiveLinksAreDeclared(root: Node, ns: Path, whoami: MatchContext, act: seq<IdxLinkItem>, x: IdxLinkItem)
    requires ValidTree(root) && LoadIndices(root, ns).Some?
    requires AreActive(LoadIndices(root, ns).value, whoami, act)
    ensures forall p, spec | LinkFile(root, ns, p, spec) && PathText(p) == x.linkPath ::
      multiset(act)[x] == TimesGiven(root, ns, whoami, spec, x)
    ensures x in act ==> exists p, spec :: LinkFile(root, ns, p, spec) && PathText(p) == x.linkPath
    ensures x in act <==> multiset(act)[x] > 0
  {
    var ind := LoadIndices(root, ns).value;
    ActiveAreOccurrences(ind, whoami, act, x);
    if |x.rulePath| >= 6 {
      RuleOfIndexIsFile(root, ns, whoami, x.rulePath, x.rulePath[6..]);
      LoadedLinksCount(root, ns, x.rulePath[6..], x);
    } else {
      ShortRuleNeverHolds(root, ns, whoami, x.rulePath);
    }
  }

  lemma ShortRuleNeverHolds(root: Node, ns: Path, whoami: MatchContext, rule: string)
    requires |rule| < 6
    ensures !RuleHoldsIn(root, ns, whoami, rule)
  {
  }

  // Namespaces

  lemma FilesNest(root: Node, kind: string, outer: Path, inner: Path, p: Path, blob: Blob)
    requires outer <= inner
    ensures FileAt(root, kind, inner, p, blob) ==> FileAt(root, kind, outer, p, blob)
  {
  }

  /** A map of a namespace is that of an enclosing one, restricted to the files
      below the namespace. */
  lemma MapsNest<T(!new)>(decode: Decode<T>, root: Node, kind: string, outer: Path, inner: Path,
      m: map<string, T>, n: map<string, T>)
    requires ValidTree(root) && outer <= inner
    requires Holding(decode, root, kind, outer, m) && Holding(decode, root, kind, inner, n)
    ensures forall p | ValidPath(p) :: PathText(p) in n <==> PathText(p) in m && inner <= p && inner != p
    ensures forall k | k in n :: k in m && n[k] == m[k]
  {
    forall k | k in n ensures k in m && n[k] == m[k] {
      var p, blob :| FileAt(root, kind, inner, p, blob) && PathText(p) == k;
      FilesNest(root, kind, outer, inner, p, blob);
    }
    forall p | ValidPath(p) ensures PathText(p) in n <==> PathText(p) in m && inner <= p && inner != p {
      if PathText(p) in n {
        var q, blob :| FileAt(root, kind, inner, q, blob) && PathText(q) == PathText(p);
        FilePathIsValid(root, kind, inner, q, blob);
        PathTextInjective(p, q);
      }
      if PathText(p) in m && inner <= p && inner != p {
        var q, blob :| FileAt(root, kind, outer, q, blob) && PathText(q) == PathText(p);
        FilePathIsValid(root, kind, outer, q, blob);
        PathTextInjective(p, q);
        assert FileAt(root, kind, inner, p, blob);
      }
    }
  }

  lemma LinkFilesNest(root: Node, outer: Path, inner: Path, p: Path, spec: LinkSpec)
    requires outer <= inner && LinkFile(root, inner, p, spec)
    ensures LinkFile(root, outer, p, spec)
  {
    var blob :| FileAt(root, "links", inner, p, blob) && blob.link == Some(spec);
    FilesNest(root, "links", outer, inner, p, blob);
  }

  /** The links that take part in a query of a namespace take part in the same
      query of an enclosing one. */
  lemma ActiveLinksNest(root: Node, outer: Path, inner: Path, whoami: MatchContext,
      a: seq<IdxLinkItem>, b: seq<IdxLinkItem>)
    requires ValidTree(root) && outer <= inner
    requires LoadIndices(root, outer).Some? && LoadIndices(root, inner).Some?
    requires AreActive(LoadIndices(root, outer).value, whoami, a)
    requires AreActive(LoadIndices(root, inner).value, whoami, b)
    ensures multiset(b) <= multiset(a)
  {
    forall x ensures multiset(b)[x] <= multiset(a)[x] {
      ActiveLinksAreDeclared(root, outer, whoami, a, x);
      ActiveLinksAreDeclared(root, inner, whoami, b, x);
      if x in b {
        var p, spec :| LinkFile(root, inner, p, spec) && PathText(p) == x.linkPath;
        LinkFilesNest(root, outer, inner, p, spec);
        GivenNests(root, outer, inner, whoami, spec, x);
      }
    }
  }

  lemma GivenNests(root: Node, outer: Path, inner: Path, whoami: MatchContext, spec: LinkSpec, x: IdxLinkItem)
    requires outer <= inner
    ensures TimesGiven(root, inner, whoami, spec, x) <= TimesGiven(root, outer, whoami, spec, x)
  {
    if RuleHoldsIn(root, inner, whoami, spec.rule) {
      var p, text, c :| RuleFile(root, inner, p, text) && NamesPath(spec.rule, PathText(p))
        && Derivable(text, c) && Holds(c, whoami);
      var blob :| FileAt(root, "rules", inner, p, blob) && blob.ruleText == Some(text);
      FilesNest(root, "rules", outer, inner, p, blob);
      assert RuleFile(root, outer, p, text);
    }
  }

  ghost function Total(f: IdxLinkItem -> nat, links: seq<IdxLinkItem>): nat {
    if links == [] then 0 else Total(f, links[..|links| - 1]) + f(links[|links| - 1])
  }

  function Without(links: seq<IdxLinkItem>, i: nat): seq<IdxLinkItem>
    requires i < |links|
  {
    links[..i] + links[i + 1..]
  }

  lemma {:induction false} TotalWithout(f: IdxLinkItem -> nat, links: seq<IdxLinkItem>, i: nat)
    requires i < |links|
    ensures Total(f, links) == Total(f, Without(links, i)) + f(links[i])
  {
    var n := |links| - 1;
    if i == n {
      assert Without(links, i) == links[..n];
    } else {
      TotalWithout(f, links[..n], i);
      var left := Without(links[..n], i);
      assert Without(links, i) == left + [links[n]];
      assert (left + [links[n]])[..|left|] == left;
    }
  }

  lemma WithoutCounts(links: seq<IdxLinkItem>, i: nat)
    requires i < |links|
    ensures forall x :: multiset(links)[x] == multiset(Without(links, i))[x] + if x == links[i] then 1 else 0
  {
    assert links == links[..i] + ([links[i]] + links[i + 1..]);
  }

  lemma {:induction false} TotalGrows(f: IdxLinkItem -> nat, g: IdxLinkItem -> nat,
      b: seq<IdxLinkItem>, a: seq<IdxLinkItem>)
    requires forall x :: multiset(b)[x] <= multiset(a)[x]
    requires forall x :: f(x) <= g(x)
    ensures Total(f, b) <= Total(g, a)
  {
    if b != [] {
      var n := |b| - 1;
      WithoutCounts(b, n);
      assert Without(b, n) == b[..n];
      assert multiset(b)[b[n]] <= multiset(a)[b[n]];
      var i :| 0 <= i < |a| && a[i] == b[n];
      WithoutCounts(a, i);
      TotalGrows(f, g, b[..n], Without(a, i));
      TotalWithout(g, a, i);
    }
  }

  ghost function HitCount(reses: ResMap, key: string, explain: bool, y: CFGResult): IdxLinkItem -> nat {
    link => multiset(LinkHits(reses, link, key, explain))[y]
  }

  lemma {:induction false} AllHitsTotal(reses: ResMap, links: seq<IdxLinkItem>, key: string, explain: bool,
      y: CFGResult)
    ensures multiset(AllHits(reses, links, key, explain))[y] == Total(HitCount(reses, key, explain, y), links)
  {
    if links != [] {
      AllHitsTotal(reses, links[..|links| - 1], key, explain, y);
    }
  }

  /** More links and more resources give more hits. */
  lemma AllHitsGrow(reses: ResMap, more: ResMap, b: seq<IdxLinkItem>, a: seq<IdxLinkItem>, key: string, explain: bool)
    requires multiset(b) <= multiset(a)
    requires forall k | k in reses :: k in more && reses[k] == more[k]
    ensures multiset(AllHits(reses, b, key, explain)) <= multiset(AllHits(more, a, key, explain))
  {
    forall y ensures multiset(AllHits(reses, b, key, explain))[y] <= multiset(AllHits(more, a, key, explain))[y] {
      AllHitsTotal(reses, b, key, explain, y);
      AllHitsTotal(more, a, key, explain, y);
      TotalGrows(HitCount(reses, key, explain, y), HitCount(more, key, explain, y), b, a);
    }
  }

  lemma {:induction false} AllLinkedGrows(reses: ResMap, more: ResMap, b: seq<IdxLinkItem>, a: seq<IdxLinkItem>,
      keys: seq<string>, explain: bool)
    requires multiset(b) <= multiset(a)
    requires forall k | k in reses :: k in more && reses[k] == more[k]
    ensures multiset(AllLinked(reses, b, keys, explain)) <= multiset(AllLinked(more, a, keys, explain))
  {
    if keys != [] {
      var n := |keys| - 1;
      AllLinkedGrows(reses, more, b, a, keys[..n], explain);
      AllHitsGrow(reses, more, b, a, keys[n], explain);
    }
  }

  /** The links filed in a namespace's index are those of an enclosing one whose
      link file lies below the namespace, filed under the same rules as often. */
  lemma LinksNest(root: Node, outer: Path, inner: Path, k: string, x: IdxLinkItem)
    requires ValidTree(root) && outer <= inner
    requires LoadIndices(root, outer).Some? && LoadIndices(root, inner).Some?
    ensures Occurrences(LoadIndices(root, inner).value.links, k, x)
         == if LinkFileBelow(root, inner, x.linkPath)
            then Occurrences(LoadIndices(root, outer).value.links, k, x) else 0
  {
    var o, i := LoadIndices(root, outer).value.links, LoadIndices(root, inner).value.links;
    var y := if NamesPath(x.rulePath, k) then x else IdxLinkItem(0.0, false, "path:/", "", "");
    var key := if NamesPath(x.rulePath, k) then k else "";
    LoadedLinksCount(root, outer, key, y);
    LoadedLinksCount(root, inner, key, y);
    if NamesPath(x.rulePath, k) {
      if LinkFileBelow(root, inner, x.linkPath) {
        var p, spec :| LinkFile(root, inner, p, spec) && PathText(p) == x.linkPath;
        LinkFilesNest(root, outer, inner, p, spec);
      }
    } else {
      NotFiled(o, k, x);
      NotFiled(i, k, x);
    }
  }

  lemma NotFiled(m: LinkMap, k: string, x: IdxLinkItem)
    requires Coherent(m) && !NamesPath(x.rulePath, k)
    ensures Occurrences(m, k, x) == 0
  {
    assert k in m ==> (x in m[k] <==> multiset(m[k])[x] > 0);
  }

  ghost predicate LinkFileBelow(root: Node, ns: Path, linkPath: string) {
    exists p, spec :: LinkFile(root, ns, p, spec) && PathText(p) == linkPath
  }

  // Which trees load

  /** An index loads exactly when all it is loaded from is there and good. */
  lemma LoadsIffGood(root: Node, ns: Path)
    requires ValidTree(root)
    ensures LoadIndices(root, ns).Some? <==> IsLoadable(root, ns)
  {
    LoadTreeSucceeds(LoadRule, Put<Condition>, map[], root, RULES, ns);
    LoadTreeSucceeds(DecodeLink, AddLink, map[], root, LINKS, ns);
    LoadTreeSucceeds(DecodeRes, Put<seq<KeyValuePair>>, map[], root, RESES, ns);
    forall blob ensures LoadRule(blob).Some? <==> GoodRule(blob) {
      RuleLoadsIffGood(blob);
    }
    assert forall blob :: DecodeLink(blob).Some? <==> GoodLink(blob);
    assert forall blob :: DecodeRes(blob).Some? <==> GoodRes(blob);
    CleanIsListed(LoadRule, root, RULES, ns);
    CleanIsListed(DecodeLink, root, LINKS, ns);
    CleanIsListed(DecodeRes, root, RESES, ns);
  }

  lemma CleanIsListed<T>(decode: Decode<T>, root: Node, kind: string, ns: Path)
    ensures Clean(decode, root, kind, ns) <==>
      CanBeListed(root, kind, ns) && forall p, blob | FileAt(root, kind, ns, p, blob) :: decode(blob).Some?
  {
  }

  lemma RuleLoadsIffGood(blob: Blob)
    ensures LoadRule(blob).Some? <==> GoodRule(blob)
  {
    if LoadRule(blob).Some? {
      ParserIsGrammar(blob.ruleText.value, LoadRule(blob).value);
    }
    if GoodRule(blob) {
      var c :| Derivable(blob.ruleText.value, c);
      ParserIsGrammar(blob.ruleText.value, c);
    }
  }

  /** A namespace restricts its enclosing one: its rules and resources are those
      of files below it, its links those of link files below it, and whatever it
      answers with all linked resources, the enclosing one answers too, at least as
      often. */
  lemma NamespaceRestricts(root: Node, outer: Path, inner: Path, whoami: MatchContext, keys: seq<string>,
      explain: bool, r: seq<CFGResult>, s: seq<CFGResult>)
    requires ValidTree(root) && outer <= inner
    requires LoadIndices(root, outer).Some? && LoadIndices(root, inner).Some?
    requires Answers(LoadIndices(root, outer).value, whoami, keys, AllLinkedResView, explain, r)
    requires Answers(LoadIndices(root, inner).value, whoami, keys, AllLinkedResView, explain, s)
    ensures var o, i := LoadIndices(root, outer).value, LoadIndices(root, inner).value;
      && (forall p | ValidPath(p) :: PathText(p) in i.rules <==> PathText(p) in o.rules && inner <= p && inner != p)
      && (forall p | ValidPath(p) :: PathText(p) in i.reses <==> PathText(p) in o.reses && inner <= p && inner != p)
      && (forall k | k in i.rules :: k in o.rules && i.rules[k] == o.rules[k])
      && (forall k | k in i.reses :: k in o.reses && i.reses[k] == o.reses[k])
      && (forall k, x :: Occurrences(i.links, k, x)
            == if LinkFileBelow(root, inner, x.linkPath) then Occurrences(o.links, k, x) else 0)
    ensures multiset(s) <= multiset(r)
  {
    var o, i := LoadIndices(root, outer).value, LoadIndices(root, inner).value;
    LoadedMapHolds(LoadRule, root, RULES, outer);
    LoadedMapHolds(LoadRule, root, RULES, inner);
    LoadedMapHolds(DecodeRes, root, RESES, outer);
    LoadedMapHolds(DecodeRes, root, RESES, inner);
    MapsNest(LoadRule, root, RULES, outer, inner, o.rules, i.rules);
    MapsNest(DecodeRes, root, RESES, outer, inner, o.reses, i.reses);
    forall k, x ensures Occurrences(i.links, k, x)
            == if LinkFileBelow(root, inner, x.linkPath) then Occurrences(o.links, k, x) else 0
    {
      LinksNest(root, outer, inner, k, x);
    }
    var a :| AreActive(o, whoami, a) && r == AllLinked(o.reses, a, keys, explain);
    var b :| AreActive(i, whoami, b) && s == AllLinked(i.reses, b, keys, explain);
    ActiveLinksNest(root, outer, inner, whoami, a, b);
    AllLinkedGrows(i.reses, o.reses, b, a, keys, explain);
  }
}
