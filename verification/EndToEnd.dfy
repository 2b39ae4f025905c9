/**
 The answers of a query, in either view, told from the files of the version's tree
 alone: no index, no iteration order and no sort appears in the main statements.
 */
module EndToEnd {
  import opened Common
  import opened RuleEngine
  import opened Model
  import opened Storage
  import opened IndexData
  import opened Files
  import opened CfgIndex
  import opened Querier
  import opened Overlay
  import opened Refinement
  import opened LinkedOrder

  /** A link file below `ns` gives `x` to the client. */
  ghost predicate LinkFileGives(root: Node, ns: Path, whoami: MatchContext, x: IdxLinkItem) {
    exists p, spec :: LinkFile(root, ns, p, spec) && PathText(p) == x.linkPath
      && TimesGiven(root, ns, whoami, spec, x) > 0
  }

  /** `kv` is the first item with the key in the resource file named `res`. */
  ghost predicate FirstInFile(root: Node, ns: Path, res: string, key: string, kv: KeyValuePair) {
    exists q, items, i: nat :: ResFile(root, ns, q, items) && PathText(q) == res && IsFirstItem(items, i, key, kv)
  }

  /** A pair of an active link file and a resource file with the key. */
  ghost predicate FileCarrier(root: Node, ns: Path, whoami: MatchContext, key: string, x: IdxLinkItem) {
    && LinkFileGives(root, ns, whoami, x)
    && (exists kv :: FirstInFile(root, ns, x.absResPath, key, kv))
  }

  ghost predicate TopFileCarrier(root: Node, ns: Path, whoami: MatchContext, key: string, x: IdxLinkItem) {
    FileCarrier(root, ns, whoami, key, x)
    && forall y :: FileCarrier(root, ns, whoami, key, y) ==> y.pri <= x.pri
  }

  /** What the files say the answer for one key is. */
  ghost predicate ShownFromFiles(root: Node, ns: Path, whoami: MatchContext, key: string, explain: bool,
      part: seq<CFGResult>)
  {
    if part == [] then
      || (forall x :: !FileCarrier(root, ns, whoami, key, x))
      || (exists n: IdxLinkItem :: n.isNeg && TopFileCarrier(root, ns, whoami, key, n))
    else
      && |part| == 1 && (exists link :: Wins(root, ns, whoami, key, explain, part[0], link))
      && (forall n: IdxLinkItem | n.isNeg :: !TopFileCarrier(root, ns, whoami, key, n))
  }

  /** The result is the first item with the key that a positive link at the top
      attaches, and its explanation, if asked for, is that link. */
  ghost predicate Wins(root: Node, ns: Path, whoami: MatchContext, key: string, explain: bool, y: CFGResult,
      link: IdxLinkItem)
  {
    && y.reason == (if explain then Some(link) else None) && !link.isNeg && TopFileCarrier(root, ns, whoami, key, link)
    && FirstInFile(root, ns, link.absResPath, key, y.value)
  }

  lemma ActiveIsGiven(root: Node, ns: Path, whoami: MatchContext, act: seq<IdxLinkItem>, x: IdxLinkItem)
    requires ValidTree(root) && LoadIndices(root, ns).Some?
    requires AreActive(LoadIndices(root, ns).value, whoami, act)
    ensures x in act <==> LinkFileGives(root, ns, whoami, x)
  {
    ActiveLinksAreDeclared(root, ns, whoami, act, x);
  }

  /** The resources of an index are the items of the resource files, by their names. */
  lemma ResourcesAreFiles(root: Node, ns: Path, res: string)
    requires ValidTree(root) && LoadIndices(root, ns).Some?
    ensures forall q, items | ResFile(root, ns, q, items) && PathText(q) == res ::
      res in LoadIndices(root, ns).value.reses && LoadIndices(root, ns).value.reses[res] == Pairs(items)
    ensures res in LoadIndices(root, ns).value.reses ==>
      exists q, items :: ResFile(root, ns, q, items) && PathText(q) == res
  {
    var reses := LoadIndices(root, ns).value.reses;
    LoadedMapHolds(DecodeRes, root, RESES, ns);
    forall q, items | ResFile(root, ns, q, items) && PathText(q) == res
      ensures res in reses && reses[res] == Pairs(items)
    {
      var blob :| FileAt(root, "reses", ns, q, blob) && blob.res == Some(items);
      assert DecodeRes(blob) == Some(reses[PathText(q)]);
    }
    if res in reses {
      var q, blob :| FileAt(root, RESES, ns, q, blob) && PathText(q) == res;
      assert DecodeRes(blob) == Some(reses[PathText(q)]);
      assert ResFile(root, ns, q, blob.res.value);
    }
  }

  lemma FirstOfPairs(items: seq<ResSpecItem>, i: nat, key: string, kv: KeyValuePair)
    ensures IsFirst(Pairs(items), i, key) && Pairs(items)[i] == kv <==> IsFirstItem(items, i, key, kv)
  {
  }

  lemma HitIsInFile(root: Node, ns: Path, x: IdxLinkItem, key: string, kv: KeyValuePair)
    requires ValidTree(root) && LoadIndices(root, ns).Some?
    ensures HasFirst(LoadIndices(root, ns).value.reses, x, key, kv) <==> FirstInFile(root, ns, x.absResPath, key, kv)
  {
    var reses := LoadIndices(root, ns).value.reses;
    ResourcesAreFiles(root, ns, x.absResPath);
    if HasFirst(reses, x, key, kv) {
      var q, items :| ResFile(root, ns, q, items) && PathText(q) == x.absResPath;
      var i: nat :| IsFirst(Pairs(items), i, key) && Pairs(items)[i] == kv;
      FirstOfPairs(items, i, key, kv);
    }
    if FirstInFile(root, ns, x.absResPath, key, kv) {
      var q, items, i: nat :| ResFile(root, ns, q, items) && PathText(q) == x.absResPath
        && IsFirstItem(items, i, key, kv);
      FirstOfPairs(items, i, key, kv);
    }
  }

  lemma CarriersAreFileCarriers(root: Node, ns: Path, whoami: MatchContext, act: seq<IdxLinkItem>, key: string,
      x: IdxLinkItem)
    requires ValidTree(root) && LoadIndices(root, ns).Some?
    requires AreActive(LoadIndices(root, ns).value, whoami, act)
    ensures x in act && Carries(LoadIndices(root, ns).value.reses, x, key) <==> FileCarrier(root, ns, whoami, key, x)
  {
    var reses := LoadIndices(root, ns).value.reses;
    ActiveIsGiven(root, ns, whoami, act, x);
    HitsAreCarried(reses, x, key);
    if Carries(reses, x, key) {
      HitIsFirst(reses, x, key, HitOf(reses, x, key).value);
      HitIsInFile(root, ns, x, key, HitOf(reses, x, key).value);
    }
    if kv :| FirstInFile(root, ns, x.absResPath, key, kv) {
      HitIsInFile(root, ns, x, key, kv);
      HitIsFirst(reses, x, key, kv);
    }
  }

  /** A pick among links and resources that are as the files say is what the files say. */
  lemma PickIsTold(root: Node, ns: Path, whoami: MatchContext, reses: ResMap, links: seq<IdxLinkItem>, key: string,
      explain: bool)
    requires Sorted(links)
    requires forall x :: x in links && Carries(reses, x, key) <==> FileCarrier(root, ns, whoami, key, x)
    requires forall x, kv :: HasFirst(reses, x, key, kv) <==> FirstInFile(root, ns, x.absResPath, key, kv)
    ensures ShownFromFiles(root, ns, whoami, key, explain, Shown(Pick(reses, links, key), explain))
  {
    SortedPickIsOverlay(reses, links, key);
    forall x ensures AtTop(reses, links, key, x) <==> TopFileCarrier(root, ns, whoami, key, x) {}
    var shown, part := Positive(Pick(reses, links, key)), Shown(Pick(reses, links, key), explain);
    if shown.Some? {
      var (link, kv) := shown.value;
      assert part == [CFGResult(Explain(link, explain), kv)];
      assert HasFirst(reses, link, key, kv) && AtTop(reses, links, key, link);
      assert Wins(root, ns, whoami, key, explain, part[0], link);
      assert forall n: IdxLinkItem | n.isNeg && TopFileCarrier(root, ns, whoami, key, n) :: n in links;
    } else {
      assert part == [];
      if n :| n in links && n.isNeg && AtTop(reses, links, key, n) {
        assert TopFileCarrier(root, ns, whoami, key, n);
      }
    }
  }

  lemma PickIsFromFiles(root: Node, ns: Path, whoami: MatchContext, links: seq<IdxLinkItem>, key: string, explain: bool)
    requires ValidTree(root) && LoadIndices(root, ns).Some?
    requires AreActive(LoadIndices(root, ns).value, whoami, links) && Sorted(links)
    ensures ShownFromFiles(root, ns, whoami, key, explain,
                           Shown(Pick(LoadIndices(root, ns).value.reses, links, key), explain))
  {
    var reses := LoadIndices(root, ns).value.reses;
    forall x ensures x in links && Carries(reses, x, key) <==> FileCarrier(root, ns, whoami, key, x) {
      CarriersAreFileCarriers(root, ns, whoami, links, key, x);
    }
    forall x, kv ensures HasFirst(reses, x, key, kv) <==> FirstInFile(root, ns, x.absResPath, key, kv) {
      HitIsInFile(root, ns, x, key, kv);
    }
    PickIsTold(root, ns, whoami, reses, links, key, explain);
  }

  function Joined(parts: seq<seq<CFGResult>>): seq<CFGResult> {
    if parts == [] then [] else Joined(parts[..|parts| - 1]) + parts[|parts| - 1]
  }

  /** Every answer of the overlaid view consists, key by key, of what the files say. */
  lemma OverlaidFromFiles(root: Node, ns: Path, whoami: MatchContext, keys: seq<string>, explain: bool,
      ret: seq<CFGResult>)
    returns (parts: seq<seq<CFGResult>>)
    requires ValidTree(root) && LoadIndices(root, ns).Some?
    requires Answers(LoadIndices(root, ns).value, whoami, keys, OverlaidView, explain, ret)
    ensures |parts| == |keys| && ret == Joined(parts)
    ensures forall k | 0 <= k < |keys| :: ShownFromFiles(root, ns, whoami, keys[k], explain, parts[k])
  {
    var ind := LoadIndices(root, ns).value;
    var links :| AreActive(ind, whoami, links) && Sorted(links) && ret == Overlaid(ind.reses, links, keys, explain);
    parts := PartsOf(ind.reses, links, keys, explain);
    PartsJoin(ind.reses, links, keys, explain);
    forall k | 0 <= k < |keys| ensures ShownFromFiles(root, ns, whoami, keys[k], explain, parts[k]) {
      PickIsFromFiles(root, ns, whoami, links, keys[k], explain);
    }
  }

  /** What is shown for each key. */
  function PartsOf(reses: ResMap, links: seq<IdxLinkItem>, keys: seq<string>, explain: bool): seq<seq<CFGResult>> {
    seq(|keys|, k requires 0 <= k < |keys| => Shown(Pick(reses, links, keys[k]), explain))
  }

  lemma {:induction false} PartsJoin(reses: ResMap, links: seq<IdxLinkItem>, keys: seq<string>, explain: bool)
    ensures Overlaid(reses, links, keys, explain) == Joined(PartsOf(reses, links, keys, explain))
  {
    if keys != [] {
      var n := |keys| - 1;
      PartsJoin(reses, links, keys[..n], explain);
      assert PartsOf(reses, links, keys, explain)[..n] == PartsOf(reses, links, keys[..n], explain);
    }
  }

  // The view of all linked resources

  /** How often an item is in a loaded resource. */
  ghost function ItemCount(reses: ResMap, res: string, kv: KeyValuePair): nat {
    if res in reses then multiset(reses[res])[kv] else 0
  }

  lemma {:induction false} HitsCount(link: IdxLinkItem, data: seq<KeyValuePair>, key: string, x: IdxLinkItem,
      kv: KeyValuePair)
    ensures multiset(Hits(link, data, key, true))[CFGResult(Some(x), kv)]
         == if link == x && kv.key == key then multiset(data)[kv] else 0
  {
    if data != [] {
      var n := |data| - 1;
      var y := CFGResult(Some(x), kv);
      var hit := if data[n].key == key then [CFGResult(Some(link), data[n])] else [];
      HitsCount(link, data[..n], key, x, kv);
      LastCounts(data, kv);
      assert Hits(link, data, key, true) == Hits(link, data[..n], key, true) + hit;
      assert multiset(hit)[y] == if data[n].key == key && link == x && data[n] == kv then 1 else 0;
    }
  }

  lemma {:induction false} AllHitsCount(reses: ResMap, links: seq<IdxLinkItem>, key: string, x: IdxLinkItem,
      kv: KeyValuePair)
    ensures multiset(AllHits(reses, links, key, true))[CFGResult(Some(x), kv)]
         == if kv.key == key then PairCount(reses, links, x, kv) else 0
  {
    if links != [] {
      var n := |links| - 1;
      AllHitsCount(reses, links[..n], key, x, kv);
      LinkHitsCount(reses, links[n], key, x, kv);
      LastCountsTimes(links, x, ItemCount(reses, x.absResPath, kv));
    }
  }

  lemma LinkHitsCount(reses: ResMap, link: IdxLinkItem, key: string, x: IdxLinkItem, kv: KeyValuePair)
    ensures multiset(LinkHits(reses, link, key, true))[CFGResult(Some(x), kv)]
         == if link == x && kv.key == key then ItemCount(reses, x.absResPath, kv) else 0
  {
    if link.absResPath in reses {
      HitsCount(link, reses[link.absResPath], key, x, kv);
    }
  }

  lemma LastCountsTimes<T(!new)>(s: seq<T>, t: T, c: nat)
    requires s != []
    ensures var n := |s| - 1;
      multiset(s)[t] * c == multiset(s[..n])[t] * c + if s[n] == t then c else 0
  {
    LastCounts(s, t);
  }

  /** How often links and resources pair `x` with `kv`. */
  ghost function PairCount(reses: ResMap, links: seq<IdxLinkItem>, x: IdxLinkItem, kv: KeyValuePair): nat {
    multiset(links)[x] * ItemCount(reses, x.absResPath, kv)
  }

  lemma {:induction false} AllLinkedCount(reses: ResMap, links: seq<IdxLinkItem>, keys: seq<string>, x: IdxLinkItem,
      kv: KeyValuePair)
    ensures multiset(AllLinked(reses, links, keys, true))[CFGResult(Some(x), kv)]
         == multiset(keys)[kv.key] * PairCount(reses, links, x, kv)
  {
    if keys != [] {
      var n := |keys| - 1;
      AllLinkedCount(reses, links, keys[..n], x, kv);
      AllHitsCount(reses, links, keys[n], x, kv);
      LastCountsTimes(keys, kv.key, PairCount(reses, links, x, kv));
    }
  }

  lemma {:induction false} HeldInPairs(items: seq<ResSpecItem>, kv: KeyValuePair)
    ensures multiset(Pairs(items))[kv] == TimesHeld(items, kv)
  {
    if items != [] {
      HeldInPairs(items[1..], kv);
      var first := KeyValuePair(items[0].contentType, items[0].key, items[0].data);
      assert Pairs(items) == [first] + Pairs(items[1..]);
    }
  }

  /** The view of all linked resources has a result for the item `kv` through the
      link `x` once for each time that the request has the key, the link file of
      `x` gives it, and the resource file has the item. */
  lemma AllLinkedFromFiles(root: Node, ns: Path, whoami: MatchContext, keys: seq<string>, ret: seq<CFGResult>,
      x: IdxLinkItem, kv: KeyValuePair)
    requires ValidTree(root) && LoadIndices(root, ns).Some?
    requires Answers(LoadIndices(root, ns).value, whoami, keys, AllLinkedResView, true, ret)
    ensures forall p, spec, q, items | LinkFile(root, ns, p, spec) && PathText(p) == x.linkPath
        && ResFile(root, ns, q, items) && PathText(q) == x.absResPath ::
      multiset(ret)[CFGResult(Some(x), kv)]
      == multiset(keys)[kv.key] * (TimesGiven(root, ns, whoami, spec, x) * TimesHeld(items, kv))
    ensures CFGResult(Some(x), kv) in ret ==>
      && (exists p, spec :: LinkFile(root, ns, p, spec) && PathText(p) == x.linkPath)
      && (exists q, items :: ResFile(root, ns, q, items) && PathText(q) == x.absResPath)
    ensures forall y | y in ret :: y.reason.Some?
  {
    var ind := LoadIndices(root, ns).value;
    var links :| AreActive(ind, whoami, links) && ret == AllLinked(ind.reses, links, keys, true);
    ResourcesAreFiles(root, ns, x.absResPath);
    ActiveLinksAreDeclared(root, ns, whoami, links, x);
    InAllLinked(ind.reses, links, keys, x, kv);
    AllLinkedCount(ind.reses, links, keys, x, kv);
    forall q, items | ResFile(root, ns, q, items) && PathText(q) == x.absResPath
      ensures ItemCount(ind.reses, x.absResPath, kv) == TimesHeld(items, kv)
    {
      HeldInPairs(items, kv);
    }
    AllExplained(ind.reses, links, keys);
  }

  lemma AllExplained(reses: ResMap, links: seq<IdxLinkItem>, keys: seq<string>)
    ensures forall y | y in AllLinked(reses, links, keys, true) :: y.reason.Some?
  {
    var places := AllLinkedInOrder(reses, links, keys, true);
  }

  lemma InAllLinked(reses: ResMap, links: seq<IdxLinkItem>, keys: seq<string>, x: IdxLinkItem, kv: KeyValuePair)
    ensures CFGResult(Some(x), kv) in AllLinked(reses, links, keys, true) ==>
      multiset(links)[x] > 0 && ItemCount(reses, x.absResPath, kv) > 0
  {
    var ret := AllLinked(reses, links, keys, true);
    if CFGResult(Some(x), kv) in ret {
      AllLinkedCount(reses, links, keys, x, kv);
      assert multiset(ret)[CFGResult(Some(x), kv)] > 0;
      Factors(multiset(keys)[kv.key], PairCount(reses, links, x, kv));
      Factors(multiset(links)[x], ItemCount(reses, x.absResPath, kv));
    }
  }

  lemma Factors(a: nat, b: nat)
    requires a * b > 0
    ensures a > 0 && b > 0
  {
  }

  /** Any two answers to a query for all linked resources have the same results
      equally often. */
  lemma AllLinkedAgree(ind: Indices, whoami: MatchContext, keys: seq<string>, explain: bool, r: seq<CFGResult>,
      s: seq<CFGResult>)
    requires Answers(ind, whoami, keys, AllLinkedResView, explain, r)
      && Answers(ind, whoami, keys, AllLinkedResView, explain, s)
    ensures multiset(r) == multiset(s)
  {
    var a :| AreActive(ind, whoami, a) && r == AllLinked(ind.reses, a, keys, explain);
    var b :| AreActive(ind, whoami, b) && s == AllLinked(ind.reses, b, keys, explain);
    ActiveAreSame(ind, whoami, a, b);
    AllLinkedGrows(ind.reses, ind.reses, b, a, keys, explain);
    AllLinkedGrows(ind.reses, ind.reses, a, b, keys, explain);
  }

  /** Without explanations the view has the results that it has with them, in order. */
  lemma LinkedWithoutReasons(ind: Indices, whoami: MatchContext, keys: seq<string>, ret: seq<CFGResult>)
    returns (told: seq<CFGResult>)
    requires Answers(ind, whoami, keys, AllLinkedResView, false, ret)
    ensures Answers(ind, whoami, keys, AllLinkedResView, true, told) && ret == Plain(told)
  {
    var links :| AreActive(ind, whoami, links) && ret == AllLinked(ind.reses, links, keys, false);
    told := AllLinked(ind.reses, links, keys, true);
    LinkedReasonsOnlyAdd(ind.reses, links, keys);
  }

  lemma {:induction false} LinkedReasonsOnlyAdd(reses: ResMap, links: seq<IdxLinkItem>, keys: seq<string>)
    ensures AllLinked(reses, links, keys, false) == Plain(AllLinked(reses, links, keys, true))
  {
    if keys != [] {
      var n := |keys| - 1;
      LinkedReasonsOnlyAdd(reses, links, keys[..n]);
      AllHitsPlain(reses, links, keys[n]);
      PlainAppend(AllLinked(reses, links, keys[..n], true), AllHits(reses, links, keys[n], true));
    }
  }

  /** Results without their explanations. */
  function Plain(ret: seq<CFGResult>): seq<CFGResult> {
    if ret == [] then [] else Plain(ret[..|ret| - 1]) + [CFGResult(None, ret[|ret| - 1].value)]
  }

  lemma {:induction false} PlainAppend(a: seq<CFGResult>, b: seq<CFGResult>)
    ensures Plain(a + b) == Plain(a) + Plain(b)
  {
    if b == [] {
      assert a + b == a;
    } else {
      assert (a + b)[..|a + b| - 1] == a + b[..|b| - 1];
      PlainAppend(a, b[..|b| - 1]);
    }
  }

  lemma {:induction false} HitsPlain(link: IdxLinkItem, data: seq<KeyValuePair>, key: string)
    ensures Hits(link, data, key, false) == Plain(Hits(link, data, key, true))
  {
    if data != [] {
      var n := |data| - 1;
      HitsPlain(link, data[..n], key);
      var hit := if data[n].key == key then [CFGResult(Some(link), data[n])] else [];
      PlainAppend(Hits(link, data[..n], key, true), hit);
    }
  }

  lemma {:induction false} AllHitsPlain(reses: ResMap, links: seq<IdxLinkItem>, key: string)
    ensures AllHits(reses, links, key, false) == Plain(AllHits(reses, links, key, true))
  {
    if links != [] {
      var n := |links| - 1;
      AllHitsPlain(reses, links[..n], key);
      if links[n].absResPath in reses {
        HitsPlain(links[n], reses[links[n].absResPath], key);
      }
      PlainAppend(AllHits(reses, links[..n], key, true), LinkHits(reses, links[n], key, true));
    }
  }
}
