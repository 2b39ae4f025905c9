/**
 Answering a query from an index (src/cfg_center/querier.rs): the links of the
 active rules, laid over each other by priority, or all of them.
 */
module Querier {
  import opened Common
  import opened RuleEngine
  import opened IndexData
  import opened CfgIndex

  datatype ViewMode = OverlaidView | AllLinkedResView

  datatype CFGResult = CFGResult(reason: Option<IdxLinkItem>, value: KeyValuePair)

  datatype Ordering = Less | Greater

  /** The comparator of the sort, which is not an order: of two links of the same
      priority and sign, each compares alike to the other. */
  function Compare(a: IdxLinkItem, b: IdxLinkItem): Ordering {
    if a.pri > b.pri then Less
    else if a.pri == b.pri then
      if a.isNeg then Less else Greater
    else Greater
  }

  /** `a` may stand before `b`: higher priority first, and negative links first
      within a priority. */
  predicate MayPrecede(a: IdxLinkItem, b: IdxLinkItem) {
    a.pri > b.pri || (a.pri == b.pri && (a.isNeg || !b.isNeg))
  }

  ghost predicate Sorted(links: seq<IdxLinkItem>) {
    forall i, j | 0 <= i < j < |links| :: MayPrecede(links[i], links[j])
  }

  /** The comparator answers `Less` only where the first may precede, and
      `Greater` only where the second may. */
  lemma CompareIsConsistent(a: IdxLinkItem, b: IdxLinkItem)
    ensures Compare(a, b) == Less ==> MayPrecede(a, b)
    ensures Compare(a, b) == Greater ==> MayPrecede(b, a)
    ensures Compare(a, b) == Compare(b, a) <==> a.pri == b.pri && a.isNeg == b.isNeg
  {
  }

  /** Sorting in place by insertion, asking the comparator only "is it `Less`?". */
  method SortLinks(links: array<IdxLinkItem>)
    modifies links
    ensures Sorted(links[..])
    ensures multiset(links[..]) == multiset(old(links[..]))
  {
    for i := 0 to links.Length
      invariant forall p, q | 0 <= p < q < i :: MayPrecede(links[p], links[q])
      invariant multiset(links[..]) == multiset(old(links[..]))
    {
      var j := i;
      while j > 0 && Compare(links[j], links[j - 1]) == Less
        invariant 0 <= j <= i && Inserting(links[..], i, j)
        invariant multiset(links[..]) == multiset(old(links[..]))
      {
        InsertingGoesOn(links[..], i, j);
        ghost var swapped := links[..][j - 1 := links[j]][j := links[j - 1]];
        links[j - 1], links[j] := links[j], links[j - 1];
        assert links[..] == swapped;
        j := j - 1;
      }
    }
  }

  /** The first `i + 1` links are sorted but for the one at `j`, which may precede
      those after it. */
  ghost predicate Inserting(links: seq<IdxLinkItem>, i: nat, j: nat)
    requires j <= i < |links|
  {
    && (forall p, q | 0 <= p < q <= i && p != j && q != j :: MayPrecede(links[p], links[q]))
    && (forall q | j < q <= i :: MayPrecede(links[j], links[q]))
  }

  lemma InsertingGoesOn(links: seq<IdxLinkItem>, i: nat, j: nat)
    requires 0 < j <= i < |links| && Inserting(links, i, j) && Compare(links[j], links[j - 1]) == Less
    ensures var swapped := links[j - 1 := links[j]][j := links[j - 1]];
      Inserting(swapped, i, j - 1) && multiset(swapped) == multiset(links)
  {
    CompareIsConsistent(links[j], links[j - 1]);
  }

  // The overlaid view

  function FirstHit(data: seq<KeyValuePair>, key: string): (r: Option<KeyValuePair>)
    ensures r.Some? ==> r.value in data && r.value.key == key
    ensures r.None? ==> forall kv | kv in data :: kv.key != key
  {
    if data == [] then None
    else if data[0].key == key then Some(data[0])
    else FirstHit(data[1..], key)
  }

  /** `data[i]` is the first item with the key. */
  predicate IsFirst(data: seq<KeyValuePair>, i: nat, key: string) {
    i < |data| && data[i].key == key && forall j | 0 <= j < i :: data[j].key != key
  }

  /** A hit is found iff it is the first item with the key. */
  lemma {:induction false} FirstHitIs(data: seq<KeyValuePair>, key: string, kv: KeyValuePair)
    ensures FirstHit(data, key) == Some(kv) <==> exists i: nat :: IsFirst(data, i, key) && data[i] == kv
  {
    if data != [] {
      if data[0].key == key {
        assert IsFirst(data, 0, key);
        assert forall i: nat | i > 0 :: !IsFirst(data, i, key);
      } else {
        FirstHitIs(data[1..], key, kv);
        FirstShifts(data, key);
        if i: nat :| IsFirst(data[1..], i, key) && data[1..][i] == kv {
          assert IsFirst(data, i + 1, key) && data[i + 1] == kv;
        }
        if i: nat :| IsFirst(data, i, key) && data[i] == kv {
          assert IsFirst(data[1..], i - 1, key) && data[1..][i - 1] == kv;
        }
      }
    }
  }

  lemma FirstShifts(data: seq<KeyValuePair>, key: string)
    requires data != [] && data[0].key != key
    ensures forall i: nat :: IsFirst(data[1..], i, key) <==> IsFirst(data, i + 1, key)
    ensures !IsFirst(data, 0, key)
  {
    forall i: nat ensures IsFirst(data[1..], i, key) <==> IsFirst(data, i + 1, key) {
      if IsFirst(data[1..], i, key) {
        assert forall j | 0 < j < i + 1 :: data[j] == data[1..][j - 1];
      }
      if IsFirst(data, i + 1, key) {
        assert forall j | 0 <= j < i :: data[1..][j] == data[j + 1];
      }
    }
  }

  function HitOf(reses: ResMap, link: IdxLinkItem, key: string): Option<KeyValuePair> {
    if link.absResPath in reses then FirstHit(reses[link.absResPath], key) else None
  }

  /** The first link that carries the key, and the item it carries. */
  function Pick(reses: ResMap, links: seq<IdxLinkItem>, key: string): Option<(IdxLinkItem, KeyValuePair)> {
    if links == [] then None
    else match HitOf(reses, links[0], key)
      case Some(kv) => Some((links[0], kv))
      case None => Pick(reses, links[1..], key)
  }

  function Explain(link: IdxLinkItem, needExplain: bool): Option<IdxLinkItem> {
    if needExplain then Some(link) else None
  }

  function Shown(pick: Option<(IdxLinkItem, KeyValuePair)>, needExplain: bool): seq<CFGResult> {
    match pick
    case None => []
    case Some((link, kv)) => if link.isNeg then [] else [CFGResult(Explain(link, needExplain), kv)]
  }

  /** The answers for the keys, in their order and as often as they are asked. */
  function Overlaid(reses: ResMap, links: seq<IdxLinkItem>, keys: seq<string>, needExplain: bool): seq<CFGResult> {
    if keys == [] then []
    else
      var n := |keys| - 1;
      Overlaid(reses, links, keys[..n], needExplain) + Shown(Pick(reses, links, keys[n]), needExplain)
  }

  method FetchResByOverlaidView(reses: ResMap, keys: seq<string>, links: array<IdxLinkItem>, needExplain: bool)
    returns (retBuf: seq<CFGResult>)
    modifies links
    ensures Sorted(links[..]) && multiset(links[..]) == multiset(old(links[..]))
    ensures retBuf == Overlaid(reses, links[..], keys, needExplain)
  {
    SortLinks(links);
    ghost var sorted := links[..];
    retBuf := [];
    for k := 0 to |keys|
      invariant links[..] == sorted
      invariant retBuf == Overlaid(reses, sorted, keys[..k], needExplain)
    {
      var key := keys[k];
      ghost var before := retBuf;
      assert keys[..k + 1][..k] == keys[..k] && sorted[0..] == sorted;
      label nextKey:
      for l := 0 to links.Length
        invariant links[..] == sorted && retBuf == before
        invariant Pick(reses, sorted, key) == Pick(reses, sorted[l..], key)
      {
        var link := links[l];
        assert sorted[l..][0] == link && sorted[l..][1..] == sorted[l + 1..];
        if link.absResPath in reses {
          var data := reses[link.absResPath];
          assert data[0..] == data;
          for m := 0 to |data|
            invariant links[..] == sorted && retBuf == before
            invariant FirstHit(data, key) == FirstHit(data[m..], key)
          {
            assert data[m..][1..] == data[m + 1..];
            if data[m].key == key {
              if !link.isNeg {
                retBuf := retBuf + [CFGResult(Explain(link, needExplain), data[m])];
              }
              break nextKey;
            }
          }
        }
      }
      assert retBuf == before + Shown(Pick(reses, sorted, key), needExplain);
    }
    assert keys[..|keys|] == keys;
  }

  // The view of all linked resources

  function Hits(link: IdxLinkItem, data: seq<KeyValuePair>, key: string, needExplain: bool): seq<CFGResult> {
    if data == [] then []
    else
      var n := |data| - 1;
      var hit := if data[n].key == key then [CFGResult(Explain(link, needExplain), data[n])] else [];
      Hits(link, data[..n], key, needExplain) + hit
  }

  function LinkHits(reses: ResMap, link: IdxLinkItem, key: string, needExplain: bool): seq<CFGResult> {
    if link.absResPath in reses then Hits(link, reses[link.absResPath], key, needExplain) else []
  }

  function AllHits(reses: ResMap, links: seq<IdxLinkItem>, key: string, needExplain: bool): seq<CFGResult> {
    if links == [] then []
    else
      var n := |links| - 1;
      AllHits(reses, links[..n], key, needExplain) + LinkHits(reses, links[n], key, needExplain)
  }

  function AllLinked(reses: ResMap, links: seq<IdxLinkItem>, keys: seq<string>, needExplain: bool): seq<CFGResult> {
    if keys == [] then []
    else
      var n := |keys| - 1;
      AllLinked(reses, links, keys[..n], needExplain) + AllHits(reses, links, keys[n], needExplain)
  }

  lemma HitsStep(link: IdxLinkItem, data: seq<KeyValuePair>, m: nat, key: string, needExplain: bool,
      before: seq<CFGResult>)
    requires m < |data|
    ensures before + Hits(link, data[..m + 1], key, needExplain)
         == before + Hits(link, data[..m], key, needExplain)
            + if data[m].key == key then [CFGResult(Explain(link, needExplain), data[m])] else []
  {
    assert data[..m + 1][..m] == data[..m];
  }

  lemma AllHitsStep(reses: ResMap, links: seq<IdxLinkItem>, l: nat, key: string, needExplain: bool,
      before: seq<CFGResult>)
    requires l < |links|
    ensures before + AllHits(reses, links[..l + 1], key, needExplain)
         == before + AllHits(reses, links[..l], key, needExplain) + LinkHits(reses, links[l], key, needExplain)
  {
    assert links[..l + 1][..l] == links[..l];
  }

  /** The innermost loop: the items of one resource that have the key. */
  method PushHits(buf: seq<CFGResult>, link: IdxLinkItem, data: seq<KeyValuePair>, key: string, needExplain: bool)
    returns (retBuf: seq<CFGResult>)
    ensures retBuf == buf + Hits(link, data, key, needExplain)
  {
    retBuf := buf;
    for m := 0 to |data|
      invariant retBuf == buf + Hits(link, data[..m], key, needExplain)
    {
      HitsStep(link, data, m, key, needExplain, buf);
      if data[m].key == key {
        retBuf := retBuf + [CFGResult(Explain(link, needExplain), data[m])];
      }
    }
    assert data[..|data|] == data;
  }

  method FetchResByAllLinkedResView(reses: ResMap, keys: seq<string>, links: seq<IdxLinkItem>, needExplain: bool)
    returns (retBuf: seq<CFGResult>)
    ensures retBuf == AllLinked(reses, links, keys, needExplain)
  {
    retBuf := [];
    for k := 0 to |keys|
      invariant retBuf == AllLinked(reses, links, keys[..k], needExplain)
    {
      ghost var before := retBuf;
      assert keys[..k + 1][..k] == keys[..k];
      for l := 0 to |links|
        invariant retBuf == before + AllHits(reses, links[..l], keys[k], needExplain)
      {
        AllHitsStep(reses, links, l, keys[k], needExplain, before);
        if links[l].absResPath in reses {
          retBuf := PushHits(retBuf, links[l], reses[links[l].absResPath], keys[k], needExplain);
        }
      }
      assert links[..|links|] == links;
    }
    assert keys[..|keys|] == keys;
  }

  // Active links and whole queries

  /** What the loader guarantees of an index: rules evaluate, links are filed by rule. */
  ghost predicate Ready(ind: Indices) {
    Coherent(ind.links) && forall k | k in ind.rules :: Binary(ind.rules[k])
  }

  ghost predicate RuleHolds(ind: Indices, whoami: MatchContext, key: string) {
    key in ind.rules && Holds(ind.rules[key], whoami)
  }

  /** How often `x` is among the links of the rules in `keys` that hold. */
  ghost function ActiveCount(ind: Indices, whoami: MatchContext, keys: set<string>, x: IdxLinkItem): nat {
    if |x.rulePath| >= 6 && RemovePathTypePrefix(x.rulePath) in keys
       && RuleHolds(ind, whoami, RemovePathTypePrefix(x.rulePath)) then
      Occurrences(ind.links, RemovePathTypePrefix(x.rulePath), x)
    else 0
  }

  /** `links` are the links of the rules that hold, in any order. */
  ghost predicate AreActive(ind: Indices, whoami: MatchContext, links: seq<IdxLinkItem>) {
    forall x :: multiset(links)[x] == ActiveCount(ind, whoami, ind.rules.Keys, x)
  }

  /** An answer the querier can give; the order of the index's map of rules is free. */
  ghost predicate Answers(ind: Indices, whoami: MatchContext, keys: seq<string>, view: ViewMode, needExplain: bool,
      ret: seq<CFGResult>)
  {
    exists links :: AreActive(ind, whoami, links) &&
      if view == OverlaidView then Sorted(links) && ret == Overlaid(ind.reses, links, keys, needExplain)
      else ret == AllLinked(ind.reses, links, keys, needExplain)
  }

  lemma ActiveCountStep(ind: Indices, whoami: MatchContext, done: set<string>, key: string, act: seq<IdxLinkItem>)
    requires Ready(ind) && key in ind.rules && key !in done
    requires forall x :: multiset(act)[x] == ActiveCount(ind, whoami, done, x)
    ensures var more := if RuleHolds(ind, whoami, key) && key in ind.links then ind.links[key] else [];
      forall x :: multiset(act + more)[x] == ActiveCount(ind, whoami, done + {key}, x)
  {
    var more := if RuleHolds(ind, whoami, key) && key in ind.links then ind.links[key] else [];
    forall x ensures multiset(act + more)[x] == ActiveCount(ind, whoami, done + {key}, x) {
      assert multiset(act + more)[x] == multiset(act)[x] + multiset(more)[x];
      assert multiset(act)[x] == ActiveCount(ind, whoami, done, x);
      assert x in more ==> |x.rulePath| >= 6 && RemovePathTypePrefix(x.rulePath) == key;
    }
  }

  /** The walk over the rules, in an order of the map's choosing. */
  method ActiveLinks(ind: Indices, whoami: MatchContext) returns (actLinks: seq<IdxLinkItem>)
    requires Ready(ind)
    ensures AreActive(ind, whoami, actLinks)
  {
    actLinks := [];
    var pending := ind.rules.Keys;
    while pending != {}
      invariant pending <= ind.rules.Keys
      invariant forall x :: multiset(actLinks)[x] == ActiveCount(ind, whoami, ind.rules.Keys - pending, x)
    {
      var key :| key in pending;
      EvalDecides(ind.rules[key], whoami);
      ActiveCountStep(ind, whoami, ind.rules.Keys - pending, key, actLinks);
      pending := pending - {key};
      assert ind.rules.Keys - pending == (ind.rules.Keys - (pending + {key})) + {key};
      if Eval(ind.rules[key], whoami) == Some(true) && key in ind.links {
        ghost var before := actLinks;
        var links := ind.links[key];
        for l := 0 to |links|
          invariant actLinks == before + links[..l]
        {
          actLinks := actLinks + [links[l]];
        }
        assert links[..|links|] == links;
      } else {
        assert actLinks + [] == actLinks;
      }
    }
    assert ind.rules.Keys - {} == ind.rules.Keys;
  }

  method Get(ind: Indices, whoami: MatchContext, keys: seq<string>, view: ViewMode, needExplain: bool)
    returns (ret: seq<CFGResult>)
    requires Ready(ind)
    ensures Answers(ind, whoami, keys, view, needExplain, ret)
  {
    var actLinks := ActiveLinks(ind, whoami);
    if |actLinks| == 0 {
      NothingLinked(ind.reses, keys, needExplain);
      assert AreActive(ind, whoami, []);
      return [];
    }
    match view
    case OverlaidView =>
      var links := new IdxLinkItem[|actLinks|](i requires 0 <= i < |actLinks| => actLinks[i]);
      assert links[..] == actLinks;
      ret := FetchResByOverlaidView(ind.reses, keys, links, needExplain);
      assert AreActive(ind, whoami, links[..]);
    case AllLinkedResView =>
      ret := FetchResByAllLinkedResView(ind.reses, keys, actLinks, needExplain);
  }

  lemma {:induction false} NothingLinked(reses: ResMap, keys: seq<string>, needExplain: bool)
    ensures Overlaid(reses, [], keys, needExplain) == [] && AllLinked(reses, [], keys, needExplain) == []
  {
    if keys != [] {
      NothingLinked(reses, keys[..|keys| - 1], needExplain);
    }
  }
}
