/**
 What an overlaid answer means, without sorting: the links that carry a key, the
 highest priority among them, and whether a negative link stands there.
 */
module Overlay {
  import opened Common
  import opened RuleEngine
  import opened IndexData
  import opened CfgIndex
  import opened Querier

  type Outcome = Option<(IdxLinkItem, KeyValuePair)>

  predicate Carries(reses: ResMap, link: IdxLinkItem, key: string) {
    link.absResPath in reses && exists kv | kv in reses[link.absResPath] :: kv.key == key
  }

  lemma HitsAreCarried(reses: ResMap, link: IdxLinkItem, key: string)
    ensures HitOf(reses, link, key).Some? <==> Carries(reses, link, key)
  {
  }

  /** `kv` is the first item with the key in the link's resource. */
  ghost predicate HasFirst(reses: ResMap, link: IdxLinkItem, key: string, kv: KeyValuePair) {
    link.absResPath in reses
    && exists i: nat :: IsFirst(reses[link.absResPath], i, key) && reses[link.absResPath][i] == kv
  }

  lemma HitIsFirst(reses: ResMap, link: IdxLinkItem, key: string, kv: KeyValuePair)
    ensures HitOf(reses, link, key) == Some(kv) <==> HasFirst(reses, link, key, kv)
  {
    if link.absResPath in reses {
      FirstHitIs(reses[link.absResPath], key, kv);
    }
  }

  lemma OneIsFirst(reses: ResMap, link: IdxLinkItem, key: string, kv: KeyValuePair, kv': KeyValuePair)
    requires HasFirst(reses, link, key, kv) && HasFirst(reses, link, key, kv')
    ensures kv == kv'
  {
    HitIsFirst(reses, link, key, kv);
    HitIsFirst(reses, link, key, kv');
  }

  /** A carrier of the key that no other carrier outranks. */
  ghost predicate AtTop(reses: ResMap, links: seq<IdxLinkItem>, key: string, link: IdxLinkItem) {
    && link in links && Carries(reses, link, key)
    && forall c | c in links && Carries(reses, c, key) :: c.pri <= link.pri
  }

  /** What a query should show for a key: nothing when nothing carries it or a
      negative carrier stands at the top; otherwise the first matching item of a
      positive carrier at the top. */
  ghost predicate IsOverlay(reses: ResMap, links: seq<IdxLinkItem>, key: string, shown: Outcome) {
    match shown
    case None =>
      || (forall c | c in links :: !Carries(reses, c, key))
      || (exists n | n in links :: n.isNeg && AtTop(reses, links, key, n))
    case Some((link, kv)) =>
      && !link.isNeg && AtTop(reses, links, key, link) && HasFirst(reses, link, key, kv)
      && (forall n | n in links && n.isNeg :: !AtTop(reses, links, key, n))
  }

  function Positive(pick: Outcome): Outcome {
    if pick.Some? && pick.value.0.isNeg then None else pick
  }

  /** The first match in a list: a carrier that no carrier may only follow. */
  lemma {:induction false} PickIsFirst(reses: ResMap, links: seq<IdxLinkItem>, key: string)
    requires Sorted(links)
    ensures Pick(reses, links, key).None? <==> forall c | c in links :: !Carries(reses, c, key)
    ensures Pick(reses, links, key).Some? ==>
      var (link, kv) := Pick(reses, links, key).value;
      && link in links && HitOf(reses, link, key) == Some(kv)
      && forall c | c in links && Carries(reses, c, key) :: c == link || MayPrecede(link, c)
  {
    if links != [] {
      HitsAreCarried(reses, links[0], key);
      PickIsFirst(reses, links[1..], key);
      assert forall c :: c in links <==> c == links[0] || c in links[1..];
    }
  }

  /** On sorted links, taking the first match is the overlay. */
  lemma SortedPickIsOverlay(reses: ResMap, links: seq<IdxLinkItem>, key: string)
    requires Sorted(links)
    ensures IsOverlay(reses, links, key, Positive(Pick(reses, links, key)))
  {
    PickIsFirst(reses, links, key);
    var pick := Pick(reses, links, key);
    if pick.Some? {
      var (link, kv) := pick.value;
      HitsAreCarried(reses, link, key);
      HitIsFirst(reses, link, key, kv);
      assert AtTop(reses, links, key, link);
    }
  }

  ghost predicate SameLinks(a: seq<IdxLinkItem>, b: seq<IdxLinkItem>) { forall l :: l in a <==> l in b }

  /** Only one positive link carries the key at the priority. */
  ghost predicate SoleCarrier(reses: ResMap, links: seq<IdxLinkItem>, key: string, pri: real) {
    forall c, d | c in links && d in links && !c.isNeg && !d.isNeg && c.pri == d.pri == pri
                  && Carries(reses, c, key) && Carries(reses, d, key) :: c == d
  }

  /** The order of the links decides at most between carriers of one priority. */
  lemma OverlayIsOrderFree(reses: ResMap, a: seq<IdxLinkItem>, b: seq<IdxLinkItem>, key: string, r: Outcome, s: Outcome)
    requires SameLinks(a, b) && IsOverlay(reses, a, key, r) && IsOverlay(reses, b, key, s)
    ensures r.Some? <==> s.Some?
    ensures r.Some? ==> r.value.0.pri == s.value.0.pri
    ensures r.Some? && SoleCarrier(reses, a, key, r.value.0.pri) ==> r == s
  {
    forall l ensures AtTop(reses, a, key, l) <==> AtTop(reses, b, key, l) {}
    if r.Some? && s.Some? && r.value.0 == s.value.0 {
      OneIsFirst(reses, r.value.0, key, r.value.1, s.value.1);
    }
  }

  /** Only one positive link carries the key at the highest priority. */
  ghost predicate SoleWinner(reses: ResMap, links: seq<IdxLinkItem>, key: string) {
    forall c, d | AtTop(reses, links, key, c) && AtTop(reses, links, key, d) && !c.isNeg && !d.isNeg :: c == d
  }

  lemma OneKeyAgrees(reses: ResMap, a: seq<IdxLinkItem>, b: seq<IdxLinkItem>, key: string, explain: bool)
    requires Sorted(a) && Sorted(b) && SameLinks(a, b)
    ensures var r, s := Shown(Pick(reses, a, key), explain), Shown(Pick(reses, b, key), explain);
      |r| == |s| && forall i | 0 <= i < |r| ::
        && r[i].value.key == s[i].value.key == key && r[i].reason.Some? == s[i].reason.Some? == explain
        && (explain ==> r[i].reason.value.pri == s[i].reason.value.pri)
        && (SoleWinner(reses, a, key) ==> r[i] == s[i])
  {
    SortedPickIsOverlay(reses, a, key);
    SortedPickIsOverlay(reses, b, key);
    OverlayIsOrderFree(reses, a, b, key, Positive(Pick(reses, a, key)), Positive(Pick(reses, b, key)));
    forall l ensures AtTop(reses, a, key, l) <==> AtTop(reses, b, key, l) {}
  }

  /** Two answers to one query, in any orders of the index's maps. */
  lemma {:induction false} AnswersAgree(reses: ResMap, a: seq<IdxLinkItem>, b: seq<IdxLinkItem>, keys: seq<string>,
      explain: bool)
    requires Sorted(a) && Sorted(b) && SameLinks(a, b)
    ensures var r, s := Overlaid(reses, a, keys, explain), Overlaid(reses, b, keys, explain);
      |r| == |s| && forall i | 0 <= i < |r| ::
        && r[i].value.key == s[i].value.key && r[i].reason.Some? == s[i].reason.Some? == explain
        && (explain ==> r[i].reason.value.pri == s[i].reason.value.pri)
        && (SoleWinner(reses, a, r[i].value.key) ==> r[i] == s[i])
  {
    if keys != [] {
      var n := |keys| - 1;
      AnswersAgree(reses, a, b, keys[..n], explain);
      OneKeyAgrees(reses, a, b, keys[n], explain);
    }
  }

  /** The answers of any two runs of a query name the same keys at the same
      priorities, and the same values wherever one positive link decides. */
  lemma QueriesAgree(ind: Indices, whoami: MatchContext, keys: seq<string>, explain: bool, r: seq<CFGResult>,
      s: seq<CFGResult>)
    requires Answers(ind, whoami, keys, OverlaidView, explain, r)
      && Answers(ind, whoami, keys, OverlaidView, explain, s)
    ensures |r| == |s|
    ensures forall i | 0 <= i < |r| ::
      && r[i].value.key == s[i].value.key && r[i].reason.Some? == s[i].reason.Some? == explain
      && (explain ==> r[i].reason.value.pri == s[i].reason.value.pri)
    ensures forall i, links | 0 <= i < |r| && AreActive(ind, whoami, links)
      && SoleWinner(ind.reses, links, r[i].value.key) :: r[i] == s[i]
  {
    var a :| AreActive(ind, whoami, a) && Sorted(a) && r == Overlaid(ind.reses, a, keys, explain);
    var b :| AreActive(ind, whoami, b) && Sorted(b) && s == Overlaid(ind.reses, b, keys, explain);
    ActiveAreSame(ind, whoami, a, b);
    AnswersAgree(ind.reses, a, b, keys, explain);
    forall i, links | 0 <= i < |r| && AreActive(ind, whoami, links) && SoleWinner(ind.reses, links, r[i].value.key)
      ensures r[i] == s[i]
    {
      ActiveAreSame(ind, whoami, a, links);
      WinnersAreSame(ind.reses, a, links, r[i].value.key);
    }
  }

  lemma WinnersAreSame(reses: ResMap, a: seq<IdxLinkItem>, b: seq<IdxLinkItem>, key: string)
    requires SameLinks(a, b) && SoleWinner(reses, b, key)
    ensures SoleWinner(reses, a, key)
  {
    forall l ensures AtTop(reses, a, key, l) <==> AtTop(reses, b, key, l) {}
  }

  lemma ActiveAreSame(ind: Indices, whoami: MatchContext, a: seq<IdxLinkItem>, b: seq<IdxLinkItem>)
    requires AreActive(ind, whoami, a) && AreActive(ind, whoami, b)
    ensures multiset(a) == multiset(b) && SameLinks(a, b)
  {
    forall l ensures multiset(a)[l] == multiset(b)[l] {
      assert multiset(a)[l] == ActiveCount(ind, whoami, ind.rules.Keys, l);
    }
    forall l ensures l in a <==> l in b {
      assert l in a <==> multiset(a)[l] > 0;
    }
  }

  /** Layering works like inheritance: when all of `a` outranks all of `b`, the
      union shows what `a` shows for the keys that `a` carries, and what `b` shows
      for the others. */
  lemma Layering(reses: ResMap, a: seq<IdxLinkItem>, b: seq<IdxLinkItem>, key: string, shown: Outcome)
    requires forall l, m | l in a && m in b :: l.pri > m.pri
    ensures IsOverlay(reses, a + b, key, shown)
      <==> IsOverlay(reses, if exists l | l in a :: Carries(reses, l, key) then a else b, key, shown)
  {
    var top := if exists l | l in a :: Carries(reses, l, key) then a else b;
    forall l ensures AtTop(reses, a + b, key, l) <==> AtTop(reses, top, key, l) {
      if exists u | u in a :: Carries(reses, u, key) {
        TopOfUpper(reses, a, b, key, l);
      }
    }
    assert (forall c | c in a + b :: !Carries(reses, c, key)) <==> (forall c | c in top :: !Carries(reses, c, key));
    assert forall l | AtTop(reses, a + b, key, l) || AtTop(reses, top, key, l) :: l in a + b && l in top;
  }

  /** The same of what the query computes: sorting a union and taking its first
      match decides as on the layer that carries the key, up to ties. */
  lemma LayeredPick(reses: ResMap, all: seq<IdxLinkItem>, a: seq<IdxLinkItem>, b: seq<IdxLinkItem>, key: string)
    requires Sorted(all) && Sorted(a) && Sorted(b) && SameLinks(all, a + b)
    requires forall l, m | l in a && m in b :: l.pri > m.pri
    ensures var top := if exists l | l in a :: Carries(reses, l, key) then a else b;
      var r, s := Positive(Pick(reses, all, key)), Positive(Pick(reses, top, key));
      && (r.Some? <==> s.Some?)
      && (r.Some? ==> r.value.0.pri == s.value.0.pri
                      && (SoleCarrier(reses, top, key, r.value.0.pri) ==> r == s))
  {
    var top := if exists l | l in a :: Carries(reses, l, key) then a else b;
    var r, s := Positive(Pick(reses, all, key)), Positive(Pick(reses, top, key));
    SortedPickIsOverlay(reses, top, key);
    SortedPickIsOverlay(reses, all, key);
    forall l ensures AtTop(reses, all, key, l) <==> AtTop(reses, a + b, key, l) {}
    Layering(reses, a, b, key, r);
    OverlayIsOrderFree(reses, top, top, key, s, r);
  }

  lemma TopOfUpper(reses: ResMap, a: seq<IdxLinkItem>, b: seq<IdxLinkItem>, key: string, l: IdxLinkItem)
    requires forall l, m | l in a && m in b :: l.pri > m.pri
    requires exists u | u in a :: Carries(reses, u, key)
    ensures AtTop(reses, a + b, key, l) <==> AtTop(reses, a, key, l)
  {
    var u :| u in a && Carries(reses, u, key);
    assert l in b ==> u.pri > l.pri;
  }

  lemma {:induction false} HitsContain(link: IdxLinkItem, data: seq<KeyValuePair>, key: string, explain: bool,
      kv: KeyValuePair)
    ensures CFGResult(Explain(link, explain), kv) in Hits(link, data, key, explain) <==> kv in data && kv.key == key
  {
    if data != [] {
      var n := |data| - 1;
      HitsContain(link, data[..n], key, explain, kv);
      assert data == data[..n] + [data[n]];
    }
  }

  lemma {:induction false} AllHitsContain(reses: ResMap, links: seq<IdxLinkItem>, key: string, explain: bool,
      link: IdxLinkItem, kv: KeyValuePair)
    requires link in links && link.absResPath in reses && kv in reses[link.absResPath] && kv.key == key
    ensures CFGResult(Explain(link, explain), kv) in AllHits(reses, links, key, explain)
  {
    var n := |links| - 1;
    assert links == links[..n] + [links[n]];
    if link == links[n] {
      HitsContain(link, reses[link.absResPath], key, explain, kv);
    } else {
      AllHitsContain(reses, links[..n], key, explain, link, kv);
    }
  }

  /** Whatever the overlaid view shows, the view of all linked resources has too. */
  lemma {:induction false} OverlaidIsLinked(reses: ResMap, a: seq<IdxLinkItem>, b: seq<IdxLinkItem>, keys: seq<string>,
      explain: bool, x: CFGResult)
    requires Sorted(a) && SameLinks(a, b) && x in Overlaid(reses, a, keys, explain)
    ensures x in AllLinked(reses, b, keys, explain)
  {
    var n := |keys| - 1;
    if x in Overlaid(reses, a, keys[..n], explain) {
      OverlaidIsLinked(reses, a, b, keys[..n], explain, x);
    } else {
      PickIsFirst(reses, a, keys[n]);
      var (link, kv) := Pick(reses, a, keys[n]).value;
      AllHitsContain(reses, b, keys[n], explain, link, kv);
    }
  }

  /** Asking for reasons changes nothing but the reasons. */
  lemma {:induction false} ReasonsOnlyAdd(reses: ResMap, links: seq<IdxLinkItem>, keys: seq<string>)
    ensures var with', without := Overlaid(reses, links, keys, true), Overlaid(reses, links, keys, false);
      |with'| == |without| && forall i | 0 <= i < |with'| ::
        with'[i].reason.Some? && without[i] == CFGResult(None, with'[i].value)
  {
    if keys != [] {
      ReasonsOnlyAdd(reses, links, keys[..|keys| - 1]);
    }
  }
}
