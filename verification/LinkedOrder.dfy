/**
 The order of the answers in the view of all linked resources: by requested key, then
 by link, then by the item's place in the link's resource.
 */
module LinkedOrder {
  import opened Common
  import opened IndexData
  import opened Querier

  /** A key of the request, a link, and an item of its resource, by their indices. */
  datatype Place = Place(k: nat, l: nat, m: nat)

  predicate Before(a: Place, b: Place) {
    a.k < b.k || (a.k == b.k && (a.l < b.l || (a.l == b.l && a.m < b.m)))
  }

  ghost predicate Ascending(ps: seq<Place>) { forall i, j | 0 <= i < j < |ps| :: Before(ps[i], ps[j]) }

  /** The item at the place has the key at the place. */
  predicate IsPlace(reses: ResMap, links: seq<IdxLinkItem>, keys: seq<string>, p: Place) {
    && p.k < |keys| && p.l < |links| && links[p.l].absResPath in reses
    && p.m < |reses[links[p.l].absResPath]| && reses[links[p.l].absResPath][p.m].key == keys[p.k]
  }

  predicate IsAt(reses: ResMap, links: seq<IdxLinkItem>, explain: bool, p: Place, y: CFGResult) {
    && p.l < |links| && links[p.l].absResPath in reses && p.m < |reses[links[p.l].absResPath]|
    && y.value == reses[links[p.l].absResPath][p.m]
    && y.reason == if explain then Some(links[p.l]) else None
  }

  /** The results are those at the places, one for one. */
  ghost predicate AreAt(reses: ResMap, links: seq<IdxLinkItem>, explain: bool, ps: seq<Place>, ys: seq<CFGResult>) {
    |ps| == |ys| && forall i | 0 <= i < |ps| :: IsAt(reses, links, explain, ps[i], ys[i])
  }

  lemma AscendingAppend(a: seq<Place>, b: seq<Place>)
    requires Ascending(a) && Ascending(b) && forall p, q | p in a && q in b :: Before(p, q)
    ensures Ascending(a + b)
  {
  }

  lemma AreAtAppend(reses: ResMap, links: seq<IdxLinkItem>, explain: bool, a: seq<Place>, b: seq<Place>,
      ys: seq<CFGResult>, zs: seq<CFGResult>)
    requires AreAt(reses, links, explain, a, ys) && AreAt(reses, links, explain, b, zs)
    ensures AreAt(reses, links, explain, a + b, ys + zs)
  {
  }

  lemma {:induction false} HitsInOrder(reses: ResMap, links: seq<IdxLinkItem>, keys: seq<string>, explain: bool,
      k: nat, l: nat, n: nat)
    returns (ps: seq<Place>)
    requires k < |keys| && l < |links| && links[l].absResPath in reses && n <= |reses[links[l].absResPath]|
    ensures Ascending(ps)
    ensures forall p :: p in ps <==> p.k == k && p.l == l && p.m < n && IsPlace(reses, links, keys, p)
    ensures AreAt(reses, links, explain, ps, Hits(links[l], reses[links[l].absResPath][..n], keys[k], explain))
  {
    ps := [];
    if n > 0 {
      var data := reses[links[l].absResPath];
      var before := HitsInOrder(reses, links, keys, explain, k, l, n - 1);
      assert data[..n][..n - 1] == data[..n - 1];
      var last := if data[n - 1].key == keys[k] then [Place(k, l, n - 1)] else [];
      var hit := if data[n - 1].key == keys[k] then [CFGResult(Explain(links[l], explain), data[n - 1])] else [];
      AscendingAppend(before, last);
      AreAtAppend(reses, links, explain, before, last, Hits(links[l], data[..n - 1], keys[k], explain), hit);
      ps := before + last;
    }
  }

  lemma {:induction false} AllHitsInOrder(reses: ResMap, links: seq<IdxLinkItem>, keys: seq<string>, explain: bool,
      k: nat, n: nat)
    returns (ps: seq<Place>)
    requires k < |keys| && n <= |links|
    ensures Ascending(ps)
    ensures forall p :: p in ps <==> p.k == k && p.l < n && IsPlace(reses, links, keys, p)
    ensures AreAt(reses, links, explain, ps, AllHits(reses, links[..n], keys[k], explain))
  {
    ps := [];
    if n > 0 {
      var before := AllHitsInOrder(reses, links, keys, explain, k, n - 1);
      assert links[..n][..n - 1] == links[..n - 1];
      var last: seq<Place> := [];
      if links[n - 1].absResPath in reses {
        var data := reses[links[n - 1].absResPath];
        last := HitsInOrder(reses, links, keys, explain, k, n - 1, |data|);
        assert data[..|data|] == data;
      }
      AscendingAppend(before, last);
      AreAtAppend(reses, links, explain, before, last, AllHits(reses, links[..n - 1], keys[k], explain),
                  LinkHits(reses, links[n - 1], keys[k], explain));
      ps := before + last;
    }
  }

  lemma {:induction false} PrefixInOrder(reses: ResMap, links: seq<IdxLinkItem>, keys: seq<string>, explain: bool,
      n: nat)
    returns (ps: seq<Place>)
    requires n <= |keys|
    ensures Ascending(ps)
    ensures forall p :: p in ps <==> p.k < n && IsPlace(reses, links, keys, p)
    ensures AreAt(reses, links, explain, ps, AllLinked(reses, links, keys[..n], explain))
  {
    ps := [];
    if n > 0 {
      var before := PrefixInOrder(reses, links, keys, explain, n - 1);
      assert keys[..n][..n - 1] == keys[..n - 1] && links[..|links|] == links;
      var last := AllHitsInOrder(reses, links, keys, explain, n - 1, |links|);
      AscendingAppend(before, last);
      AreAtAppend(reses, links, explain, before, last, AllLinked(reses, links, keys[..n - 1], explain),
                  AllHits(reses, links, keys[n - 1], explain));
      ps := before + last;
    }
  }

  /** The view has a result for each place where an item has a requested key, and
      for no other, in the order of the places. */
  lemma AllLinkedInOrder(reses: ResMap, links: seq<IdxLinkItem>, keys: seq<string>, explain: bool)
    returns (ps: seq<Place>)
    ensures Ascending(ps) && forall p :: p in ps <==> IsPlace(reses, links, keys, p)
    ensures AreAt(reses, links, explain, ps, AllLinked(reses, links, keys, explain))
  {
    ps := PrefixInOrder(reses, links, keys, explain, |keys|);
    assert keys[..|keys|] == keys;
  }
}
