/**
 What a caller of the Go binding's cached query can check before the call: on which
 requests it gives the uncached result whatever the library answers and whatever a
 right cache holds.
 */
module GoSafety {
  import opened Common
  import opened RuleEngine
  import opened IndexData
  import opened CfgIndex
  import opened Querier
  import opened Overlay
  import opened LruCache
  import opened GoCache
  import opened GoNamespace

  // Distinct keys that all fit are safe

  lemma {:induction false} KeysAtMost(ks: set<string>, order: seq<string>)
    requires forall k | k in ks :: k in order
    ensures |ks| <= |order|
  {
    if order == [] {
      assert ks == {};
    } else {
      KeysAtMost(ks - {order[0]}, order[1..]);
      assert |ks| <= |ks - {order[0]}| + 1;
    }
  }

  lemma DistinctIsAskedWell(lib: Library, q: Request, entries: Entries<Values>, keys: seq<string>)
    requires Distinct(keys)
    ensures AskedWell(lib, q, entries, keys)
  {
    DistinctCounts(keys);
    assert forall k :: k in keys <==> multiset(keys)[k] > 0;
  }

  // No others are: a library that has a value for every key

  const ALWAYS := Not(Leaf("nobody", Eq, Some(Str("has it"))))
  const LINK := IdxLinkItem(0.0, false, "path:/always", "all", "link")

  function ItemsFor(keys: seq<string>): seq<KeyValuePair> {
    seq(|keys|, i requires 0 <= i < |keys| => KeyValuePair("", keys[i], ""))
  }

  /** One rule that holds for clients without labels, one link and one resource. */
  function Full(keys: seq<string>): Library {
    Library(Indices(map["always" := ALWAYS], map["always" := [LINK]], map["all" := ItemsFor(keys)]),
            _ => map[], (_, _) => [LINK])
  }

  lemma FullIsValid(keys: seq<string>)
    ensures Full(keys).Valid() && Ready(Full(keys).ind)
  {
    var ind := Full(keys).ind;
    var prefix := RemovePathTypePrefix(LINK.rulePath);
    assert prefix == "always";
    forall x ensures multiset([LINK])[x] == ActiveCount(ind, map[], ind.rules.Keys, x) {
      assert ind.links["always"] == [LINK];
    }
    assert AreActive(ind, map[], [LINK]);
  }

  lemma FullAnswers(keys: seq<string>, q: Request, key: string)
    requires key in keys
    ensures q.Answer(Full(keys), key) != []
  {
    var reses := Full(keys).ind.reses;
    var i :| 0 <= i < |keys| && keys[i] == key;
    var kv := ItemsFor(keys)[i];
    assert kv.key == key && kv in ItemsFor(keys);
    HitsContain(LINK, ItemsFor(keys), key, q.needExplain, kv);
    assert [LINK][..0] == [];
    assert AllHits(reses, [LINK], key, q.needExplain) == LinkHits(reses, LINK, key, q.needExplain);
    assert HitOf(reses, LINK, key).Some?;
    assert Pick(reses, [LINK], key).Some? && !Pick(reses, [LINK], key).value.0.isNeg;
  }

  lemma {:induction false} DistinctSize(keys: seq<string>)
    requires Distinct(keys)
    ensures |set k | k in keys| == |keys|
  {
    if keys != [] {
      var n := |keys| - 1;
      DistinctSize(keys[..n]);
      assert keys[n] !in keys[..n];
      assert keys == keys[..n] + [keys[n]];
      assert (set k | k in keys) == (set k | k in keys[..n]) + {keys[n]};
    }
  }

  lemma FullNeeds(q: Request, maxEntries: int, keys: seq<string>)
    requires ServesUncached(Full(keys), q, maxEntries, [], keys)
    ensures Distinct(keys) && Room(maxEntries, |keys|)
  {
    forall k | k in keys ensures q.Answer(Full(keys), k) != [] {
      FullAnswers(keys, q, k);
    }
    assert Wanted(Full(keys), q, keys) == set k | k in keys;
    DistinctCounts(keys);
    assert forall k :: k in keys <==> multiset(keys)[k] > 0;
    DistinctSize(keys);
  }

  /** The cached query gives the uncached result, whatever the library answers and
      whatever a right cache holds, just when the keys are distinct and all fit. */
  lemma SafeIffDistinctAndFitting(q: Request, maxEntries: int, keys: seq<string>)
    ensures (forall lib: Library, entries: Entries<Values> | lib.Valid() && CacheOk(lib, entries) ::
               ServesUncached(lib, q, maxEntries, entries, keys))
      <==> Distinct(keys) && Room(maxEntries, |keys|)
  {
    if Distinct(keys) && Room(maxEntries, |keys|) {
      forall lib: Library, entries: Entries<Values> | lib.Valid() && CacheOk(lib, entries)
        ensures ServesUncached(lib, q, maxEntries, entries, keys)
      {
        DistinctIsAskedWell(lib, q, entries, keys);
        KeysAtMost(Wanted(lib, q, keys), keys);
      }
    }
    if forall lib: Library, entries: Entries<Values> | lib.Valid() && CacheOk(lib, entries) ::
         ServesUncached(lib, q, maxEntries, entries, keys) {
      FullIsValid(keys);
      assert CacheOk(Full(keys), []);
      FullNeeds(q, maxEntries, keys);
    }
  }
}
