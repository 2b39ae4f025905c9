/**
 The Go binding's cached query (bindings/go/eafcc.go) between two updates: read the
 cache, ask the library for the missing keys, fill the cache, read it again.

 The digest of a cache key is represented by what is digested.
 */
module GoCache {
  import opened Common
  import opened RuleEngine
  import opened IndexData
  import opened CfgIndex
  import opened Querier
  import opened LruCache

  datatype CFGValue = CFGValue(key: string, contextType: string, value: string, reason: Option<IdxLinkItem>)

  type Values = seq<CFGValue>

  /** A client, by the 32-byte digest of its salted labels. */
  datatype WhoAmI = WhoAmI(hash: string)

  // What the library answers

  function Converted(results: seq<CFGResult>): (values: Values)
    ensures |values| == |results|
  {
    if results == [] then []
    else
      var n := |results| - 1;
      Converted(results[..n])
      + [CFGValue(results[n].value.key, results[n].value.contentType, results[n].value.value, results[n].reason)]
  }

  /** The value has the fields of the result. */
  predicate SameFields(v: CFGValue, y: CFGResult) {
    && v.key == y.value.key && v.contextType == y.value.contentType && v.value == y.value.value
    && v.reason == y.reason
  }

  lemma {:induction false} ConvertedIs(results: seq<CFGResult>)
    ensures forall i | 0 <= i < |results| :: SameFields(Converted(results)[i], results[i])
  {
    if results != [] {
      ConvertedIs(results[..|results| - 1]);
    }
  }

  /** A loaded index, the labels that digests stand for, and the order in which the
      index lists the active links of a client: between updates its maps stay as they are. */
  datatype Library = Library(ind: Indices, labels: string -> MatchContext,
                             links: (string, ViewMode) -> seq<IdxLinkItem>)
  {
    ghost predicate Valid() {
      forall h, view :: AreActive(ind, labels(h), links(h, view)) && (view == OverlaidView ==> Sorted(links(h, view)))
    }

    function Query(h: string, keys: seq<string>, view: ViewMode, needExplain: bool): seq<CFGResult> {
      if view == OverlaidView then Overlaid(ind.reses, links(h, view), keys, needExplain)
      else AllLinked(ind.reses, links(h, view), keys, needExplain)
    }

    /** The answer to one key. */
    function Answer(h: string, key: string, view: ViewMode, needExplain: bool): Values {
      Converted(if view == OverlaidView then Shown(Pick(ind.reses, links(h, view), key), needExplain)
                else AllHits(ind.reses, links(h, view), key, needExplain))
    }

    function ForKey(h: string, view: ViewMode, needExplain: bool): string -> Values {
      key => Answer(h, key, view, needExplain)
    }
  }

  /** The values for several keys, one key after the other. */
  function RawValues(one: string -> Values, keys: seq<string>): Values {
    if keys == [] then [] else RawValues(one, keys[..|keys| - 1]) + one(keys[|keys| - 1])
  }

  lemma {:induction false} ConvertedAppend(a: seq<CFGResult>, b: seq<CFGResult>)
    ensures Converted(a + b) == Converted(a) + Converted(b)
  {
    if b == [] {
      assert a + b == a;
    } else {
      var n := |b| - 1;
      assert (a + b)[..|a + b| - 1] == a + b[..n];
      ConvertedAppend(a, b[..n]);
    }
  }

  /** What the library answers for several keys is what it answers for each. */
  lemma {:induction false} AnswersDecompose(lib: Library, h: string, keys: seq<string>, view: ViewMode,
      needExplain: bool)
    ensures Converted(lib.Query(h, keys, view, needExplain)) == RawValues(lib.ForKey(h, view, needExplain), keys)
  {
    if keys != [] {
      var n := |keys| - 1;
      var reses, links := lib.ind.reses, lib.links(h, view);
      AnswersDecompose(lib, h, keys[..n], view, needExplain);
      if view == OverlaidView {
        var last := Shown(Pick(reses, links, keys[n]), needExplain);
        ConvertedAppend(Overlaid(reses, links, keys[..n], needExplain), last);
      } else {
        ConvertedAppend(AllLinked(reses, links, keys[..n], needExplain), AllHits(reses, links, keys[n], needExplain));
      }
    }
  }

  /** The library's queries, and so its answers to one key, are answers of the querier. */
  lemma LibraryAnswers(lib: Library, h: string, keys: seq<string>, view: ViewMode, needExplain: bool)
    requires lib.Valid()
    ensures Querier.Answers(lib.ind, lib.labels(h), keys, view, needExplain, lib.Query(h, keys, view, needExplain))
    ensures |keys| == 1 ==>
      Converted(lib.Query(h, keys, view, needExplain)) == lib.Answer(h, keys[0], view, needExplain)
  {
    assert AreActive(lib.ind, lib.labels(h), lib.links(h, view));
    if |keys| == 1 {
      AnswersDecompose(lib, h, keys, view, needExplain);
      assert RawValues(lib.ForKey(h, view, needExplain), keys)
          == RawValues(lib.ForKey(h, view, needExplain), keys[..0]) + lib.Answer(h, keys[0], view, needExplain);
    }
  }

  /** The answer to one key has, value by value, the fields of an answer that the
      querier gives to that key. */
  lemma AnswerFields(lib: Library, h: string, key: string, view: ViewMode, needExplain: bool)
    returns (ret: seq<CFGResult>)
    requires lib.Valid()
    ensures Querier.Answers(lib.ind, lib.labels(h), [key], view, needExplain, ret)
    ensures |ret| == |lib.Answer(h, key, view, needExplain)|
    ensures forall i | 0 <= i < |ret| :: SameFields(lib.Answer(h, key, view, needExplain)[i], ret[i])
  {
    ret := lib.Query(h, [key], view, needExplain);
    LibraryAnswers(lib, h, [key], view, needExplain);
    ConvertedIs(ret);
  }

  /** Answers carry the key they answer. */
  ghost predicate Keyed(one: string -> Values) {
    forall k, i | 0 <= i < |one(k)| :: one(k)[i].key == k
  }

  lemma {:induction false} HitsAreKeyed(link: IdxLinkItem, data: seq<KeyValuePair>, key: string, needExplain: bool)
    ensures forall i | 0 <= i < |Hits(link, data, key, needExplain)| ::
      Hits(link, data, key, needExplain)[i].value.key == key
  {
    if data != [] {
      HitsAreKeyed(link, data[..|data| - 1], key, needExplain);
    }
  }

  lemma {:induction false} AllHitsAreKeyed(reses: ResMap, links: seq<IdxLinkItem>, key: string, needExplain: bool)
    ensures forall i | 0 <= i < |AllHits(reses, links, key, needExplain)| ::
      AllHits(reses, links, key, needExplain)[i].value.key == key
  {
    if links != [] {
      var n := |links| - 1;
      AllHitsAreKeyed(reses, links[..n], key, needExplain);
      if links[n].absResPath in reses {
        HitsAreKeyed(links[n], reses[links[n].absResPath], key, needExplain);
      }
    }
  }

  lemma {:induction false} PickIsKeyed(reses: ResMap, links: seq<IdxLinkItem>, key: string)
    ensures Pick(reses, links, key).Some? ==> Pick(reses, links, key).value.1.key == key
  {
    if links != [] {
      PickIsKeyed(reses, links[1..], key);
    }
  }

  lemma {:induction false} ConvertedIsKeyed(results: seq<CFGResult>, key: string)
    requires forall i | 0 <= i < |results| :: results[i].value.key == key
    ensures forall i | 0 <= i < |results| :: Converted(results)[i].key == key
  {
    if results != [] {
      ConvertedIsKeyed(results[..|results| - 1], key);
    }
  }

  lemma AnswersAreKeyed(lib: Library, h: string, view: ViewMode, needExplain: bool)
    ensures Keyed(lib.ForKey(h, view, needExplain))
  {
    var reses, links := lib.ind.reses, lib.links(h, view);
    forall k
      ensures forall i | 0 <= i < |lib.Answer(h, k, view, needExplain)| ::
        lib.Answer(h, k, view, needExplain)[i].key == k
    {
      PickIsKeyed(reses, links, k);
      AllHitsAreKeyed(reses, links, k, needExplain);
      ConvertedIsKeyed(if view == OverlaidView then Shown(Pick(reses, links, k), needExplain)
                       else AllHits(reses, links, k, needExplain), k);
    }
  }

  // Grouping by key

  /** The values with the key, in order. */
  function WithKey(values: Values, key: string): Values {
    if values == [] then []
    else
      var n := |values| - 1;
      WithKey(values[..n], key) + if values[n].key == key then [values[n]] else []
  }

  /** `convertGetCFGOutput`: values grouped by key. */
  method ConvertGetCFGOutput(values: Values) returns (ret: map<string, Values>)
    ensures forall k :: k in ret <==> WithKey(values, k) != []
    ensures forall k | k in ret :: ret[k] == WithKey(values, k)
  {
    ret := map[];
    for i := 0 to |values|
      invariant forall k :: k in ret <==> WithKey(values[..i], k) != []
      invariant forall k | k in ret :: ret[k] == WithKey(values[..i], k)
    {
      assert values[..i + 1][..i] == values[..i];
      var key := values[i].key;
      ret := ret[key := (if key in ret then ret[key] else []) + [values[i]]];
    }
    assert values[..|values|] == values;
  }

  /** The places of the results with the key. */
  ghost predicate ArePlaces(places: seq<nat>, ret: seq<CFGResult>, key: string) {
    && (forall i, j | 0 <= i < j < |places| :: places[i] < places[j])
    && (forall i: nat :: i in places <==> i < |ret| && ret[i].value.key == key)
  }

  /** The values have, one by one, the fields of the results at the places. */
  ghost predicate AreFields(values: Values, ret: seq<CFGResult>, places: seq<nat>) {
    && |values| == |places|
    && forall i | 0 <= i < |places| :: places[i] < |ret| && SameFields(values[i], ret[places[i]])
  }

  ghost predicate HaveFieldsOf(values: Values, ret: seq<CFGResult>, key: string) {
    exists places :: ArePlaces(places, ret, key) && AreFields(values, ret, places)
  }

  lemma {:induction false} WithKeyFields(ret: seq<CFGResult>, key: string) returns (places: seq<nat>)
    ensures ArePlaces(places, ret, key) && AreFields(WithKey(Converted(ret), key), ret, places)
  {
    places := [];
    if ret != [] {
      var n := |ret| - 1;
      var before := WithKeyFields(ret[..n], key);
      LastWithKey(ret, key);
      PlacesSnoc(before, ret, key);
      FieldsSnoc(WithKey(Converted(ret[..n]), key), ret, before, Converted(ret)[n]);
      places := if ret[n].value.key == key then before + [n] else before;
    }
  }

  lemma LastWithKey(ret: seq<CFGResult>, key: string)
    requires ret != []
    ensures var n := |ret| - 1;
      && SameFields(Converted(ret)[n], ret[n])
      && WithKey(Converted(ret), key)
         == if ret[n].value.key == key then WithKey(Converted(ret[..n]), key) + [Converted(ret)[n]]
            else WithKey(Converted(ret[..n]), key)
  {
    ConvertedIs(ret);
    assert Converted(ret)[..|ret| - 1] == Converted(ret[..|ret| - 1]);
    assert WithKey(Converted(ret[..|ret| - 1]), key) + [] == WithKey(Converted(ret[..|ret| - 1]), key);
  }

  lemma FieldsSnoc(values: Values, ret: seq<CFGResult>, places: seq<nat>, v: CFGValue)
    requires ret != [] && AreFields(values, ret[..|ret| - 1], places) && SameFields(v, ret[|ret| - 1])
    ensures AreFields(values, ret, places) && AreFields(values + [v], ret, places + [|ret| - 1])
  {
  }

  lemma PlacesSnoc(before: seq<nat>, ret: seq<CFGResult>, key: string)
    requires ret != [] && ArePlaces(before, ret[..|ret| - 1], key)
    ensures ArePlaces(if ret[|ret| - 1].value.key == key then before + [|ret| - 1] else before, ret, key)
  {
    var n := |ret| - 1;
    assert forall i | 0 <= i < |before| :: before[i] in before;
    forall i: nat ensures i in before + [n] <==> i in before || i == n {}
  }

  /** The values grouped by key have, key by key, the fields of the results. */
  ghost predicate GroupsOf(m: map<string, Values>, ret: seq<CFGResult>) {
    && (forall k :: k in m <==> exists i | 0 <= i < |ret| :: ret[i].value.key == k)
    && (forall k | k in m :: HaveFieldsOf(m[k], ret, k))
  }

  lemma GroupedFields(m: map<string, Values>, ret: seq<CFGResult>)
    requires forall k :: k in m <==> WithKey(Converted(ret), k) != []
    requires forall k | k in m :: m[k] == WithKey(Converted(ret), k)
    ensures GroupsOf(m, ret)
  {
    forall k ensures k in m <==> exists i | 0 <= i < |ret| :: ret[i].value.key == k {
      var values := WithKey(Converted(ret), k);
      var places := WithKeyFields(ret, k);
      if values != [] {
        assert places[0] in places;
      }
      if i :| 0 <= i < |ret| && ret[i].value.key == k {
        assert i in places;
      }
    }
    forall k | k in m ensures HaveFieldsOf(m[k], ret, k) {
      var places := WithKeyFields(ret, k);
    }
  }

  /** `v`, `n` times over. */
  function Repeated(v: Values, n: nat): (r: Values)
    ensures |r| == n * |v|
  {
    if n == 0 then [] else Repeated(v, n - 1) + v
  }

  lemma RepeatedIsOnce(v: Values, n: nat)
    ensures Repeated(v, n) == v <==> n == 1 || v == []
    ensures Repeated(v, n) == [] <==> n == 0 || v == []
  {
    assert |Repeated(v, n)| == n * |v|;
    if n == 1 {
      assert Repeated(v, 1) == Repeated(v, 0) + v == v;
    } else if n >= 2 && v != [] {
      assert n * |v| >= 2 * |v|;
    }
  }

  ghost predicate Distinct(keys: seq<string>) { forall i, j | 0 <= i < j < |keys| :: keys[i] != keys[j] }

  lemma {:induction false} DistinctCounts(keys: seq<string>)
    ensures Distinct(keys) <==> forall k :: multiset(keys)[k] <= 1
  {
    if keys != [] {
      var n := |keys| - 1;
      var before := keys[..n];
      DistinctCounts(before);
      forall k ensures multiset(keys)[k] == multiset(before)[k] + if keys[n] == k then 1 else 0 {
        LastCounts(keys, k);
      }
      assert keys[n] in before <==> multiset(before)[keys[n]] > 0;
      assert Distinct(keys) <==> Distinct(before) && keys[n] !in before;
    }
  }

  lemma {:induction false} WithKeyAppend(a: Values, b: Values, key: string)
    ensures WithKey(a + b, key) == WithKey(a, key) + WithKey(b, key)
  {
    if b == [] {
      assert a + b == a;
    } else {
      assert (a + b)[..|a + b| - 1] == a + b[..|b| - 1];
      WithKeyAppend(a, b[..|b| - 1], key);
    }
  }

  lemma {:induction false} WithKeyUniform(values: Values, k: string, key: string)
    requires forall i | 0 <= i < |values| :: values[i].key == k
    ensures WithKey(values, key) == if k == key then values else []
  {
    if values != [] {
      WithKeyUniform(values[..|values| - 1], k, key);
    }
  }

  /** Grouping the answers to any request gives each key its answer as often as
      the request has the key. */
  lemma {:induction false} GroupedRaw(one: string -> Values, keys: seq<string>, key: string)
    requires Keyed(one)
    ensures WithKey(RawValues(one, keys), key) == Repeated(one(key), multiset(keys)[key])
  {
    if keys != [] {
      var n := |keys| - 1;
      var before, last := RawValues(one, keys[..n]), one(keys[n]);
      GroupedRaw(one, keys[..n], key);
      WithKeyAppend(before, last, key);
      WithKeyUniform(last, keys[n], key);
      LastCounts(keys, key);
      assert WithKey(before, key) + [] == WithKey(before, key);
    }
  }

  /** Grouping gives every requested key its own answer. */
  ghost predicate GroupsRight(one: string -> Values, keys: seq<string>) {
    forall k | k in keys :: WithKey(RawValues(one, keys), k) == one(k)
  }

  /** It does just when no key with values is asked twice. */
  lemma GroupsRightIff(one: string -> Values, keys: seq<string>)
    requires Keyed(one)
    ensures GroupsRight(one, keys) <==> forall k | k in keys :: multiset(keys)[k] == 1 || one(k) == []
  {
    forall k ensures WithKey(RawValues(one, keys), k) == one(k) <==> multiset(keys)[k] == 1 || one(k) == [] {
      GroupedRaw(one, keys, k);
      RepeatedIsOnce(one(k), multiset(keys)[k]);
    }
  }

  /** A caller who does not know the answers is safe just with distinct keys. */
  lemma SafeIffDistinct(keys: seq<string>)
    ensures (forall one | Keyed(one) :: GroupsRight(one, keys)) <==> Distinct(keys)
  {
    DistinctCounts(keys);
    assert forall k :: k in keys <==> multiset(keys)[k] > 0;
    if forall one | Keyed(one) :: GroupsRight(one, keys) {
      var one := (k: string) => [CFGValue(k, "", "", None)];
      assert Keyed(one) && GroupsRight(one, keys);
      GroupsRightIff(one, keys);
      assert forall k :: one(k) != [];
    }
    if Distinct(keys) {
      forall one | Keyed(one) ensures GroupsRight(one, keys) {
        GroupsRightIff(one, keys);
      }
    }
  }

  // Cache keys

  function ViewByte(view: ViewMode): char { if view == OverlaidView then 0 as char else 1 as char }

  /** What is digested for a cache key. */
  function CacheKey(whoami: WhoAmI, key: string, view: ViewMode, needExplain: bool): string {
    whoami.hash + "|" + key + "|" + [ViewByte(view)] + [if needExplain then 1 as char else 0 as char]
  }

  /** Two requests with one cache key are the same request. */
  lemma CacheKeyInjective(w1: WhoAmI, k1: string, v1: ViewMode, e1: bool, w2: WhoAmI, k2: string, v2: ViewMode,
      e2: bool)
    requires |w1.hash| == |w2.hash|
    requires CacheKey(w1, k1, v1, e1) == CacheKey(w2, k2, v2, e2)
    ensures w1.hash == w2.hash && k1 == k2 && v1 == v2 && e1 == e2
  {
    CacheKeyParts(w1.hash, k1, ViewByte(v1), if e1 then 1 as char else 0 as char);
    CacheKeyParts(w2.hash, k2, ViewByte(v2), if e2 then 1 as char else 0 as char);
  }

  lemma CacheKeyParts(hash: string, key: string, view: char, explain: char)
    ensures var a := hash + "|" + key + "|" + [view] + [explain];
      && |a| == |hash| + |key| + 4 && a[..|hash|] == hash && a[|hash| + 1..|a| - 3] == key
      && a[|a| - 2] == view && a[|a| - 1] == explain
  {
    var start, tail := hash + "|", "|" + [view] + [explain];
    var a := hash + "|" + key + "|" + [view] + [explain];
    assert a == start + key + tail;
    assert a[..|hash|] == hash;
    assert (start + key + tail)[|start|..|start| + |key|] == key;
  }

  // What is in the cache

  /** What is cached for a request is its answer some times over, and not empty. */
  ghost predicate CacheSane(lib: Library, entries: Entries<Values>) {
    forall w: WhoAmI, k, v, e | |w.hash| == 32 && Find(entries, CacheKey(w, k, v, e)).Some? ::
      && lib.Answer(w.hash, k, v, e) != []
      && exists n :: n > 0 && Find(entries, CacheKey(w, k, v, e)).value == Repeated(lib.Answer(w.hash, k, v, e), n)
  }

  /** What is cached for a request is its answer, and not empty. */
  ghost predicate CacheOk(lib: Library, entries: Entries<Values>) {
    forall w: WhoAmI, k, v, e | |w.hash| == 32 && Find(entries, CacheKey(w, k, v, e)).Some? ::
      lib.Answer(w.hash, k, v, e) != [] && Find(entries, CacheKey(w, k, v, e)).value == lib.Answer(w.hash, k, v, e)
  }

  /** Adding a repeated answer that is not empty makes the cache wrong. */
  lemma DoubledSpoils(lib: Library, maxEntries: nat, entries: Entries<Values>, w: WhoAmI, k: string, v: ViewMode,
      e: bool, n: nat)
    requires |w.hash| == 32 && lib.Answer(w.hash, k, v, e) != [] && n != 1
    ensures !CacheOk(lib, Added(maxEntries, entries, CacheKey(w, k, v, e), Repeated(lib.Answer(w.hash, k, v, e), n)))
  {
    AddedKeeps(maxEntries, entries, CacheKey(w, k, v, e), Repeated(lib.Answer(w.hash, k, v, e), n), 0, "");
    RepeatedIsOnce(lib.Answer(w.hash, k, v, e), n);
  }
}
