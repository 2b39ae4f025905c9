/**
 The methods of the Go binding's namespace (bindings/go/eafcc.go) between two updates.
 */
module GoNamespace {
  import opened Common
  import opened IndexData
  import opened CfgIndex
  import opened Querier
  import opened LruCache
  import opened GoCache

  /** A client, a view and whether explanations are asked for, with the cache keys
      that `makeCacheKey` makes for these. */
  datatype Request = Request(whoami: WhoAmI, view: ViewMode, needExplain: bool, cacheKey: string -> string)
  {
    ghost predicate Valid() {
      |whoami.hash| == 32 && forall k :: cacheKey(k) == CacheKey(whoami, k, view, needExplain)
    }

    ghost predicate Injective() { forall k1, k2 | cacheKey(k1) == cacheKey(k2) :: k1 == k2 }

    function Answer(lib: Library, key: string): Values { lib.Answer(whoami.hash, key, view, needExplain) }
  }

  lemma KeysAreInjective(q: Request)
    requires q.Valid()
    ensures q.Injective()
  {
    forall k1, k2 | q.cacheKey(k1) == q.cacheKey(k2) ensures k1 == k2 {
      CacheKeyInjective(q.whoami, k1, q.view, q.needExplain, q.whoami, k2, q.view, q.needExplain);
    }
  }

  /** What is cached for a key of the request is not without values. */
  ghost predicate SaneFor(lib: Library, q: Request, entries: Entries<Values>) {
    forall k | Find(entries, q.cacheKey(k)).Some? :: q.Answer(lib, k) != []
  }

  /** What is cached for a key of the request is the library's answer. */
  ghost predicate OkFor(lib: Library, q: Request, entries: Entries<Values>) {
    forall k | Find(entries, q.cacheKey(k)).Some? ::
      q.Answer(lib, k) != [] && Find(entries, q.cacheKey(k)).value == q.Answer(lib, k)
  }

  lemma CacheForRequest(lib: Library, q: Request, entries: Entries<Values>)
    requires q.Valid()
    ensures CacheSane(lib, entries) ==> SaneFor(lib, q, entries)
    ensures CacheOk(lib, entries) ==> OkFor(lib, q, entries)
  {
    forall k ensures q.cacheKey(k) == CacheKey(q.whoami, k, q.view, q.needExplain) {}
  }

  /** A cache finds no more keys of a request than it has entries. */
  lemma {:induction false} FoundAtMost(entries: Entries<Values>, ks: set<string>, q: Request)
    requires q.Injective() && forall k | k in ks :: Find(entries, q.cacheKey(k)).Some?
    ensures |ks| <= |entries|
  {
    if entries == [] {
      assert ks == {};
    } else if first :| first in ks && q.cacheKey(first) == entries[0].0 {
      forall k | k in ks - {first} ensures Find(entries[1..], q.cacheKey(k)).Some? {
        assert q.cacheKey(k) != q.cacheKey(first);
      }
      FoundAtMost(entries[1..], ks - {first}, q);
      assert |ks| <= |ks - {first}| + 1;
    } else {
      FoundAtMost(entries[1..], ks, q);
    }
  }

  /** The requested keys that have values. */
  function Wanted(lib: Library, q: Request, keys: seq<string>): set<string> {
    set k | k in keys && q.Answer(lib, k) != []
  }

  /** The answer without a cache, each key with its own values. */
  function Uncached(lib: Library, q: Request, keys: seq<string>): map<string, Values> {
    map k | k in keys && q.Answer(lib, k) != [] :: q.Answer(lib, k)
  }

  /** What a key is served from a cache: what is cached for it, else the library's
      answer as often as the request has the key. */
  function Served(lib: Library, q: Request, entries: Entries<Values>, keys: seq<string>, k: string): Values {
    match Find(entries, q.cacheKey(k))
    case Some(values) => values
    case None => Repeated(q.Answer(lib, k), multiset(keys)[k])
  }

  /** Every key with values is cached or asked once. */
  ghost predicate AskedWell(lib: Library, q: Request, entries: Entries<Values>, keys: seq<string>) {
    forall k | k in Wanted(lib, q, keys) :: Find(entries, q.cacheKey(k)).Some? || multiset(keys)[k] == 1
  }

  /** The cache has room for the keys with values, and these are asked well. */
  ghost predicate ServesUncached(lib: Library, q: Request, maxEntries: int, entries: Entries<Values>,
      keys: seq<string>)
  {
    Room(maxEntries, |Wanted(lib, q, keys)|) && AskedWell(lib, q, entries, keys)
  }

  ghost predicate SameFinds(a: Entries<Values>, b: Entries<Values>) { forall ck :: Find(a, ck) == Find(b, ck) }

  lemma SameFindsSame(lib: Library, a: Entries<Values>, b: Entries<Values>)
    requires SameFinds(a, b)
    ensures CacheSane(lib, a) <==> CacheSane(lib, b)
    ensures CacheOk(lib, a) <==> CacheOk(lib, b)
  {
    assert forall w: WhoAmI, k, v, e :: Find(a, CacheKey(w, k, v, e)) == Find(b, CacheKey(w, k, v, e));
    if CacheSane(lib, a) {
      assert CacheSane(lib, b);
    }
    if CacheSane(lib, b) {
      assert CacheSane(lib, a);
    }
  }

  /** `added` holds the values that `t` has for the keys in `done`, by cache key. */
  ghost predicate Filling(q: Request, t: map<string, Values>, done: set<string>, added: map<string, Values>) {
    && (forall k | k in done :: k in t && q.cacheKey(k) in added && added[q.cacheKey(k)] == t[k])
    && (forall ck | ck in added :: exists k :: k in done && q.cacheKey(k) == ck)
  }

  ghost predicate ByKey(q: Request, t: map<string, Values>, added: map<string, Values>) {
    Filling(q, t, t.Keys, added)
  }

  /** After filling, what is found was added or was there. */
  ghost predicate FilledWith(old': Entries<Values>, new': Entries<Values>, added: map<string, Values>) {
    forall ck | Find(new', ck).Some? :: Find(new', ck) == if ck in added then Some(added[ck]) else Find(old', ck)
  }

  /** The library's answers to a request, grouped. */
  ghost predicate Raw(lib: Library, q: Request, keys: seq<string>, t: map<string, Values>) {
    && (forall k :: k in t <==> k in keys && q.Answer(lib, k) != [])
    && (forall k | k in t :: t[k] == Repeated(q.Answer(lib, k), multiset(keys)[k]))
  }

  /** A cache entry that was added answers the request it was added for. */
  lemma AddedFor(q: Request, t: map<string, Values>, added: map<string, Values>, w: WhoAmI, k: string, v: ViewMode,
      e: bool)
    requires q.Valid() && |w.hash| == 32 && ByKey(q, t, added) && CacheKey(w, k, v, e) in added
    ensures w == q.whoami && v == q.view && e == q.needExplain && k in t
  {
    var k' :| k' in t && q.cacheKey(k') == CacheKey(w, k, v, e);
    CacheKeyInjective(q.whoami, k', q.view, q.needExplain, w, k, v, e);
  }

  lemma FilledIsSane(lib: Library, q: Request, old': Entries<Values>, new': Entries<Values>, keys: seq<string>,
      t: map<string, Values>, added: map<string, Values>)
    requires q.Valid() && CacheSane(lib, old') && FilledWith(old', new', added) && ByKey(q, t, added)
      && Raw(lib, q, keys, t)
    ensures CacheSane(lib, new')
  {
    forall w: WhoAmI, k, v, e | |w.hash| == 32 && Find(new', CacheKey(w, k, v, e)).Some?
      ensures lib.Answer(w.hash, k, v, e) != []
      ensures exists n :: n > 0 && Find(new', CacheKey(w, k, v, e)).value == Repeated(lib.Answer(w.hash, k, v, e), n)
    {
      if CacheKey(w, k, v, e) in added {
        AddedFor(q, t, added, w, k, v, e);
        assert multiset(keys)[k] > 0;
      }
    }
  }

  lemma FilledIsOk(lib: Library, q: Request, old': Entries<Values>, new': Entries<Values>, t: map<string, Values>,
      added: map<string, Values>)
    requires q.Valid() && CacheOk(lib, old') && FilledWith(old', new', added) && ByKey(q, t, added)
    requires forall k | k in t && Find(new', q.cacheKey(k)).Some? :: t[k] == q.Answer(lib, k) != []
    ensures CacheOk(lib, new')
  {
    forall w: WhoAmI, k, v, e | |w.hash| == 32 && Find(new', CacheKey(w, k, v, e)).Some?
      ensures Find(new', CacheKey(w, k, v, e)).value == lib.Answer(w.hash, k, v, e) != []
    {
      if CacheKey(w, k, v, e) in added {
        AddedFor(q, t, added, w, k, v, e);
      }
    }
  }

  // Reading

  /** The keys that a cache does not find. */
  function Missing(q: Request, entries: Entries<Values>, keys: seq<string>): seq<string> {
    if keys == [] then []
    else
      var n := |keys| - 1;
      Missing(q, entries, keys[..n]) + if Find(entries, q.cacheKey(keys[n])).None? then [keys[n]] else []
  }

  lemma {:induction false} MissingCounts(q: Request, entries: Entries<Values>, keys: seq<string>, k: string)
    ensures multiset(Missing(q, entries, keys))[k]
      == if Find(entries, q.cacheKey(k)).None? then multiset(keys)[k] else 0
  {
    if keys != [] {
      MissingCounts(q, entries, keys[..|keys| - 1], k);
      LastCounts(keys, k);
    }
  }

  lemma MissingAre(q: Request, entries: Entries<Values>, keys: seq<string>, k: string)
    ensures k in Missing(q, entries, keys) <==> k in keys && Find(entries, q.cacheKey(k)).None?
  {
    MissingCounts(q, entries, keys, k);
    assert k in Missing(q, entries, keys) <==> multiset(Missing(q, entries, keys))[k] > 0;
    assert k in keys <==> multiset(keys)[k] > 0;
  }

  /** The keys that a cache finds, read one after the other. */
  function Found(q: Request, entries: Entries<Values>, keys: seq<string>): map<string, Values> {
    if keys == [] then map[]
    else
      var n := |keys| - 1;
      var v := Find(entries, q.cacheKey(keys[n]));
      var before := Found(q, entries, keys[..n]);
      if v.Some? then before[keys[n] := v.value] else before
  }

  lemma {:induction false} FoundAre(q: Request, entries: Entries<Values>, keys: seq<string>)
    ensures IsFound(q, entries, keys, Found(q, entries, keys))
  {
    if keys != [] {
      var n := |keys| - 1;
      FoundAre(q, entries, keys[..n]);
      assert forall k :: k in keys <==> k in keys[..n] || k == keys[n];
    }
  }

  /** The keys that a cache finds, with what it has for them. */
  ghost predicate IsFound(q: Request, entries: Entries<Values>, keys: seq<string>, values: map<string, Values>) {
    && (forall k :: k in values <==> k in keys && Find(entries, q.cacheKey(k)).Some?)
    && (forall k | k in values :: Some(values[k]) == Find(entries, q.cacheKey(k)))
  }

  /** A key that is read joins those at the front. */
  lemma ReadStaysInFront(entries: Entries<Values>, q: Request, key: string, found: map<string, Values>)
    requires InFront(q, entries, |found|, found.Keys)
    ensures var v := Find(entries, q.cacheKey(key));
      if v.None? then Touched(entries, q.cacheKey(key)) == entries
      else InFront(q, Touched(entries, q.cacheKey(key)), |found[key := v.value]|, found[key := v.value].Keys)
  {
    var v := Find(entries, q.cacheKey(key));
    if v.Some? {
      KeysPlus(found, key, v.value);
      forall k | k in found.Keys + {key}
        ensures Within(Touched(entries, q.cacheKey(key)), |found[key := v.value]|, q.cacheKey(k))
      {
        TouchedKeeps(entries, q.cacheKey(key), |found|, q.cacheKey(k));
      }
    }
  }

  lemma FoundSnoc(q: Request, entries: Entries<Values>, keys: seq<string>, key: string)
    ensures var v := Find(entries, q.cacheKey(key));
      && Found(q, entries, keys + [key])
         == (if v.Some? then Found(q, entries, keys)[key := v.value] else Found(q, entries, keys))
      && Missing(q, entries, keys + [key])
         == if v.Some? then Missing(q, entries, keys) else Missing(q, entries, keys) + [key]
  {
    assert (keys + [key])[..|keys|] == keys;
    assert Missing(q, entries, keys) + [] == Missing(q, entries, keys);
  }

  lemma KeysPlus(m: map<string, Values>, key: string, v: Values)
    ensures m[key := v].Keys == m.Keys + {key}
    ensures |m[key := v]| == if key in m then |m| else |m| + 1
  {
    assert |m[key := v].Keys| == |m[key := v]| && |m.Keys| == |m|;
  }

  lemma TouchedIsSame(entries: Entries<Values>, key: string)
    ensures SameFinds(Touched(entries, key), entries)
  {
    forall ck ensures Find(Touched(entries, key), ck) == Find(entries, ck) {
      TouchedKeeps(entries, key, 0, ck);
    }
  }

  // Filling

  lemma FillingGoesOn(q: Request, t: map<string, Values>, done: set<string>, added: map<string, Values>, key: string)
    requires q.Injective() && Filling(q, t, done, added) && key in t && key !in done
    ensures Filling(q, t, done + {key}, added[q.cacheKey(key) := t[key]])
  {
    var more := added[q.cacheKey(key) := t[key]];
    forall k | k in done + {key} ensures q.cacheKey(k) in more && more[q.cacheKey(k)] == t[k] {
      assert q.cacheKey(k) == q.cacheKey(key) ==> k == key;
    }
    forall ck | ck in more ensures exists k :: k in done + {key} && q.cacheKey(k) == ck {
      if ck == q.cacheKey(key) {
        assert key in done + {key};
      } else {
        var k :| k in done && q.cacheKey(k) == ck;
        assert k in done + {key};
      }
    }
  }

  lemma FilledGoesOn(maxEntries: int, old': Entries<Values>, new': Entries<Values>, added: map<string, Values>,
      ck: string, values: Values)
    requires FilledWith(old', new', added)
    ensures FilledWith(old', Added(maxEntries, new', ck, values), added[ck := values])
  {
    var r := Added(maxEntries, new', ck, values);
    forall c | Find(r, c).Some?
      ensures Find(r, c) == if c in added[ck := values] then Some(added[ck := values][c]) else Find(old', c)
    {
      AddedBrings(maxEntries, new', ck, values, c);
    }
  }

  /** The keys that were found and those that were added are in front. */
  ghost predicate BothWithin(entries: Entries<Values>, n: nat, q: Request, hits: set<string>, done: set<string>) {
    InFront(q, entries, n, hits) && InFront(q, entries, n, done)
  }

  lemma FillKeepsBoth(maxEntries: int, entries: Entries<Values>, q: Request, key: string, values: Values,
      hits: set<string>, done: set<string>, n: nat)
    requires maxEntries == 0 || n + 1 <= maxEntries
    requires BothWithin(entries, n, q, hits, done)
    ensures BothWithin(Added(maxEntries, entries, q.cacheKey(key), values), n + 1, q, hits, done + {key})
  {
    forall k | k in hits || k in done + {key}
      ensures Within(Added(maxEntries, entries, q.cacheKey(key), values), n + 1, q.cacheKey(k))
    {
      AddedKeeps(maxEntries, entries, q.cacheKey(key), values, n, q.cacheKey(k));
    }
  }

  // The result of a cached query

  /** What is served, whether or not all keys are. */
  ghost predicate IsServed(lib: Library, q: Request, entries: Entries<Values>, keys: seq<string>,
      r: map<string, Values>)
  {
    r.Keys <= Wanted(lib, q, keys) && forall k | k in r :: r[k] == Served(lib, q, entries, keys, k)
  }

  /** `new'` is the cache after the answers `t` to the keys missing in `old'` were added. */
  ghost predicate Refilled(lib: Library, q: Request, old': Entries<Values>, new': Entries<Values>, keys: seq<string>,
      t: map<string, Values>, added: map<string, Values>)
  {
    Raw(lib, q, Missing(q, old', keys), t) && ByKey(q, t, added) && FilledWith(old', new', added)
  }

  lemma RefilledKey(lib: Library, q: Request, old': Entries<Values>, new': Entries<Values>, keys: seq<string>,
      t: map<string, Values>, added: map<string, Values>, k: string)
    requires q.Injective() && Refilled(lib, q, old', new', keys, t, added) && k in keys
    ensures k in t <==> Find(old', q.cacheKey(k)).None? && q.Answer(lib, k) != []
    ensures k in t ==> t[k] == Served(lib, q, old', keys, k)
    ensures q.cacheKey(k) in added <==> k in t
    ensures Find(new', q.cacheKey(k)).Some? ==>
      Find(new', q.cacheKey(k)) == if k in t then Some(t[k]) else Find(old', q.cacheKey(k))
  {
    MissingAre(q, old', keys, k);
    MissingCounts(q, old', keys, k);
    if q.cacheKey(k) in added {
      var k' :| k' in t && q.cacheKey(k') == q.cacheKey(k);
    }
  }

  lemma FoundIsServed(lib: Library, q: Request, old': Entries<Values>, new': Entries<Values>, keys: seq<string>,
      t: map<string, Values>, added: map<string, Values>, r: map<string, Values>)
    requires q.Injective() && SaneFor(lib, q, old') && Refilled(lib, q, old', new', keys, t, added)
    requires IsFound(q, new', keys, r)
    ensures IsServed(lib, q, old', keys, r)
  {
    forall k | k in r ensures k in Wanted(lib, q, keys) && r[k] == Served(lib, q, old', keys, k) {
      RefilledKey(lib, q, old', new', keys, t, added, k);
    }
  }

  /** Nothing was missing. */
  lemma AllFoundIsServed(lib: Library, q: Request, entries: Entries<Values>, keys: seq<string>, r: map<string, Values>,
      maxEntries: int)
    requires q.Injective() && SaneFor(lib, q, entries) && IsFound(q, entries, keys, r)
      && Missing(q, entries, keys) == []
    requires Room(maxEntries, |entries|)
    ensures IsServed(lib, q, entries, keys, r) && r.Keys == Wanted(lib, q, keys)
      && Room(maxEntries, |Wanted(lib, q, keys)|)
  {
    forall k | k in keys ensures Find(entries, q.cacheKey(k)).Some? {
      MissingAre(q, entries, keys, k);
    }
    FoundAtMost(entries, Wanted(lib, q, keys), q);
  }

  lemma WantedIsHitsAndMisses(lib: Library, q: Request, old': Entries<Values>, new': Entries<Values>, keys: seq<string>,
      hits: map<string, Values>, t: map<string, Values>, added: map<string, Values>)
    requires q.Injective() && SaneFor(lib, q, old') && Refilled(lib, q, old', new', keys, t, added)
    requires IsFound(q, old', keys, hits)
    ensures Wanted(lib, q, keys) == hits.Keys + t.Keys && |Wanted(lib, q, keys)| == |hits| + |t|
  {
    forall k ensures (k in Wanted(lib, q, keys) <==> k in hits || k in t) && !(k in hits && k in t) {
      HitOrMiss(lib, q, old', keys, hits, t, k);
    }
    TwoParts(Wanted(lib, q, keys), hits, t);
  }

  lemma TwoParts(all: set<string>, a: map<string, Values>, b: map<string, Values>)
    requires Parted(all, a.Keys, b.Keys)
    ensures all == a.Keys + b.Keys && |all| == |a| + |b|
  {
    assert a.Keys !! b.Keys;
    assert |a.Keys| == |a| && |b.Keys| == |b| && |a.Keys + b.Keys| == |a.Keys| + |b.Keys|;
  }

  lemma HitOrMiss(lib: Library, q: Request, entries: Entries<Values>, keys: seq<string>, hits: map<string, Values>,
      t: map<string, Values>, k: string)
    requires SaneFor(lib, q, entries) && IsFound(q, entries, keys, hits)
    requires Raw(lib, q, Missing(q, entries, keys), t)
    ensures (k in Wanted(lib, q, keys) <==> k in hits || k in t) && !(k in hits && k in t)
  {
    MissingAre(q, entries, keys, k);
  }

  /** All keys are served just when the cache has room for those with values. */
  lemma CompleteIffRoom(lib: Library, q: Request, maxEntries: int, entries: Entries<Values>, keys: seq<string>,
      r: map<string, Values>)
    requires q.Injective() && IsFound(q, entries, keys, r) && r.Keys <= Wanted(lib, q, keys)
      && Room(maxEntries, |entries|)
    requires Room(maxEntries, |Wanted(lib, q, keys)|) ==>
      InFront(q, entries, |Wanted(lib, q, keys)|, Wanted(lib, q, keys))
    ensures r.Keys == Wanted(lib, q, keys) <==> Room(maxEntries, |Wanted(lib, q, keys)|)
  {
    var wanted := Wanted(lib, q, keys);
    if r.Keys == wanted {
      FoundAtMost(entries, wanted, q);
    }
    if Room(maxEntries, |wanted|) {
      forall k | k in wanted ensures k in r {
        WithinIsFound(entries, |wanted|, q.cacheKey(k));
      }
    }
  }

  /** The cache stays right just when what was served is right. */
  lemma RightIffServedRight(lib: Library, q: Request, old': Entries<Values>, new': Entries<Values>, keys: seq<string>,
      t: map<string, Values>, added: map<string, Values>, r: map<string, Values>)
    requires q.Valid() && q.Injective() && CacheOk(lib, old') && Refilled(lib, q, old', new', keys, t, added)
    requires IsFound(q, new', keys, r)
    ensures CacheOk(lib, new') <==> forall k | k in r :: r[k] == q.Answer(lib, k)
  {
    if forall k | k in r :: r[k] == q.Answer(lib, k) {
      AddedRight(lib, q, old', new', keys, t, added, r);
      FilledIsOk(lib, q, old', new', t, added);
    }
    if CacheOk(lib, new') {
      CacheForRequest(lib, q, new');
    }
  }

  lemma AddedRight(lib: Library, q: Request, old': Entries<Values>, new': Entries<Values>, keys: seq<string>,
      t: map<string, Values>, added: map<string, Values>, r: map<string, Values>)
    requires q.Injective() && Refilled(lib, q, old', new', keys, t, added) && IsFound(q, new', keys, r)
    requires forall k | k in r :: r[k] == q.Answer(lib, k)
    ensures forall k | k in t && Find(new', q.cacheKey(k)).Some? :: t[k] == q.Answer(lib, k) != []
  {
    forall k | k in t && Find(new', q.cacheKey(k)).Some? ensures t[k] == q.Answer(lib, k) != [] {
      MissingAre(q, old', keys, k);
      RefilledKey(lib, q, old', new', keys, t, added, k);
      assert k in r;
    }
  }

  lemma ServedRight(lib: Library, q: Request, entries: Entries<Values>, keys: seq<string>, k: string)
    requires OkFor(lib, q, entries) && k in Wanted(lib, q, keys)
    ensures Served(lib, q, entries, keys, k) == q.Answer(lib, k)
      <==> Find(entries, q.cacheKey(k)).Some? || multiset(keys)[k] == 1
  {
    RepeatedIsOnce(q.Answer(lib, k), multiset(keys)[k]);
  }

  /** What is served is the uncached answer just when all keys are served and none
      that is not cached is asked twice. */
  lemma UncachedIff(lib: Library, q: Request, entries: Entries<Values>, keys: seq<string>, r: map<string, Values>)
    requires OkFor(lib, q, entries) && IsServed(lib, q, entries, keys, r)
    ensures r == Uncached(lib, q, keys) <==> r.Keys == Wanted(lib, q, keys) && AskedWell(lib, q, entries, keys)
  {
    var all := Uncached(lib, q, keys);
    assert all.Keys == Wanted(lib, q, keys);
    if r.Keys == all.Keys {
      forall k | k in all.Keys
        ensures r[k] == all[k] <==> Find(entries, q.cacheKey(k)).Some? || multiset(keys)[k] == 1
      {
        ServedRight(lib, q, entries, keys, k);
      }
      assert r == all <==> forall k | k in all.Keys :: r[k] == all[k];
    }
  }

  /** The keys `ks` are among the first `n` entries. */
  ghost predicate InFront(q: Request, entries: Entries<Values>, n: nat, ks: set<string>) {
    forall k | k in ks :: Within(entries, n, q.cacheKey(k))
  }

  ghost predicate Parted(all: set<string>, pending: set<string>, done: set<string>) {
    forall k :: (k in all <==> k in pending || k in done) && !(k in pending && k in done)
  }

  lemma MoveOne(all: set<string>, pending: set<string>, done: set<string>, k: string)
    requires Parted(all, pending, done) && k in pending
    ensures Parted(all, pending - {k}, done + {k}) && |pending - {k}| == |pending| - 1 && k in all && k !in done
  {
  }

  /** What a cached query comes to, from a cache `old'` to a cache `new'`. */
  ghost predicate Outcome(lib: Library, q: Request, maxEntries: int, old': Entries<Values>, new': Entries<Values>,
      keys: seq<string>, r: map<string, Values>)
  {
    && CacheSane(lib, new') && IsServed(lib, q, old', keys, r)
    && (r.Keys == Wanted(lib, q, keys) <==> Room(maxEntries, |Wanted(lib, q, keys)|))
    && (CacheOk(lib, old') ==> (CacheOk(lib, new') <==> forall k | k in r :: r[k] == q.Answer(lib, k)))
  }

  lemma AllFoundOutcome(lib: Library, q: Request, maxEntries: int, old': Entries<Values>, new': Entries<Values>,
      keys: seq<string>, r: map<string, Values>)
    requires q.Valid() && CacheSane(lib, old') && Room(maxEntries, |old'|) && SameFinds(new', old')
    requires IsFound(q, old', keys, r) && Missing(q, old', keys) == []
    ensures Outcome(lib, q, maxEntries, old', new', keys, r)
  {
    KeysAreInjective(q);
    CacheForRequest(lib, q, old');
    SameFindsSame(lib, new', old');
    AllFoundIsServed(lib, q, old', keys, r, maxEntries);
  }

  lemma RefilledOutcome(lib: Library, q: Request, maxEntries: int, e0: Entries<Values>, e2: Entries<Values>,
      e3: Entries<Values>, keys: seq<string>, hits: map<string, Values>, t: map<string, Values>,
      added: map<string, Values>, r: map<string, Values>)
    requires q.Valid() && CacheSane(lib, e0) && Room(maxEntries, |e2|) && SameFinds(e3, e2)
    requires IsFound(q, e0, keys, hits) && Refilled(lib, q, e0, e2, keys, t, added) && IsFound(q, e2, keys, r)
    requires Room(maxEntries, |hits| + |t|) ==> BothWithin(e2, |hits| + |t|, q, hits.Keys, t.Keys)
    ensures Outcome(lib, q, maxEntries, e0, e3, keys, r)
  {
    KeysAreInjective(q);
    CacheForRequest(lib, q, e0);
    RefilledServes(lib, q, maxEntries, e0, e2, keys, hits, t, added, r);
    SameFindsSame(lib, e3, e2);
    FilledIsSane(lib, q, e0, e2, Missing(q, e0, keys), t, added);
    if CacheOk(lib, e0) {
      RightIffServedRight(lib, q, e0, e2, keys, t, added, r);
    }
  }

  lemma RefilledServes(lib: Library, q: Request, maxEntries: int, e0: Entries<Values>, e2: Entries<Values>,
      keys: seq<string>, hits: map<string, Values>, t: map<string, Values>, added: map<string, Values>,
      r: map<string, Values>)
    requires q.Injective() && SaneFor(lib, q, e0) && Room(maxEntries, |e2|)
    requires IsFound(q, e0, keys, hits) && Refilled(lib, q, e0, e2, keys, t, added) && IsFound(q, e2, keys, r)
    requires Room(maxEntries, |hits| + |t|) ==> BothWithin(e2, |hits| + |t|, q, hits.Keys, t.Keys)
    ensures IsServed(lib, q, e0, keys, r)
    ensures r.Keys == Wanted(lib, q, keys) <==> Room(maxEntries, |Wanted(lib, q, keys)|)
  {
    WantedIsHitsAndMisses(lib, q, e0, e2, keys, hits, t, added);
    FoundIsServed(lib, q, e0, e2, keys, t, added, r);
    CompleteIffRoom(lib, q, maxEntries, e2, keys, r);
  }

  class Namespace {
    const cache: Lru<Values>
    const lib: Library

    constructor (cacheSize: int, lib: Library)
      ensures this.lib == lib && fresh(cache) && cache.Valid() && cache.maxEntries == cacheSize && cache.entries == []
    {
      this.cache := new Lru(cacheSize);
      this.lib := lib;
    }

    /** Reads one key more than `ks`. */
    method ReadOne(q: Request, ghost ks: seq<string>, key: string, ghost e0: Entries<Values>,
        found: map<string, Values>, missing: seq<string>)
      returns (values: map<string, Values>, missingKeys: seq<string>)
      requires cache.Valid() && SameFinds(cache.entries, e0) && InFront(q, cache.entries, |found|, found.Keys)
      requires found == Found(q, e0, ks) && missing == Missing(q, e0, ks)
      modifies cache
      ensures cache.Valid() && SameFinds(cache.entries, e0) && InFront(q, cache.entries, |values|, values.Keys)
      ensures values == Found(q, e0, ks + [key]) && missingKeys == Missing(q, e0, ks + [key])
    {
      TouchedIsSame(cache.entries, q.cacheKey(key));
      FoundSnoc(q, e0, ks, key);
      ReadStaysInFront(cache.entries, q, key, found);
      assert Find(cache.entries, q.cacheKey(key)) == Find(e0, q.cacheKey(key));
      var v := cache.Get(q.cacheKey(key));
      if v.Some? {
        values, missingKeys := found[key := v.value], missing;
      } else {
        values, missingKeys := found, missing + [key];
      }
    }

    /** Reads each key in turn; reading changes the order of the cache only, and
        leaves the keys that were found at its front. */
    method BatchReadFromCache(q: Request, keys: seq<string>)
      returns (values: map<string, Values>, missingKeys: seq<string>)
      requires cache.Valid()
      modifies cache
      ensures cache.Valid() && SameFinds(cache.entries, old(cache.entries))
      ensures IsFound(q, old(cache.entries), keys, values) && missingKeys == Missing(q, old(cache.entries), keys)
      ensures InFront(q, cache.entries, |values|, values.Keys)
    {
      ghost var e0 := cache.entries;
      values, missingKeys := map[], [];
      for i := 0 to |keys|
        invariant cache.Valid() && SameFinds(cache.entries, e0)
        invariant values == Found(q, e0, keys[..i]) && missingKeys == Missing(q, e0, keys[..i])
        invariant InFront(q, cache.entries, |values|, values.Keys)
      {
        assert keys[..i + 1] == keys[..i] + [keys[i]];
        values, missingKeys := ReadOne(q, keys[..i], keys[i], e0, values, missingKeys);
      }
      assert keys[..|keys|] == keys;
      FoundAre(q, e0, keys);
    }

    /** Asking the library itself; it refuses an empty request. Each key gets its
        values as often as it is asked. */
    method GetCfgRawNoCache(q: Request, keys: seq<string>) returns (r: Option<map<string, Values>>)
      ensures r.None? <==> keys == []
      ensures r.Some? ==> Raw(lib, q, keys, r.value)
      ensures r.Some? ==> GroupsOf(r.value, lib.Query(q.whoami.hash, keys, q.view, q.needExplain))
    {
      if keys == [] {
        return None;
      }
      var m := ConvertGetCFGOutput(Converted(lib.Query(q.whoami.hash, keys, q.view, q.needExplain)));
      GroupedFields(m, lib.Query(q.whoami.hash, keys, q.view, q.needExplain));
      ghost var one := lib.ForKey(q.whoami.hash, q.view, q.needExplain);
      AnswersDecompose(lib, q.whoami.hash, keys, q.view, q.needExplain);
      AnswersAreKeyed(lib, q.whoami.hash, q.view, q.needExplain);
      forall k ensures WithKey(RawValues(one, keys), k) == Repeated(q.Answer(lib, k), multiset(keys)[k]) {
        GroupedRaw(one, keys, k);
      }
      forall k ensures k in m <==> k in keys && q.Answer(lib, k) != [] {
        RepeatedIsOnce(q.Answer(lib, k), multiset(keys)[k]);
        assert k in keys <==> multiset(keys)[k] > 0;
      }
      r := Some(m);
    }

    /** Adds the values of one more key of `t`. */
    method AddOne(q: Request, t: map<string, Values>, key: string, ghost e0: Entries<Values>,
        ghost added: map<string, Values>, ghost hits: set<string>, ghost done: set<string>, ghost n: nat,
        ghost room: bool)
      returns (ghost more: map<string, Values>)
      requires q.Injective() && key in t && key !in done
      requires room ==> cache.maxEntries == 0 || n + 1 <= cache.maxEntries
      requires cache.Valid() && Filling(q, t, done, added) && FilledWith(e0, cache.entries, added)
      modifies cache
      ensures cache.Valid() && Filling(q, t, done + {key}, more) && FilledWith(e0, cache.entries, more)
      ensures room && BothWithin(old(cache.entries), n, q, hits, done)
        ==> BothWithin(cache.entries, n + 1, q, hits, done + {key})
    {
      ghost var before := cache.entries;
      cache.Add(q.cacheKey(key), t[key]);
      more := added[q.cacheKey(key) := t[key]];
      FillingGoesOn(q, t, done, added, key);
      FilledGoesOn(cache.maxEntries, e0, before, added, q.cacheKey(key), t[key]);
      if room && BothWithin(before, n, q, hits, done) {
        FillKeepsBoth(cache.maxEntries, before, q, key, t[key], hits, done, n);
      }
    }

    /** Fills the cache with `t`, in an order of the map's choosing. The keys `hits`
        are among the first `n` entries before. */
    method Fill(q: Request, t: map<string, Values>, ghost hits: set<string>, ghost n: nat)
      returns (ghost added: map<string, Values>)
      requires q.Injective() && cache.Valid() && InFront(q, cache.entries, n, hits)
      modifies cache
      ensures cache.Valid() && ByKey(q, t, added) && FilledWith(old(cache.entries), cache.entries, added)
      ensures Room(cache.maxEntries, n + |t|) ==> BothWithin(cache.entries, n + |t|, q, hits, t.Keys)
    {
      ghost var e0, keys, room := cache.entries, t.Keys, Room(cache.maxEntries, n + |t|);
      ghost var done, m: nat := {}, n;
      var pending := t.Keys;
      added := map[];
      assert |keys| == |t|;
      while pending != {}
        invariant cache.Valid() && m + |pending| == n + |t| && Parted(keys, pending, done)
        invariant Filling(q, t, done, added) && FilledWith(e0, cache.entries, added)
        invariant room ==> BothWithin(cache.entries, m, q, hits, done)
      {
        var key :| key in pending;
        MoveOne(keys, pending, done, key);
        added := AddOne(q, t, key, e0, added, hits, done, m, room);
        pending, done, m := pending - {key}, done + {key}, m + 1;
      }
      assert done == keys;
    }

    /** The cached query. A key is served what is cached for it, else the library's
        answer as often as the request has the key; all keys are served just when
        the cache has room for those with values; and where the cache was right,
        the result is the uncached one just when moreover no key that is not
        cached is asked twice. */
    method GetCfg(q: Request, keys: seq<string>) returns (r: Option<map<string, Values>>)
      requires q.Valid() && cache.Valid() && CacheSane(lib, cache.entries)
      modifies cache
      ensures cache.Valid() && CacheSane(lib, cache.entries) && r.Some?
      ensures IsServed(lib, q, old(cache.entries), keys, r.value)
      ensures r.value.Keys == Wanted(lib, q, keys) <==> Room(cache.maxEntries, |Wanted(lib, q, keys)|)
      ensures CacheOk(lib, old(cache.entries)) ==>
        (CacheOk(lib, cache.entries) <==> forall k | k in r.value :: r.value[k] == q.Answer(lib, k))
      ensures CacheOk(lib, old(cache.entries)) ==>
        (r.value == Uncached(lib, q, keys) <==> ServesUncached(lib, q, cache.maxEntries, old(cache.entries), keys))
    {
      ghost var e0 := cache.entries;
      KeysAreInjective(q);
      var values, missingKeys := BatchReadFromCache(q, keys);
      if |missingKeys| == 0 {
        AllFoundOutcome(lib, q, cache.maxEntries, e0, cache.entries, keys, values);
        r := Some(values);
      } else {
        ghost var hits := values;
        var t := GetCfgRawNoCache(q, missingKeys);
        if t.None? {
          return None;
        }
        ghost var added := Fill(q, t.value, values.Keys, |values|);
        ghost var e2 := cache.entries;
        values, missingKeys := BatchReadFromCache(q, keys);
        RefilledOutcome(lib, q, cache.maxEntries, e0, e2, cache.entries, keys, hits, t.value, added, values);
        r := Some(values);
      }
      if CacheOk(lib, e0) {
        CacheForRequest(lib, q, e0);
        UncachedIff(lib, q, e0, keys, r.value);
      }
    }
  }
}
