/**
 The least-recently-used cache under the Go binding (bindings/go/eafcc.go), its
 most recent entry first. The package `groupcache/lru` is not part of this model;
 the cache here follows its published behaviour.
 */
module LruCache {
  import opened Common

  type Entries<V> = seq<(string, V)>

  function Find<V>(entries: Entries<V>, key: string): Option<V> {
    if entries == [] then None
    else if entries[0].0 == key then Some(entries[0].1)
    else Find(entries[1..], key)
  }

  function Without<V>(entries: Entries<V>, key: string): (r: Entries<V>)
    ensures |r| <= |entries|
  {
    if entries == [] then []
    else (if entries[0].0 == key then [] else [entries[0]]) + Without(entries[1..], key)
  }

  function Touched<V>(entries: Entries<V>, key: string): Entries<V> {
    match Find(entries, key)
    case None => entries
    case Some(v) => [(key, v)] + Without(entries, key)
  }

  /** Adding drops the oldest entry of a cache that has become too long; 0 means no limit. */
  function Added<V>(maxEntries: int, entries: Entries<V>, key: string, v: V): Entries<V> {
    var all := [(key, v)] + Without(entries, key);
    if maxEntries != 0 && |all| > maxEntries then all[..|all| - 1] else all
  }

  /** The cache can hold `n` entries. */
  predicate Room(maxEntries: int, n: nat) { maxEntries == 0 || n == 0 || n <= maxEntries }

  ghost predicate NoRepeats<V>(entries: Entries<V>) {
    forall i, j | 0 <= i < j < |entries| :: entries[i].0 != entries[j].0
  }

  class Lru<V(!new)> {
    const maxEntries: int
    var entries: Entries<V>

    ghost predicate Valid()
      reads this
    {
      NoRepeats(entries) && Room(maxEntries, |entries|)
    }

    constructor (maxEntries: int)
      ensures Valid() && this.maxEntries == maxEntries && entries == []
    {
      this.maxEntries, entries := maxEntries, [];
    }

    method Get(key: string) returns (r: Option<V>)
      requires Valid()
      modifies this
      ensures Valid() && r == Find(old(entries), key) && entries == Touched(old(entries), key)
    {
      r := Find(entries, key);
      if r.Some? {
        WithoutKeys(entries, key);
        entries := [(key, r.value)] + Without(entries, key);
      }
    }

    method Add(key: string, v: V)
      requires Valid()
      modifies this
      ensures Valid() && entries == Added(maxEntries, old(entries), key, v)
    {
      WithoutKeys(entries, key);
      entries := [(key, v)] + Without(entries, key);
      if maxEntries != 0 && |entries| > maxEntries {
        entries := entries[..|entries| - 1];
      }
    }
  }

  /** Removing a key leaves the other entries, each once. */
  lemma {:induction false} WithoutKeys<V>(entries: Entries<V>, gone: string)
    requires NoRepeats(entries)
    ensures NoRepeats(Without(entries, gone))
    ensures |Without(entries, gone)| == |entries| - if Find(entries, gone).Some? then 1 else 0
    ensures forall i | 0 <= i < |Without(entries, gone)| :: Without(entries, gone)[i].0 != gone
  {
    if entries != [] {
      var first, rest := entries[0], Without(entries[1..], gone);
      WithoutKeys(entries[1..], gone);
      FirstIsAlone(entries);
      if first.0 == gone {
        assert Without(entries, gone) == rest;
        NotFound(entries[1..], gone);
      } else {
        WithoutIsPart(entries[1..], gone, first.0);
        assert Without(entries, gone) == [first] + rest;
      }
    }
  }

  lemma FirstIsAlone<V>(entries: Entries<V>)
    requires NoRepeats(entries) && entries != []
    ensures forall i | 0 <= i < |entries| - 1 :: entries[1..][i].0 != entries[0].0
  {
    assert forall i | 0 <= i < |entries| - 1 :: entries[1..][i] == entries[i + 1];
  }

  /** A key that no entry has, no remaining entry has. */
  lemma {:induction false} WithoutIsPart<V>(entries: Entries<V>, gone: string, key: string)
    requires forall i | 0 <= i < |entries| :: entries[i].0 != key
    ensures forall i | 0 <= i < |Without(entries, gone)| :: Without(entries, gone)[i].0 != key
  {
    if entries != [] {
      assert forall i | 0 <= i < |entries| - 1 :: entries[1..][i] == entries[i + 1];
      WithoutIsPart(entries[1..], gone, key);
    }
  }

  lemma {:induction false} NotFound<V>(entries: Entries<V>, key: string)
    requires forall i | 0 <= i < |entries| :: entries[i].0 != key
    ensures Find(entries, key).None?
  {
    if entries != [] {
      NotFound(entries[1..], key);
    }
  }

  /** The key is among the first `n` entries. */
  predicate Within<V>(entries: Entries<V>, n: nat, key: string) {
    exists i | 0 <= i < n && i < |entries| :: entries[i].0 == key
  }

  lemma {:induction false} FindWithout<V>(entries: Entries<V>, gone: string, key: string)
    ensures Find(Without(entries, gone), key) == if key == gone then None else Find(entries, key)
  {
    if entries != [] {
      FindWithout(entries[1..], gone, key);
      if entries[0].0 != gone {
        assert Without(entries, gone)[1..] == Without(entries[1..], gone);
      } else {
        assert Without(entries, gone) == Without(entries[1..], gone);
      }
    }
  }

  /** Removing a key moves no other key back, and those behind it forward. */
  lemma {:induction false} WithinWithout<V>(entries: Entries<V>, gone: string, n: nat, key: string)
    requires key != gone && Within(entries, n, key)
    ensures Within(Without(entries, gone), n, key)
    ensures Within(entries, n, gone) ==> n >= 1 && Within(Without(entries, gone), n - 1, key)
  {
    var i :| 0 <= i < n && i < |entries| && entries[i].0 == key;
    var rest := Without(entries[1..], gone);
    if i == 0 {
      assert Without(entries, gone)[0] == entries[0];
      if g :| 0 <= g < n && g < |entries| && entries[g].0 == gone {
        assert n >= 2;
      }
    } else {
      assert entries[1..][i - 1].0 == key;
      WithinWithout(entries[1..], gone, n - 1, key);
      var j :| 0 <= j < n - 1 && j < |rest| && rest[j].0 == key;
      if entries[0].0 == gone {
        assert Without(entries, gone)[j] == rest[j];
      } else {
        assert Without(entries, gone)[j + 1] == rest[j];
        if g :| 0 <= g < n && g < |entries| && entries[g].0 == gone {
          assert entries[1..][g - 1].0 == gone;
          var h :| 0 <= h < n - 2 && h < |rest| && rest[h].0 == key;
          assert Without(entries, gone)[h + 1] == rest[h];
        }
      }
    }
  }

  lemma {:induction false} FindFirst<V>(entries: Entries<V>, i: nat, key: string)
    requires i < |entries| && entries[i].0 == key
    ensures Find(entries, key).Some?
  {
    if entries[0].0 != key {
      assert entries[1..][i - 1] == entries[i];
      FindFirst(entries[1..], i - 1, key);
    }
  }

  lemma WithinIsFound<V>(entries: Entries<V>, n: nat, key: string)
    requires Within(entries, n, key)
    ensures Find(entries, key).Some?
  {
    var i :| 0 <= i < n && i < |entries| && entries[i].0 == key;
    FindFirst(entries, i, key);
  }

  /** Reading loses no key, and moves none back by more than one place; a key at
      the front stays there when another one at the front is read. */
  lemma TouchedKeeps<V>(entries: Entries<V>, touched: string, n: nat, key: string)
    ensures Find(Touched(entries, touched), key) == Find(entries, key)
    ensures Within(entries, n, key) ==> Within(Touched(entries, touched), n + 1, key)
    ensures Within(entries, n, key) && Within(entries, n, touched) ==> Within(Touched(entries, touched), n, key)
    ensures Find(entries, touched).Some? ==> Within(Touched(entries, touched), n + 1, touched)
  {
    var found := Find(entries, touched);
    if found.Some? {
      var r, rest := Touched(entries, touched), Without(entries, touched);
      assert r[0] == (touched, found.value) && r[1..] == rest;
      FindWithout(entries, touched, key);
      if Within(entries, n, key) && key != touched {
        WithinWithout(entries, touched, n, key);
        var j :| 0 <= j < n && j < |rest| && rest[j].0 == key;
        assert r[j + 1].0 == key;
        if Within(entries, n, touched) {
          var i :| 0 <= i < n - 1 && i < |rest| && rest[i].0 == key;
          assert r[i + 1].0 == key;
        }
      }
    } else if Within(entries, n, key) {
      var i :| 0 <= i < n && i < |entries| && entries[i].0 == key;
      assert 0 <= i < n + 1;
      if Within(entries, n, touched) {
        WithinIsFound(entries, n, touched);
      }
    }
  }

  /** Cutting the end of a list changes no first match that is left. */
  lemma {:induction false} FindInPrefix<V>(entries: Entries<V>, n: nat, key: string)
    requires n <= |entries|
    ensures Find(entries[..n], key).Some? ==> Find(entries[..n], key) == Find(entries, key)
    ensures Within(entries, n, key) ==> Find(entries[..n], key) == Find(entries, key)
  {
    if n > 0 {
      assert entries[..n][1..] == entries[1..][..n - 1];
      FindInPrefix(entries[1..], n - 1, key);
      if Within(entries, n, key) && entries[0].0 != key {
        var i :| 0 <= i < n && entries[i].0 == key;
        assert entries[1..][i - 1].0 == key;
      }
    }
  }

  /** Adding brings in nothing but the new entry. */
  lemma AddedBrings<V>(maxEntries: int, entries: Entries<V>, added: string, v: V, key: string)
    ensures var r := Added(maxEntries, entries, added, v);
      Find(r, key).Some? ==> Find(r, key) == if key == added then Some(v) else Find(entries, key)
  {
    var all := [(added, v)] + Without(entries, added);
    assert all[0] == (added, v) && all[1..] == Without(entries, added);
    FindWithout(entries, added, key);
    var r := Added(maxEntries, entries, added, v);
    FindInPrefix(all, |r|, key);
    assert r == all[..|r|];
  }

  /** While the limit is not below `n + 1`, adding loses none of the first `n` entries. */
  lemma AddedKeeps<V>(maxEntries: int, entries: Entries<V>, added: string, v: V, n: nat, key: string)
    requires maxEntries == 0 || n + 1 <= maxEntries
    ensures var r := Added(maxEntries, entries, added, v);
      && Find(r, added) == Some(v) && Within(r, n + 1, added)
      && (key != added && Within(entries, n, key) ==> Within(r, n + 1, key) && Find(r, key) == Find(entries, key))
  {
    var all := [(added, v)] + Without(entries, added);
    assert all[0] == (added, v) && all[1..] == Without(entries, added);
    FindWithout(entries, added, key);
    var r := Added(maxEntries, entries, added, v);
    assert r == all[..|r|] && |r| >= 1 && r[0] == all[0];
    FindInPrefix(all, |r|, key);
    if key != added && Within(entries, n, key) {
      WithinWithout(entries, added, n, key);
      var j :| 0 <= j < n && j < |all| - 1 && Without(entries, added)[j].0 == key;
      assert all[j + 1].0 == key && j + 1 < |r|;
      assert r[j + 1].0 == key;
      assert Within(all, |r|, key);
    }
  }

  /** With a limit of one, of two keys that are added the first is lost. */
  lemma OneEntryLoses<V>(entries: Entries<V>, k1: string, v1: V, k2: string, v2: V)
    requires k1 != k2 && |entries| <= 1
    ensures Find(Added(1, Added(1, entries, k1, v1), k2, v2), k1).None?
  {
    var once := Added(1, entries, k1, v1);
    var all := [(k2, v2)] + Without(once, k2);
    assert |Added(1, once, k2, v2)| == 1;
    assert Added(1, once, k2, v2)[0] == (k2, v2);
  }
}
