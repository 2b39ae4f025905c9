/**
 The results of the update protocol for the stores that a backend's trees load to.
 */
module UpdateBackend {
  import opened Common
  import opened RuleEngine
  import opened Storage
  import opened IndexData
  import opened Files
  import opened CfgIndex
  import opened Querier
  import opened Stores
  import opened MemStore
  import opened EndToEnd
  import opened UpdateProtocol
  import opened UpdateResults

  /** Every store of a backend that a handle ever serves can be queried. */
  lemma HandlesCanBeQueried(b: Backend, s: State, n: nat)
    requires b.Valid() && Reachable(EnvOf(b), s) && n < |s.handles|
    ensures Ready(s.handles[n].store.indices)
  {
    StoresAreLoads(EnvOf(b), s, n);
    StoresAreReady(b, s.handles[n].ns, s.handles[n].store.version);
  }

  /** When both mutexes are free, every mapped `ByGlobal` namespace serves the
      backend's store for the current version, if it loads. */
  lemma BackendNamespacesAreCurrent(b: Backend, s: State, ns: string)
    requires Reachable(EnvOf(b), s) && s.versionLock.None? && s.namespacesLock.None?
    requires ns in s.namespaces && s.namespaces[ns] < |s.handles| && s.handles[s.namespaces[ns]].ByGlobal()
    requires StoreAt(b, ns, s.current).Some?
    ensures Some(s.handles[s.namespaces[ns]].store) == StoreAt(b, ns, s.current)
  {
    NamespacesAreCurrent(EnvOf(b), s, ns);
  }

  /** The handle serves the namespace whose directories are `ns`, and its store comes
      from the tree of the store's version. */
  lemma HandleServes(b: Backend, s: State, n: nat, ns: Path)
    requires b.Valid() && Reachable(EnvOf(b), s) && n < |s.handles|
    requires s.handles[n].ns == NsText(ns) && forall k | 0 <= k < |ns| :: ValidName(ns[k])
    ensures var store := s.handles[n].store;
      && store.version.id in b.trees && IsLoadable(b.trees[store.version.id], ns)
      && LoadIndices(b.trees[store.version.id], ns) == Some(store.indices)
  {
    StoresAreLoads(EnvOf(b), s, n);
    StoreOfNamespace(b, ns, s.handles[n].store.version);
  }

  /** In every reachable state, what a handle answers in the overlaid view is what
      the files below its namespace, in the tree of its store's version, say. */
  lemma HandlesAnswerFromFiles(b: Backend, s: State, n: nat, ns: Path, whoami: MatchContext, keys: seq<string>,
      explain: bool, ret: seq<CFGResult>)
    returns (parts: seq<seq<CFGResult>>)
    requires b.Valid() && Reachable(EnvOf(b), s) && n < |s.handles|
    requires s.handles[n].ns == NsText(ns) && forall k | 0 <= k < |ns| :: ValidName(ns[k])
    requires Answers(s.handles[n].store.indices, whoami, keys, OverlaidView, explain, ret)
    ensures s.handles[n].store.version.id in b.trees && |parts| == |keys| && ret == Joined(parts)
    ensures forall k | 0 <= k < |keys| ::
      ShownFromFiles(b.trees[s.handles[n].store.version.id], ns, whoami, keys[k], explain, parts[k])
  {
    HandleServes(b, s, n, ns);
    parts := OverlaidFromFiles(b.trees[s.handles[n].store.version.id], ns, whoami, keys, explain, ret);
  }

  /** The same for the view of all linked resources. */
  lemma HandlesAnswerAllFromFiles(b: Backend, s: State, n: nat, ns: Path, whoami: MatchContext, keys: seq<string>,
      ret: seq<CFGResult>, x: IdxLinkItem, kv: KeyValuePair)
    requires b.Valid() && Reachable(EnvOf(b), s) && n < |s.handles|
    requires s.handles[n].ns == NsText(ns) && forall k | 0 <= k < |ns| :: ValidName(ns[k])
    requires Answers(s.handles[n].store.indices, whoami, keys, AllLinkedResView, true, ret)
    ensures s.handles[n].store.version.id in b.trees
    ensures var root := b.trees[s.handles[n].store.version.id];
      && (forall p, spec, q, items | LinkFile(root, ns, p, spec) && PathText(p) == x.linkPath
            && ResFile(root, ns, q, items) && PathText(q) == x.absResPath ::
            multiset(ret)[CFGResult(Some(x), kv)]
            == multiset(keys)[kv.key] * (TimesGiven(root, ns, whoami, spec, x) * TimesHeld(items, kv)))
      && (CFGResult(Some(x), kv) in ret ==>
            && (exists p, spec :: LinkFile(root, ns, p, spec) && PathText(p) == x.linkPath)
            && (exists q, items :: ResFile(root, ns, q, items) && PathText(q) == x.absResPath))
  {
    HandleServes(b, s, n, ns);
    AllLinkedFromFiles(b.trees[s.handles[n].store.version.id], ns, whoami, keys, ret, x, kv);
  }
}
