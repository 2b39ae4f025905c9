/**
 The configuration centre and its namespaces (src/cfg_center/cfg_center.rs,
 src/cfg_center/namespace.rs, src/cfg_center/differ.rs), one call at a time.
 Interleavings of calls are the subject of `UpdateProtocol`.
 */
module CfgCenter {
  import opened Common
  import opened RuleEngine
  import opened IndexData
  import opened Stores
  import opened CfgIndex
  import opened Querier
  import opened MemStore

  /** What a callback is given: the store before an update and the one after. */
  datatype Differ = Differ(notifyLevel: NotifyLevel, oldMemStore: MemStorage, newMemStore: MemStorage,
      changedFiles: seq<string>)
  {
    method GetFromOld(whoami: MatchContext, keys: seq<string>, view: ViewMode, needExplain: bool)
      returns (ret: seq<CFGResult>)
      requires Ready(oldMemStore.indices)
      ensures Answers(oldMemStore.indices, whoami, keys, view, needExplain, ret)
    {
      ret := Get(oldMemStore.indices, whoami, keys, view, needExplain);
    }

    method GetFromNew(whoami: MatchContext, keys: seq<string>, view: ViewMode, needExplain: bool)
      returns (ret: seq<CFGResult>)
      requires Ready(newMemStore.indices)
      ensures Answers(newMemStore.indices, whoami, keys, view, needExplain, ret)
    {
      ret := Get(newMemStore.indices, whoami, keys, view, needExplain);
    }
  }

  class NamespaceScopedCFGCenter {
    const namespace: string
    const notifyLevel: NotifyLevel
    const hasCallback: bool
    var currentMemstore: MemStorage
    /** What the callback was given so far. */
    var calls: seq<Differ>

    constructor (namespace: string, memStore: MemStorage, notifyLevel: NotifyLevel, hasCallback: bool)
      ensures this.namespace == namespace && this.notifyLevel == notifyLevel && this.hasCallback == hasCallback
      ensures currentMemstore == memStore && calls == []
    {
      this.namespace, this.notifyLevel, this.hasCallback := namespace, notifyLevel, hasCallback;
      currentMemstore, calls := memStore, [];
    }

    method GetCfg(whoami: MatchContext, keys: seq<string>, view: ViewMode, needExplain: bool)
      returns (ret: seq<CFGResult>)
      requires Ready(currentMemstore.indices)
      ensures Answers(currentMemstore.indices, whoami, keys, view, needExplain, ret)
    {
      ret := Get(currentMemstore.indices, whoami, keys, view, needExplain);
    }

    /** Tells the callback, where there is one to tell, then swaps the store. */
    method UpdateCallback(newMemStore: MemStorage, changes: seq<string>)
      modifies this
      ensures currentMemstore == if notifyLevel.NoNotify? then old(currentMemstore) else newMemStore
      ensures calls == old(calls)
        + if notifyLevel.NotifyWithoutChangedKeysByGlobal? && hasCallback
          then [Differ(notifyLevel, old(currentMemstore), newMemStore, changes)] else []
    {
      match notifyLevel {
        case NotifyWithoutChangedKeysByGlobal =>
          if hasCallback {
            calls := calls + [Differ(notifyLevel, currentMemstore, newMemStore, changes)];
          }
        case NotifyWithoutChangedKeysInNamespace =>
        case NotifyWithMaybeChangedKeys =>
        case NoNotify => return;
      }
      currentMemstore := newMemStore;
    }
  }

  /** The store of a namespace after an update that finds it with `store`. */
  ghost function StoreAfter(b: Backend, level: NotifyLevel, namespace: string, before: VersionItem, after: VersionItem,
      store: MemStorage): MemStorage
  {
    var new' := StoreAt(b, namespace, after);
    var changed := b.diff(before, after, namespace);
    match level
    case NoNotify => store
    case NotifyWithMaybeChangedKeys => store
    case NotifyWithoutChangedKeysByGlobal => if new'.Some? then new'.value else store
    case NotifyWithoutChangedKeysInNamespace =>
      if changed.Some? && |changed.value| > 0 && new'.Some? then new'.value else store
  }

  /** What such an update gives the callback. */
  ghost function CallsOf(b: Backend, level: NotifyLevel, hasCallback: bool, namespace: string, after: VersionItem,
      store: MemStorage): seq<Differ>
  {
    var new' := StoreAt(b, namespace, after);
    if level.NotifyWithoutChangedKeysByGlobal? && hasCallback && new'.Some? then
      [Differ(level, store, new'.value, [])]
    else []
  }

  class CFGCenter {
    const backend: Backend
    var namespaces: map<string, NamespaceScopedCFGCenter>
    var currentVersion: VersionItem

    ghost predicate Valid()
      reads this, namespaces.Values
    {
      && backend.Valid()
      && forall ns | ns in namespaces :: namespaces[ns].namespace == ns
    }

    constructor (backend: Backend, version: VersionItem)
      requires backend.Valid()
      ensures Valid() && this.backend == backend && namespaces == map[] && currentVersion == version
    {
      this.backend, namespaces, currentVersion := backend, map[], version;
    }

    method GetNamespaceScopedCfgCenter(namespace: string) returns (r: Option<NamespaceScopedCFGCenter>)
      ensures r.Some? <==> namespace in namespaces
      ensures r.Some? ==> r.value == namespaces[namespace]
    {
      r := if namespace in namespaces then Some(namespaces[namespace]) else None;
    }

    method CreateNamespaceScopedCfgCenter(namespace: string, notifyLevel: NotifyLevel, hasCallback: bool)
      returns (r: Option<NamespaceScopedCFGCenter>)
      requires Valid()
      modifies this`namespaces
      ensures Valid()
      ensures r.Some? <==>
        && namespace != "" && namespace[0] == '/' && namespace[|namespace| - 1] == '/'
        && StoreAt(backend, namespace, currentVersion).Some?
      ensures r.None? ==> namespaces == old(namespaces)
      ensures r.Some? ==> fresh(r.value) && namespaces == old(namespaces)[namespace := r.value]
      ensures r.Some? ==> r.value.namespace == namespace && r.value.notifyLevel == notifyLevel
      ensures r.Some? ==> r.value.hasCallback == hasCallback && r.value.calls == []
      ensures r.Some? ==> Some(r.value.currentMemstore) == StoreAt(backend, namespace, currentVersion)
    {
      if !("/" <= namespace) || namespace[|namespace| - 1] != '/' {
        return None;
      }
      var memStore := NewMemStorage(backend, namespace, currentVersion);
      if memStore.None? {
        return None;
      }
      var v := new NamespaceScopedCFGCenter(namespace, memStore.value, notifyLevel, hasCallback);
      namespaces := namespaces[namespace := v];
      r := Some(v);
    }

    /** One namespace's share of an update: the body of the loop. */
    method UpdateOne(center: NamespaceScopedCFGCenter, newVersion: VersionItem)
      requires backend.Valid()
      modifies center
      ensures center.currentMemstore
           == StoreAfter(backend, center.notifyLevel, center.namespace, currentVersion, newVersion,
               old(center.currentMemstore))
      ensures center.calls == old(center.calls)
            + CallsOf(backend, center.notifyLevel, center.hasCallback, center.namespace, newVersion,
                old(center.currentMemstore))
    {
      match center.notifyLevel
      case NotifyWithoutChangedKeysByGlobal =>
        var newMemStore := NewMemStorage(backend, center.namespace, newVersion);
        if newMemStore.Some? {
          center.UpdateCallback(newMemStore.value, []);
        }
      case NotifyWithoutChangedKeysInNamespace =>
        var changedFiles := backend.diff(currentVersion, newVersion, center.namespace);
        if changedFiles.Some? && |changedFiles.value| != 0 {
          var newMemStore := NewMemStorage(backend, center.namespace, newVersion);
          if newMemStore.Some? {
            center.UpdateCallback(newMemStore.value, changedFiles.value);
          }
        }
      case NotifyWithMaybeChangedKeys =>
        // The store that the source builds here is dropped at once.
        var changedFiles := backend.diff(currentVersion, newVersion, center.namespace);
        if changedFiles.Some? && |changedFiles.value| != 0 {
          var newMemStore := NewMemStorage(backend, center.namespace, newVersion);
        }
      case NoNotify =>
    }

    method UpdateCallback(newVersion: VersionItem)
      requires Valid()
      modifies this`currentVersion, namespaces.Values
      ensures Valid() && currentVersion == newVersion && namespaces == old(namespaces)
      ensures forall ns | ns in namespaces ::
        var c := namespaces[ns];
        && c.currentMemstore
           == StoreAfter(backend, c.notifyLevel, ns, old(currentVersion), newVersion, old(c.currentMemstore))
        && c.calls == old(c.calls)
           + CallsOf(backend, c.notifyLevel, c.hasCallback, ns, newVersion, old(c.currentMemstore))
    {
      var todo := namespaces.Keys;
      while todo != {}
        invariant todo <= namespaces.Keys && currentVersion == old(currentVersion)
        invariant forall ns | ns in todo :: unchanged(namespaces[ns])
        invariant forall ns | ns in namespaces && ns !in todo ::
          var c := namespaces[ns];
          && c.currentMemstore
             == StoreAfter(backend, c.notifyLevel, ns, old(currentVersion), newVersion, old(c.currentMemstore))
          && c.calls == old(c.calls)
             + CallsOf(backend, c.notifyLevel, c.hasCallback, ns, newVersion, old(c.currentMemstore))
      {
        var ns :| ns in todo;
        UpdateOne(namespaces[ns], newVersion);
        todo := todo - {ns};
      }
      currentVersion := newVersion;
    }
  }
}
