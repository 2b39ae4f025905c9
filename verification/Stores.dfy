/**
 Versions, stores (an index together with the version it was loaded from,
 src/cfg_center/mem_store.rs), and which store an update gives a namespace
 (src/cfg_center/cfg_center.rs).
 */
module Stores {
  import opened Common
  import opened IndexData

  type ObjectID = string

  datatype VersionItem = VersionItem(name: string, id: ObjectID)

  datatype MemStorage = MemStorage(version: VersionItem, indices: Indices)

  /** What the update protocol needs of a backend: the store of a namespace at a
      version, and the files that differ. */
  datatype Env = Env(load: (string, VersionItem) -> Option<MemStorage>,
                     diff: (VersionItem, VersionItem, string) -> Option<seq<string>>)
  {
    ghost predicate Valid() { forall ns, v :: load(ns, v).Some? ==> load(ns, v).value.version == v }
  }

  datatype NotifyLevel =
    | NoNotify
    | NotifyWithoutChangedKeysByGlobal
    | NotifyWithoutChangedKeysInNamespace
    | NotifyWithMaybeChangedKeys

  /** The store that an update from `before` to `after` puts in place, if it puts
      one. Only two levels ever do. */
  function Reload(env: Env, level: NotifyLevel, namespace: string, before: VersionItem,
      after: VersionItem): Option<MemStorage>
  {
    match level
    case NotifyWithoutChangedKeysByGlobal => env.load(namespace, after)
    case NotifyWithoutChangedKeysInNamespace =>
      var changed := env.diff(before, after, namespace);
      if changed.None? || changed.value == [] then None else env.load(namespace, after)
    case _ => None
  }

  /** A store is put in place when the version loads and the level asks for it: one
      level at every version, one at those with a changed file. */
  lemma ReloadIs(env: Env, level: NotifyLevel, namespace: string, before: VersionItem, after: VersionItem,
      store: MemStorage)
    ensures Reload(env, level, namespace, before, after) == Some(store) <==>
      && env.load(namespace, after) == Some(store)
      && (level == NotifyWithoutChangedKeysByGlobal
          || (level == NotifyWithoutChangedKeysInNamespace && SomeFileChanged(env, namespace, before, after)))
  {
    var changed := env.diff(before, after, namespace);
    assert changed.Some? && changed.value != [] ==> changed.value[0] in changed.value;
  }

  /** The list of differences is there and names a file. */
  ghost predicate SomeFileChanged(env: Env, namespace: string, before: VersionItem, after: VersionItem) {
    env.diff(before, after, namespace).Some? && exists f :: f in env.diff(before, after, namespace).value
  }

  predicate ValidNamespaceName(namespace: string) {
    "/" <= namespace && namespace[|namespace| - 1] == '/'
  }
}
