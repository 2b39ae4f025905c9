/**
 Loading stores from the versions that a backend keeps (src/cfg_center/mem_store.rs).
 */
module MemStore {
  import opened Common
  import opened Storage
  import opened Files
  import opened IndexData
  import opened Stores
  import opened CfgIndex
  import opened Querier
  import opened Refinement

  /** The versions a backend keeps, which never change, and its list of the files
      that differ between two of them below a namespace (`None` for an error). */
  datatype Backend = Backend(trees: map<ObjectID, Node>,
                             diff: (VersionItem, VersionItem, string) -> Option<seq<string>>)
  {
    ghost predicate Valid() { forall id | id in trees :: ValidTree(trees[id]) }
  }

  /** The store of a namespace at a version, if it loads. */
  function StoreAt(b: Backend, namespace: string, version: VersionItem): (r: Option<MemStorage>)
    ensures r.Some? ==> r.value.version == version
  {
    if version.id in b.trees && NsPath(namespace).Some? then
      match LoadIndices(b.trees[version.id], NsPath(namespace).value)
      case None => None
      case Some(ind) => Some(MemStorage(version, ind))
    else None
  }

  method NewMemStorage(b: Backend, namespace: string, version: VersionItem) returns (r: Option<MemStorage>)
    requires b.Valid()
    ensures r == StoreAt(b, namespace, version)
  {
    if version.id !in b.trees {
      return None;
    }
    var ind := Load(b.trees[version.id], namespace);
    r := match ind case None => None case Some(i) => Some(MemStorage(version, i));
  }

  /** A namespace has a store at a version iff its files in the version's tree are
      there and good, and the store is the index loaded from just these. */
  lemma StoreOfNamespace(b: Backend, ns: Path, version: VersionItem)
    requires b.Valid() && forall k | 0 <= k < |ns| :: ValidName(ns[k])
    ensures StoreAt(b, NsText(ns), version).Some? <==> version.id in b.trees && IsLoadable(b.trees[version.id], ns)
    ensures StoreAt(b, NsText(ns), version).Some? ==>
      Some(StoreAt(b, NsText(ns), version).value.indices) == LoadIndices(b.trees[version.id], ns)
  {
    NamespaceText(ns);
    if version.id in b.trees {
      LoadsIffGood(b.trees[version.id], ns);
    }
  }

  lemma StoresAreReady(b: Backend, namespace: string, version: VersionItem)
    requires b.Valid() && StoreAt(b, namespace, version).Some?
    ensures Ready(StoreAt(b, namespace, version).value.indices)
  {
    LoadedIsReady(b.trees[version.id], NsPath(namespace).value);
  }

  function EnvOf(b: Backend): (env: Env)
    ensures env.Valid()
  {
    Env((ns, v) => StoreAt(b, ns, v), b.diff)
  }
}
