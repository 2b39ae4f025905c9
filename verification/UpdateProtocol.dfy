/**
 Creating namespaces, updating them and querying them at the same time
 (src/cfg_center/cfg_center.rs, src/cfg_center/namespace.rs), as a state machine
 whose steps are the lock operations and the work between them.

 A creator takes `current_version` and then `namespaces`; the updater, which the
 backend's watcher thread runs, takes `namespaces` and then `current_version`.
 */
module UpdateProtocol {
  import opened Common
  import opened Stores

  /** What happened to a handle: a query answered from a store, a callback given
      two stores, a store put in place. */
  datatype Obs = Asked(store: MemStorage) | Called(before: MemStorage, after: MemStorage) | Swapped(store: MemStorage)

  /** A namespace object; `born` is the place of its first version in `delivered`. */
  datatype Handle = Handle(ns: string, level: NotifyLevel, hasCallback: bool, store: MemStorage,
                           first: MemStorage, born: nat, log: seq<Obs>)
  {
    predicate ByGlobal() { level.NotifyWithoutChangedKeysByGlobal? }
    predicate Calls() { ByGlobal() && hasCallback }
  }

  datatype Creator =
    | Waiting(ns: string, level: NotifyLevel, hasCallback: bool)
    | Loading(ns: string, level: NotifyLevel, hasCallback: bool)
    | Inserting(ns: string, handle: nat)
    | Finished

  datatype Updater =
    | Idle
    | Notified(e: VersionItem)
    | HoldsNamespaces(e: VersionItem)
    | Iterating(e: VersionItem, todo: set<string>)
    | Swapping(e: VersionItem, todo: set<string>, handle: nat, store: MemStorage)

  datatype Owner = CreatorThread(i: nat) | UpdaterThread

  /** `delivered` lists the version the centre started with and those it was updated to. */
  datatype State = State(handles: seq<Handle>, namespaces: map<string, nat>, current: VersionItem,
                         delivered: seq<VersionItem>, creators: seq<Creator>, updater: Updater,
                         versionLock: Option<Owner>, namespacesLock: Option<Owner>)

  datatype Step =
    | Request(ns: string, level: NotifyLevel, hasCallback: bool)
    | LockVersion(i: nat)
    | LoadStore(i: nat)
    | Insert(i: nat)
    | Notify(e: VersionItem)
    | LockNamespaces
    | LockVersionToo
    | Visit(ns: string)
    | Swap
    | Finish
    | Query(handle: nat)

  function Init(v: VersionItem): State {
    State([], map[], v, [v], [], Idle, None, None)
  }

  // The state after a step, or `None` where the step cannot be taken

  function RequestStep(s: State, ns: string, level: NotifyLevel, hasCallback: bool): State {
    s.(creators := s.creators + [if ValidNamespaceName(ns) then Waiting(ns, level, hasCallback) else Finished])
  }

  function LockVersionStep(s: State, i: nat): Option<State> {
    if i < |s.creators| && s.creators[i].Waiting? && s.versionLock.None? then
      var c := s.creators[i];
      Some(s.(creators := s.creators[i := Loading(c.ns, c.level, c.hasCallback)],
              versionLock := Some(CreatorThread(i))))
    else None
  }

  function LoadStoreStep(env: Env, s: State, i: nat): Option<State> {
    if i < |s.creators| && s.creators[i].Loading? && |s.delivered| > 0 then
      var c := s.creators[i];
      match env.load(c.ns, s.current)
      case None => Some(s.(creators := s.creators[i := Finished], versionLock := None))
      case Some(store) =>
        var h := Handle(c.ns, c.level, c.hasCallback, store, store, |s.delivered| - 1, []);
        Some(s.(creators := s.creators[i := Inserting(c.ns, |s.handles|)], handles := s.handles + [h]))
    else None
  }

  function InsertStep(s: State, i: nat): Option<State> {
    if i < |s.creators| && s.creators[i].Inserting? && s.namespacesLock.None? then
      var c := s.creators[i];
      Some(s.(creators := s.creators[i := Finished], namespaces := s.namespaces[c.ns := c.handle], versionLock := None))
    else None
  }

  function NotifyStep(s: State, e: VersionItem): Option<State> {
    if s.updater.Idle? then Some(s.(updater := Notified(e))) else None
  }

  function LockNamespacesStep(s: State): Option<State> {
    if s.updater.Notified? && s.namespacesLock.None? then
      Some(s.(updater := HoldsNamespaces(s.updater.e), namespacesLock := Some(UpdaterThread)))
    else None
  }

  function LockVersionTooStep(s: State): Option<State> {
    if s.updater.HoldsNamespaces? && s.versionLock.None? then
      Some(s.(updater := Iterating(s.updater.e, s.namespaces.Keys), versionLock := Some(UpdaterThread)))
    else None
  }

  /** The log of a handle whose callback, if there is one, was told of a store to come. */
  function TellOf(h: Handle, store: MemStorage): seq<Obs> {
    if h.Calls() then h.log + [Called(h.store, store)] else h.log
  }

  function VisitStep(env: Env, s: State, ns: string): Option<State> {
    if s.updater.Iterating? && ns in s.updater.todo && ns in s.namespaces && s.namespaces[ns] < |s.handles| then
      var n := s.namespaces[ns];
      var h := s.handles[n];
      var todo := s.updater.todo - {ns};
      match Reload(env, h.level, ns, s.current, s.updater.e)
      case None => Some(s.(updater := Iterating(s.updater.e, todo)))
      case Some(store) =>
        Some(s.(updater := Swapping(s.updater.e, todo, n, store),
                handles := s.handles[n := h.(log := TellOf(h, store))]))
    else None
  }

  function SwapStep(s: State): Option<State> {
    if s.updater.Swapping? && s.updater.handle < |s.handles| then
      var n, store := s.updater.handle, s.updater.store;
      var h := s.handles[n];
      Some(s.(updater := Iterating(s.updater.e, s.updater.todo),
              handles := s.handles[n := h.(store := store, log := h.log + [Swapped(store)])]))
    else None
  }

  function FinishStep(s: State): Option<State> {
    if s.updater.Iterating? && s.updater.todo == {} then
      Some(s.(updater := Idle, current := s.updater.e, delivered := s.delivered + [s.updater.e],
              versionLock := None, namespacesLock := None))
    else None
  }

  function QueryStep(s: State, n: nat): Option<State> {
    if n < |s.handles| then
      var h := s.handles[n];
      Some(s.(handles := s.handles[n := h.(log := h.log + [Asked(h.store)])]))
    else None
  }

  function Apply(env: Env, s: State, step: Step): Option<State> {
    match step
    case Request(ns, level, hasCallback) => Some(RequestStep(s, ns, level, hasCallback))
    case LockVersion(i) => LockVersionStep(s, i)
    case LoadStore(i) => LoadStoreStep(env, s, i)
    case Insert(i) => InsertStep(s, i)
    case Notify(e) => NotifyStep(s, e)
    case LockNamespaces => LockNamespacesStep(s)
    case LockVersionToo => LockVersionTooStep(s)
    case Visit(ns) => VisitStep(env, s, ns)
    case Swap => SwapStep(s)
    case Finish => FinishStep(s)
    case Query(n) => QueryStep(s, n)
  }

  function Run(env: Env, s: State, steps: seq<Step>): Option<State>
    decreases |steps|
  {
    if steps == [] then Some(s)
    else match Apply(env, s, steps[0])
      case None => None
      case Some(t) => Run(env, t, steps[1..])
  }

  ghost predicate Reachable(env: Env, s: State) {
    exists v, steps :: Run(env, Init(v), steps) == Some(s)
  }

  // What a handle's log says

  /** Replays a log: the store in place and, between a callback and its swap, the
      store to come. `None` if the log breaks the rules: queries see the store in
      place; a callback sees the store in place and the one put in place next. */
  function Replay(calls: bool, first: MemStorage, log: seq<Obs>): Option<(MemStorage, Option<MemStorage>)> {
    if log == [] then Some((first, None))
    else match Replay(calls, first, log[..|log| - 1])
      case None => None
      case Some((store, coming)) =>
        match log[|log| - 1]
        case Asked(seen) => if seen == store then Some((store, coming)) else None
        case Called(before, after) =>
          if calls && coming.None? && before == store then Some((store, Some(after))) else None
        case Swapped(next) =>
          if coming == (if calls then Some(next) else None) then Some((next, None)) else None
  }

  /** The stores that were put in place. */
  function Swaps(log: seq<Obs>): seq<MemStorage> {
    if log == [] then []
    else
      var last := log[|log| - 1];
      Swaps(log[..|log| - 1]) + AsList(if last.Swapped? then Some(last.store) else None)
  }

  function AsList(store: Option<MemStorage>): seq<MemStorage> { if store.Some? then [store.value] else [] }

  /** The stores that updates from each of the versions to the next put in place. */
  function Reloads(env: Env, level: NotifyLevel, ns: string, versions: seq<VersionItem>): seq<MemStorage> {
    if |versions| <= 1 then []
    else
      var n := |versions| - 1;
      Reloads(env, level, ns, versions[..n]) + AsList(Reload(env, level, ns, versions[n - 1], versions[n]))
  }

  // The invariant

  /** The delivered versions and the one that an update under way delivers. */
  function Versions(s: State): seq<VersionItem> {
    if s.updater.Iterating? || s.updater.Swapping? then s.delivered + [s.updater.e] else s.delivered
  }

  function Coming(s: State, n: nat): Option<MemStorage>
    requires n < |s.handles|
  {
    if s.updater.Swapping? && s.updater.handle == n && s.handles[n].Calls() then Some(s.updater.store) else None
  }

  ghost predicate HandleOk(env: Env, h: Handle, versions: seq<VersionItem>, coming: Option<MemStorage>) {
    && h.born < |versions| && env.load(h.ns, versions[h.born]) == Some(h.first)
    && env.load(h.ns, h.store.version) == Some(h.store)
    && Replay(h.Calls(), h.first, h.log) == Some((h.store, coming))
    && Swaps(h.log) <= Reloads(env, h.level, h.ns, versions[h.born..])
  }

  /** A handle that was put at each of the versions that its level calls for. */
  ghost predicate UpToDate(env: Env, h: Handle, versions: seq<VersionItem>) {
    h.born < |versions| && Swaps(h.log) == Reloads(env, h.level, h.ns, versions[h.born..])
  }

  /** The update under way is through with the namespace. */
  predicate Through(s: State, ns: string) {
    || (s.updater.Iterating? && ns !in s.updater.todo)
    || (s.updater.Swapping? && ns !in s.updater.todo && s.updater.handle < |s.handles|
        && ns != s.handles[s.updater.handle].ns)
  }

  /** The versions that the update under way, and those before it, took a namespace through. */
  function Taken(s: State, ns: string): seq<VersionItem> {
    if Through(s, ns) then Versions(s) else s.delivered
  }

  ghost predicate LocksOk(s: State) {
    && (forall i: nat :: s.versionLock == Some(CreatorThread(i)) <==>
          i < |s.creators| && (s.creators[i].Loading? || s.creators[i].Inserting?))
    && (s.versionLock == Some(UpdaterThread) <==> s.updater.Iterating? || s.updater.Swapping?)
    && (s.namespacesLock == Some(UpdaterThread) <==>
          s.updater.HoldsNamespaces? || s.updater.Iterating? || s.updater.Swapping?)
    && (s.namespacesLock.Some? ==> s.namespacesLock == Some(UpdaterThread))
  }

  ghost predicate HandlesOk(env: Env, s: State) {
    forall n | 0 <= n < |s.handles| :: HandleOk(env, s.handles[n], Versions(s), Coming(s, n))
  }

  ghost predicate NamespacesOk(env: Env, s: State) {
    forall ns | ns in s.namespaces ::
      && s.namespaces[ns] < |s.handles| && s.handles[s.namespaces[ns]].ns == ns
      && UpToDate(env, s.handles[s.namespaces[ns]], Taken(s, ns))
  }

  ghost predicate CreatorsOk(env: Env, s: State) {
    forall i | 0 <= i < |s.creators| && s.creators[i].Inserting? ::
      && s.creators[i].handle < |s.handles| && s.handles[s.creators[i].handle].ns == s.creators[i].ns
      && UpToDate(env, s.handles[s.creators[i].handle], s.delivered)
      && forall ns | ns in s.namespaces :: s.namespaces[ns] != s.creators[i].handle
  }

  ghost predicate UpdaterOk(env: Env, s: State) {
    && (s.updater.Iterating? ==> s.updater.todo <= s.namespaces.Keys)
    && (s.updater.Swapping? ==>
          && s.updater.handle < |s.handles|
          && var h := s.handles[s.updater.handle];
             && s.updater.todo <= s.namespaces.Keys && h.ns in s.namespaces && s.namespaces[h.ns] == s.updater.handle
             && h.ns !in s.updater.todo && Reload(env, h.level, h.ns, s.current, s.updater.e) == Some(s.updater.store))
  }

  ghost predicate Inv(env: Env, s: State) {
    && |s.delivered| > 0 && s.current == s.delivered[|s.delivered| - 1]
    && LocksOk(s) && HandlesOk(env, s) && NamespacesOk(env, s) && CreatorsOk(env, s) && UpdaterOk(env, s)
  }

  lemma InitInv(env: Env, v: VersionItem)
    ensures Inv(env, Init(v))
  {
  }

  lemma AddVersion(env: Env, h: Handle, versions: seq<VersionItem>, v: VersionItem)
    requires h.born < |versions|
    ensures Reloads(env, h.level, h.ns, (versions + [v])[h.born..])
         == Reloads(env, h.level, h.ns, versions[h.born..])
            + AsList(Reload(env, h.level, h.ns, versions[|versions| - 1], v))
  {
    var after := versions[h.born..];
    assert (versions + [v])[h.born..] == after + [v];
    assert (after + [v])[..|after|] == after;
  }

  lemma LogSnoc(calls: bool, first: MemStorage, log: seq<Obs>, o: Obs)
    ensures Swaps(log + [o]) == Swaps(log) + AsList(if o.Swapped? then Some(o.store) else None)
    ensures Replay(calls, first, log + [o]) ==
      match Replay(calls, first, log)
      case None => None
      case Some((store, coming)) =>
        match o
        case Asked(seen) => if seen == store then Some((store, coming)) else None
        case Called(before, after) =>
          if calls && coming.None? && before == store then Some((store, Some(after))) else None
        case Swapped(next) =>
          if coming == (if calls then Some(next) else None) then Some((next, None)) else None
  {
    assert (log + [o])[..|log|] == log;
  }

  /** A handle that was good stays good when a version is added. */
  lemma HandleOkGrows(env: Env, h: Handle, versions: seq<VersionItem>, v: VersionItem, coming: Option<MemStorage>)
    requires HandleOk(env, h, versions, coming)
    ensures HandleOk(env, h, versions + [v], coming)
  {
    AddVersion(env, h, versions, v);
  }

  /** No creator is past its load while an update is under way. */
  lemma UpdateExcludesCreators(s: State)
    requires LocksOk(s) && (s.updater.Iterating? || s.updater.Swapping?)
    ensures forall i | 0 <= i < |s.creators| :: !s.creators[i].Loading? && !s.creators[i].Inserting?
  {
    assert s.versionLock == Some(UpdaterThread);
    forall i | 0 <= i < |s.creators| ensures !s.creators[i].Loading? && !s.creators[i].Inserting? {
      assert s.versionLock != Some(CreatorThread(i));
    }
  }

  // Steps that change no handle

  /** What is known of handles and namespaces carries over to a state that agrees on them. */
  lemma SameHandles(env: Env, s: State, t: State)
    requires HandlesOk(env, s) && NamespacesOk(env, s) && UpdaterOk(env, s)
    requires t == s.(creators := t.creators, versionLock := t.versionLock)
    ensures HandlesOk(env, t) && NamespacesOk(env, t) && UpdaterOk(env, t)
  {
    forall n | 0 <= n < |t.handles| ensures HandleOk(env, t.handles[n], Versions(t), Coming(t, n)) {
      assert Coming(t, n) == Coming(s, n);
    }
    SameNamespaces(env, s, t);
  }

  lemma SameNamespaces(env: Env, s: State, t: State)
    requires NamespacesOk(env, s) && t == s.(creators := t.creators, versionLock := t.versionLock)
    ensures NamespacesOk(env, t)
  {
    forall ns | ns in t.namespaces
      ensures t.namespaces[ns] < |t.handles| && t.handles[t.namespaces[ns]].ns == ns
      ensures UpToDate(env, t.handles[t.namespaces[ns]], Taken(t, ns))
    {
      assert Taken(t, ns) == Taken(s, ns);
    }
  }

  lemma RequestKeepsInv(env: Env, s: State, ns: string, level: NotifyLevel, hasCallback: bool)
    requires Inv(env, s)
    ensures Inv(env, RequestStep(s, ns, level, hasCallback))
  {
    SameHandles(env, s, RequestStep(s, ns, level, hasCallback));
  }

  lemma LockVersionKeepsInv(env: Env, s: State, t: State, i: nat)
    requires Inv(env, s) && LockVersionStep(s, i) == Some(t)
    ensures Inv(env, t)
  {
    SameHandles(env, s, t);
    forall j: nat ensures t.versionLock == Some(CreatorThread(j)) <==>
          j < |t.creators| && (t.creators[j].Loading? || t.creators[j].Inserting?)
    {
      assert s.versionLock != Some(CreatorThread(j));
    }
  }

  /** Giving up `current_version` leaves no creator past its load. */
  lemma CreatorReleases(s: State, t: State, i: nat)
    requires LocksOk(s) && s.versionLock == Some(CreatorThread(i)) && i < |s.creators|
    requires t.creators == s.creators[i := Finished] && t.versionLock == None
    requires t.updater == s.updater && t.namespacesLock == s.namespacesLock
    ensures LocksOk(t)
  {
    forall j: nat ensures t.versionLock == Some(CreatorThread(j)) <==>
          j < |t.creators| && (t.creators[j].Loading? || t.creators[j].Inserting?)
    {
      assert j != i ==> s.versionLock != Some(CreatorThread(j));
    }
  }

  lemma CreatorHolds(s: State, i: nat)
    requires LocksOk(s) && i < |s.creators| && (s.creators[i].Loading? || s.creators[i].Inserting?)
    ensures s.versionLock == Some(CreatorThread(i)) && !s.updater.Iterating? && !s.updater.Swapping?
    ensures Versions(s) == s.delivered && forall ns :: !Through(s, ns)
    ensures forall n | 0 <= n < |s.handles| :: Coming(s, n).None?
  {
  }

  lemma InsertKeepsInv(env: Env, s: State, t: State, i: nat)
    requires Inv(env, s) && InsertStep(s, i) == Some(t)
    ensures Inv(env, t)
  {
    CreatorHolds(s, i);
    CreatorReleases(s, t, i);
    assert forall n | 0 <= n < |s.handles| :: Coming(t, n) == Coming(s, n);
  }

  lemma FailedLoadKeepsInv(env: Env, s: State, t: State, i: nat)
    requires Inv(env, s) && LoadStoreStep(env, s, i) == Some(t) && env.load(s.creators[i].ns, s.current).None?
    ensures Inv(env, t)
  {
    CreatorHolds(s, i);
    CreatorReleases(s, t, i);
    SameHandles(env, s, t);
  }

  lemma LoadKeepsInv(env: Env, s: State, t: State, i: nat)
    requires env.Valid() && Inv(env, s) && LoadStoreStep(env, s, i) == Some(t)
    requires env.load(s.creators[i].ns, s.current).Some?
    ensures Inv(env, t)
  {
    CreatorHolds(s, i);
    var n := |s.handles|;
    var h := t.handles[n];
    assert |s.delivered[h.born..]| == 1;
    assert HandleOk(env, h, s.delivered, None) && UpToDate(env, h, s.delivered);
    assert forall m | 0 <= m < n :: t.handles[m] == s.handles[m];
    assert HandlesOk(env, t) && NamespacesOk(env, t) && CreatorsOk(env, t) && UpdaterOk(env, t);
    forall j: nat ensures t.versionLock == Some(CreatorThread(j)) <==>
          j < |t.creators| && (t.creators[j].Loading? || t.creators[j].Inserting?)
    {
      assert s.versionLock == Some(CreatorThread(j)) <==> j == i;
    }
  }

  lemma NotifyKeepsInv(env: Env, s: State, t: State, e: VersionItem)
    requires Inv(env, s) && NotifyStep(s, e) == Some(t)
    ensures Inv(env, t)
  {
    assert forall n | 0 <= n < |s.handles| :: Coming(t, n) == Coming(s, n);
  }

  lemma LockNamespacesKeepsInv(env: Env, s: State, t: State)
    requires Inv(env, s) && LockNamespacesStep(s) == Some(t)
    ensures Inv(env, t)
  {
    assert forall n | 0 <= n < |s.handles| :: Coming(t, n) == Coming(s, n);
  }

  lemma LockVersionTooKeepsInv(env: Env, s: State, t: State)
    requires Inv(env, s) && LockVersionTooStep(s) == Some(t)
    ensures Inv(env, t)
  {
    forall n | 0 <= n < |s.handles| ensures HandleOk(env, t.handles[n], Versions(t), Coming(t, n)) {
      HandleOkGrows(env, s.handles[n], s.delivered, s.updater.e, None);
    }
  }

  lemma FinishKeepsHandles(env: Env, s: State, t: State)
    requires HandlesOk(env, s) && NamespacesOk(env, s) && FinishStep(s) == Some(t)
    ensures HandlesOk(env, t) && NamespacesOk(env, t)
  {
    assert Versions(t) == Versions(s) == t.delivered;
    assert forall n | 0 <= n < |s.handles| :: Coming(t, n) == Coming(s, n);
    assert forall ns | ns in s.namespaces :: Taken(t, ns) == Taken(s, ns);
  }

  lemma FinishKeepsInv(env: Env, s: State, t: State)
    requires Inv(env, s) && FinishStep(s) == Some(t)
    ensures Inv(env, t)
  {
    UpdateExcludesCreators(s);
    FinishKeepsHandles(env, s, t);
    assert LocksOk(t) && CreatorsOk(env, t) && UpdaterOk(env, t);
  }

  lemma HandlePassedBy(env: Env, h: Handle, delivered: seq<VersionItem>, e: VersionItem)
    requires UpToDate(env, h, delivered) && Reload(env, h.level, h.ns, delivered[|delivered| - 1], e).None?
    ensures UpToDate(env, h, delivered + [e])
  {
    AddVersion(env, h, delivered, e);
  }

  lemma PassedByOne(env: Env, s: State, t: State, ns: string, m: string)
    requires |s.delivered| > 0 && s.current == s.delivered[|s.delivered| - 1] && m in s.namespaces
    requires VisitStep(env, s, ns) == Some(t) && t.updater.Iterating?
    requires s.namespaces[m] < |s.handles| && s.handles[s.namespaces[m]].ns == m
    requires UpToDate(env, s.handles[s.namespaces[m]], Taken(s, m))
    ensures UpToDate(env, s.handles[s.namespaces[m]], Taken(t, m))
  {
    if m == ns {
      HandlePassedBy(env, s.handles[s.namespaces[m]], s.delivered, s.updater.e);
      assert Taken(s, m) == s.delivered && Taken(t, m) == s.delivered + [s.updater.e];
    } else {
      assert Taken(t, m) == Taken(s, m);
    }
  }

  lemma PassedByNamespaces(env: Env, s: State, t: State, ns: string)
    requires |s.delivered| > 0 && s.current == s.delivered[|s.delivered| - 1] && NamespacesOk(env, s)
    requires VisitStep(env, s, ns) == Some(t) && t.updater.Iterating?
    ensures NamespacesOk(env, t)
  {
    assert t.namespaces == s.namespaces && t.handles == s.handles;
    forall m | m in t.namespaces ensures UpToDate(env, t.handles[t.namespaces[m]], Taken(t, m)) {
      PassedByOne(env, s, t, ns, m);
    }
  }

  lemma PassedByKeepsRest(env: Env, s: State, t: State, ns: string)
    requires LocksOk(s) && HandlesOk(env, s) && CreatorsOk(env, s) && UpdaterOk(env, s)
    requires VisitStep(env, s, ns) == Some(t) && t.updater.Iterating?
    ensures t == s.(updater := t.updater)
    ensures LocksOk(t) && HandlesOk(env, t) && CreatorsOk(env, t) && UpdaterOk(env, t)
  {
    assert Versions(t) == Versions(s);
    assert forall n | 0 <= n < |s.handles| :: Coming(t, n) == Coming(s, n);
  }

  /** The update passes the namespace by, as its level does not call for the version. */
  lemma PassedByKeepsInv(env: Env, s: State, t: State, ns: string)
    requires Inv(env, s) && VisitStep(env, s, ns) == Some(t) && t.updater.Iterating?
    ensures Inv(env, t)
  {
    PassedByNamespaces(env, s, t, ns);
    PassedByKeepsRest(env, s, t, ns);
  }

  // Steps that change one handle

  /** `t` differs from `s` in the log and store of handle `n` and in the updater,
      which is at the same version and through with the same other namespaces. */
  ghost predicate OnlyHandle(s: State, t: State, n: nat) {
    && n < |s.handles| && |t.handles| == |s.handles|
    && (forall m | 0 <= m < |s.handles| && m != n :: t.handles[m] == s.handles[m] && Coming(t, m) == Coming(s, m))
    && t.handles[n] == s.handles[n].(store := t.handles[n].store, log := t.handles[n].log)
    && t == s.(handles := t.handles, updater := t.updater)
    && Versions(t) == Versions(s)
    && (forall ns :: Through(t, ns) == Through(s, ns)
          || (ns == s.handles[n].ns && ns in s.namespaces && s.namespaces[ns] == n))
  }

  /** Handle `n` suits the namespaces and creators that refer to it. */
  ghost predicate Suits(env: Env, s: State, n: nat)
    requires n < |s.handles|
  {
    var h := s.handles[n];
    && HandleOk(env, h, Versions(s), Coming(s, n))
    && (h.ns in s.namespaces && s.namespaces[h.ns] == n ==> UpToDate(env, h, Taken(s, h.ns)))
    && (forall i | 0 <= i < |s.creators| && s.creators[i].Inserting? && s.creators[i].handle == n ::
          UpToDate(env, h, s.delivered))
  }

  lemma OneHandleKeepsNamespaces(env: Env, s: State, t: State, n: nat)
    requires NamespacesOk(env, s) && OnlyHandle(s, t, n) && Suits(env, t, n)
    ensures NamespacesOk(env, t)
  {
    forall ns | ns in t.namespaces
      ensures t.namespaces[ns] < |t.handles| && t.handles[t.namespaces[ns]].ns == ns
      ensures UpToDate(env, t.handles[t.namespaces[ns]], Taken(t, ns))
    {
      assert s.namespaces[ns] < |s.handles| && s.handles[s.namespaces[ns]].ns == ns;
      assert s.namespaces[ns] != n ==> Taken(t, ns) == Taken(s, ns);
    }
  }

  lemma OneHandleKeepsInv(env: Env, s: State, t: State, n: nat)
    requires Inv(env, s) && OnlyHandle(s, t, n) && LocksOk(t) && UpdaterOk(env, t) && Suits(env, t, n)
    ensures Inv(env, t)
  {
    OneHandleKeepsNamespaces(env, s, t, n);
    assert HandlesOk(env, t);
    assert CreatorsOk(env, t);
  }

  /** What a handle has taken depends on its log only through the swaps. */
  lemma SameSwaps(env: Env, h: Handle, log: seq<Obs>, versions: seq<VersionItem>)
    requires Swaps(log) == Swaps(h.log)
    ensures UpToDate(env, h.(log := log), versions) <==> UpToDate(env, h, versions)
  {
  }

  lemma HandleAsked(env: Env, h: Handle, versions: seq<VersionItem>, coming: Option<MemStorage>)
    requires HandleOk(env, h, versions, coming)
    ensures var log := h.log + [Asked(h.store)];
      HandleOk(env, h.(log := log), versions, coming) && Swaps(log) == Swaps(h.log)
  {
    LogSnoc(h.Calls(), h.first, h.log, Asked(h.store));
  }

  lemma QueryChangesOne(s: State, t: State, n: nat)
    requires QueryStep(s, n) == Some(t)
    ensures OnlyHandle(s, t, n) && Coming(t, n) == Coming(s, n)
    ensures Taken(t, s.handles[n].ns) == Taken(s, s.handles[n].ns)
    ensures t.handles[n] == s.handles[n].(log := s.handles[n].log + [Asked(s.handles[n].store)])
  {
  }

  lemma QueryKeepsRest(env: Env, s: State, t: State, n: nat)
    requires LocksOk(s) && UpdaterOk(env, s) && QueryStep(s, n) == Some(t)
    ensures LocksOk(t) && UpdaterOk(env, t)
  {
  }

  lemma QuerySuits(env: Env, s: State, t: State, n: nat)
    requires HandlesOk(env, s) && NamespacesOk(env, s) && CreatorsOk(env, s) && QueryStep(s, n) == Some(t)
    ensures Suits(env, t, n)
  {
    var h := s.handles[n];
    HandleAsked(env, h, Versions(s), Coming(s, n));
    QueryChangesOne(s, t, n);
    SameSwaps(env, h, t.handles[n].log, Taken(s, h.ns));
    SameSwaps(env, h, t.handles[n].log, s.delivered);
  }

  /** A query changes one log, and no store. */
  lemma QueryKeepsInv(env: Env, s: State, t: State, n: nat)
    requires Inv(env, s) && QueryStep(s, n) == Some(t)
    ensures Inv(env, t)
  {
    QuerySuits(env, s, t, n);
    QueryChangesOne(s, t, n);
    QueryKeepsRest(env, s, t, n);
    OneHandleKeepsInv(env, s, t, n);
  }

  lemma HandleCalled(env: Env, h: Handle, versions: seq<VersionItem>, store: MemStorage)
    requires HandleOk(env, h, versions, None)
    ensures var log := TellOf(h, store);
      && HandleOk(env, h.(log := log), versions, if h.Calls() then Some(store) else None)
      && Swaps(log) == Swaps(h.log)
  {
    LogSnoc(h.Calls(), h.first, h.log, Called(h.store, store));
  }

  lemma ToldChangesOne(env: Env, s: State, t: State, ns: string)
    requires UpdaterOk(env, s) && VisitStep(env, s, ns) == Some(t) && t.updater.Swapping?
    requires ns in s.namespaces && s.namespaces[ns] < |s.handles| && s.handles[s.namespaces[ns]].ns == ns
    ensures var n, h := s.namespaces[ns], s.handles[s.namespaces[ns]];
      && OnlyHandle(s, t, n) && Taken(t, ns) == Taken(s, ns) == s.delivered && Coming(s, n).None?
      && t.handles[n] == h.(log := TellOf(h, t.updater.store))
      && Coming(t, n) == if h.Calls() then Some(t.updater.store) else None
  {
  }

  lemma ToldKeepsRest(env: Env, s: State, t: State, ns: string)
    requires LocksOk(s) && UpdaterOk(env, s) && VisitStep(env, s, ns) == Some(t) && t.updater.Swapping?
    requires ns in s.namespaces && s.namespaces[ns] < |s.handles| && s.handles[s.namespaces[ns]].ns == ns
    ensures LocksOk(t) && UpdaterOk(env, t)
  {
  }

  lemma ToldSuits(env: Env, s: State, t: State, n: nat)
    requires HandlesOk(env, s) && n < |s.handles| && OnlyHandle(s, t, n) && Coming(s, n).None?
    requires LocksOk(s) && s.updater.Iterating? && t.updater.Swapping?
    requires UpToDate(env, s.handles[n], s.delivered) && Taken(t, s.handles[n].ns) == s.delivered
    requires t.handles[n] == s.handles[n].(log := TellOf(s.handles[n], t.updater.store))
    requires Coming(t, n) == if s.handles[n].Calls() then Some(t.updater.store) else None
    ensures Suits(env, t, n)
  {
    UpdateExcludesCreators(s);
    HandleCalled(env, s.handles[n], Versions(s), t.updater.store);
    SameSwaps(env, s.handles[n], t.handles[n].log, s.delivered);
  }

  /** The update has built a store and told the callback. */
  lemma ToldKeepsInv(env: Env, s: State, t: State, ns: string)
    requires Inv(env, s) && VisitStep(env, s, ns) == Some(t) && t.updater.Swapping?
    ensures Inv(env, t)
  {
    ToldChangesOne(env, s, t, ns);
    ToldSuits(env, s, t, s.namespaces[ns]);
    ToldKeepsRest(env, s, t, ns);
    OneHandleKeepsInv(env, s, t, s.namespaces[ns]);
  }

  lemma HandleSwapped(env: Env, h: Handle, delivered: seq<VersionItem>, e: VersionItem, store: MemStorage)
    requires env.Valid() && |delivered| > 0 && Reload(env, h.level, h.ns, delivered[|delivered| - 1], e) == Some(store)
    requires HandleOk(env, h, delivered + [e], if h.Calls() then Some(store) else None) && UpToDate(env, h, delivered)
    ensures var h' := h.(store := store, log := h.log + [Swapped(store)]);
      HandleOk(env, h', delivered + [e], None) && UpToDate(env, h', delivered + [e])
  {
    LogSnoc(h.Calls(), h.first, h.log, Swapped(store));
    AddVersion(env, h, delivered, e);
  }

  lemma SwapChangesOne(env: Env, s: State, t: State)
    requires UpdaterOk(env, s) && SwapStep(s) == Some(t)
    ensures var n, h := s.updater.handle, s.handles[s.updater.handle];
      && OnlyHandle(s, t, n) && Coming(t, n).None?
      && Coming(s, n) == (if h.Calls() then Some(s.updater.store) else None)
      && Taken(s, h.ns) == s.delivered && Taken(t, h.ns) == s.delivered + [s.updater.e] == Versions(s)
      && t.handles[n] == h.(store := s.updater.store, log := h.log + [Swapped(s.updater.store)])
  {
  }

  lemma SwapKeepsRest(env: Env, s: State, t: State)
    requires LocksOk(s) && UpdaterOk(env, s) && SwapStep(s) == Some(t)
    ensures LocksOk(t) && UpdaterOk(env, t)
  {
  }

  lemma SwapSuits(env: Env, s: State, t: State)
    requires env.Valid() && |s.delivered| > 0 && s.current == s.delivered[|s.delivered| - 1]
    requires LocksOk(s) && HandlesOk(env, s) && NamespacesOk(env, s) && UpdaterOk(env, s) && SwapStep(s) == Some(t)
    ensures Suits(env, t, s.updater.handle)
  {
    var n := s.updater.handle;
    UpdateExcludesCreators(s);
    SwapChangesOne(env, s, t);
    assert HandleOk(env, s.handles[n], Versions(s), Coming(s, n));
    assert UpToDate(env, s.handles[n], Taken(s, s.handles[n].ns));
    HandleSwapped(env, s.handles[s.updater.handle], s.delivered, s.updater.e, s.updater.store);
  }

  lemma SwapKeepsInv(env: Env, s: State, t: State)
    requires env.Valid() && Inv(env, s) && SwapStep(s) == Some(t)
    ensures Inv(env, t)
  {
    SwapSuits(env, s, t);
    SwapChangesOne(env, s, t);
    SwapKeepsRest(env, s, t);
    OneHandleKeepsInv(env, s, t, s.updater.handle);
  }

  lemma CreatorStepKeepsInv(env: Env, s: State, t: State, step: Step)
    requires env.Valid() && Inv(env, s) && Apply(env, s, step) == Some(t)
    requires step.Request? || step.LockVersion? || step.LoadStore? || step.Insert? || step.Query?
    ensures Inv(env, t)
  {
    match step
    case Request(ns, level, hasCallback) => RequestKeepsInv(env, s, ns, level, hasCallback);
    case LockVersion(i) => LockVersionKeepsInv(env, s, t, i);
    case Insert(i) => InsertKeepsInv(env, s, t, i);
    case LoadStore(i) =>
      if env.load(s.creators[i].ns, s.current).None? {
        FailedLoadKeepsInv(env, s, t, i);
      } else {
        LoadKeepsInv(env, s, t, i);
      }
    case Query(n) => QueryKeepsInv(env, s, t, n);
  }

  lemma VisitKeepsInv(env: Env, s: State, t: State, ns: string)
    requires Inv(env, s) && VisitStep(env, s, ns) == Some(t)
    ensures Inv(env, t)
  {
    if t.updater.Iterating? {
      PassedByKeepsInv(env, s, t, ns);
    } else {
      ToldKeepsInv(env, s, t, ns);
    }
  }

  lemma StepKeepsInv(env: Env, s: State, t: State, step: Step)
    requires env.Valid() && Inv(env, s) && Apply(env, s, step) == Some(t)
    ensures Inv(env, t)
  {
    match step
    case Notify(e) => NotifyKeepsInv(env, s, t, e);
    case LockNamespaces => LockNamespacesKeepsInv(env, s, t);
    case LockVersionToo => LockVersionTooKeepsInv(env, s, t);
    case Visit(ns) => VisitKeepsInv(env, s, t, ns);
    case Swap => SwapKeepsInv(env, s, t);
    case Finish => FinishKeepsInv(env, s, t);
    case _ => CreatorStepKeepsInv(env, s, t, step);
  }

  lemma {:induction false} RunKeepsInv(env: Env, s: State, steps: seq<Step>)
    requires env.Valid() && Inv(env, s) && Run(env, s, steps).Some?
    ensures Inv(env, Run(env, s, steps).value)
    decreases |steps|
  {
    if steps != [] {
      var t := Apply(env, s, steps[0]).value;
      StepKeepsInv(env, s, t, steps[0]);
      RunKeepsInv(env, t, steps[1..]);
    }
  }

  lemma ReachableInv(env: Env, s: State)
    requires env.Valid() && Reachable(env, s)
    ensures Inv(env, s)
  {
    var v, steps :| Run(env, Init(v), steps) == Some(s);
    InitInv(env, v);
    RunKeepsInv(env, Init(v), steps);
  }
}
