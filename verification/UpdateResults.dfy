/**
 What holds in every reachable state of the update protocol, whatever the order of
 its steps, and when it comes to a standstill.
 */
module UpdateResults {
  import opened Common
  import opened Stores
  import opened UpdateProtocol

  // Safety

  lemma {:induction false} StoreIsLastSwap(calls: bool, first: MemStorage, log: seq<Obs>)
    requires Replay(calls, first, log).Some?
    ensures Replay(calls, first, log).value.0
         == if Swaps(log) == [] then first else Swaps(log)[|Swaps(log)| - 1]
  {
    if log != [] {
      StoreIsLastSwap(calls, first, log[..|log| - 1]);
    }
  }

  /** The stores of a namespace at those of the versions that load. */
  function Loads(env: Env, ns: string, versions: seq<VersionItem>): seq<MemStorage> {
    if versions == [] then []
    else Loads(env, ns, versions[..|versions| - 1]) + AsList(env.load(ns, versions[|versions| - 1]))
  }

  lemma {:induction false} GlobalReloads(env: Env, ns: string, versions: seq<VersionItem>)
    requires versions != []
    ensures Reloads(env, NotifyWithoutChangedKeysByGlobal, ns, versions) == Loads(env, ns, versions[1..])
  {
    var n := |versions| - 1;
    if n > 0 {
      GlobalReloads(env, ns, versions[..n]);
      assert versions[1..][..n - 1] == versions[..n][1..];
    }
  }

  lemma {:induction false} NoReloads(env: Env, level: NotifyLevel, ns: string, versions: seq<VersionItem>)
    requires level.NoNotify? || level.NotifyWithMaybeChangedKeys?
    ensures Reloads(env, level, ns, versions) == []
  {
    if |versions| > 1 {
      NoReloads(env, level, ns, versions[..|versions| - 1]);
    }
  }

  /** A `ByGlobal` handle that has taken all versions is at the last one, if that loads. */
  lemma UpToDateIsLast(env: Env, h: Handle, versions: seq<VersionItem>, coming: Option<MemStorage>)
    requires HandleOk(env, h, versions, coming) && UpToDate(env, h, versions) && h.ByGlobal()
    requires env.load(h.ns, versions[|versions| - 1]).Some?
    ensures Some(h.store) == env.load(h.ns, versions[|versions| - 1])
  {
    StoreIsLastSwap(h.Calls(), h.first, h.log);
    var after := versions[h.born..];
    GlobalReloads(env, h.ns, after);
    assert after[|after| - 1] == versions[|versions| - 1];
    assert |after| > 1 ==> after[1..][|after| - 2] == versions[|versions| - 1];
  }

  /** At all times every handle's store is what its namespace loads at the store's
      own version, and the stores it was given are, in order, those that its level
      calls for at the first so many versions delivered since it was created. */
  lemma StoresAreLoads(env: Env, s: State, n: nat)
    requires env.Valid() && Reachable(env, s) && n < |s.handles|
    ensures var h := s.handles[n];
      && env.load(h.ns, h.store.version) == Some(h.store)
      && h.born < |Versions(s)| && env.load(h.ns, Versions(s)[h.born]) == Some(h.first)
      && h.store == InPlace(h.first, h.log)
      && Swaps(h.log) <= Reloads(env, h.level, h.ns, Versions(s)[h.born..])
  {
    ReachableInv(env, s);
    var h := s.handles[n];
    assert HandleOk(env, h, Versions(s), Coming(s, n));
    StoreIsLastSwap(h.Calls(), h.first, h.log);
  }

  /** A handle of the other two levels keeps its first store for ever, and nobody is told. */
  lemma TwoLevelsNeverSwap(env: Env, s: State, n: nat)
    requires env.Valid() && Reachable(env, s) && n < |s.handles|
    requires s.handles[n].level.NoNotify? || s.handles[n].level.NotifyWithMaybeChangedKeys?
    ensures s.handles[n].store == s.handles[n].first
    ensures forall k | 0 <= k < |s.handles[n].log| :: s.handles[n].log[k] == Asked(s.handles[n].first)
  {
    ReachableInv(env, s);
    var h := s.handles[n];
    assert HandleOk(env, h, Versions(s), Coming(s, n));
    NoReloads(env, h.level, h.ns, Versions(s)[h.born..]);
    OnlyAsked(h.first, h.log);
  }

  lemma {:induction false} OnlyAsked(first: MemStorage, log: seq<Obs>)
    requires Replay(false, first, log).Some? && Swaps(log) == []
    ensures Replay(false, first, log).value.0 == first
    ensures forall k | 0 <= k < |log| :: log[k] == Asked(first)
  {
    if log != [] {
      OnlyAsked(first, log[..|log| - 1]);
    }
  }

  /** Whenever both mutexes are free, every mapped namespace was given just the
      stores that its level calls for at the versions delivered since its creation. */
  lemma NamespacesKeepUp(env: Env, s: State, ns: string)
    requires env.Valid() && Reachable(env, s) && s.versionLock.None? && s.namespacesLock.None?
    requires ns in s.namespaces
    ensures s.namespaces[ns] < |s.handles| && |s.delivered| > 0 && s.current == s.delivered[|s.delivered| - 1]
    ensures var h := s.handles[s.namespaces[ns]];
      && h.ns == ns && h.born < |s.delivered|
      && Swaps(h.log) == Reloads(env, h.level, ns, s.delivered[h.born..])
  {
    ReachableInv(env, s);
  }

  /** The loads at those of the later versions that a changed file leads to and that load. */
  ghost function ChangedLoads(env: Env, ns: string, before: VersionItem, later: seq<VersionItem>): seq<MemStorage>
    decreases |later|
  {
    if later == [] then []
    else
      (if SomeFileChanged(env, ns, before, later[0]) && env.load(ns, later[0]).Some?
       then [env.load(ns, later[0]).value] else [])
      + ChangedLoads(env, ns, later[0], later[1..])
  }

  lemma {:induction false} ChangedLoadsSnoc(env: Env, ns: string, before: VersionItem, later: seq<VersionItem>,
      v: VersionItem)
    ensures ChangedLoads(env, ns, before, later + [v])
         == ChangedLoads(env, ns, before, later)
            + var last := if later == [] then before else later[|later| - 1];
              if SomeFileChanged(env, ns, last, v) && env.load(ns, v).Some? then [env.load(ns, v).value] else []
    decreases |later|
  {
    if later == [] {
      assert [v][1..] == [];
    } else {
      assert (later + [v])[0] == later[0] && (later + [v])[1..] == later[1..] + [v];
      ChangedLoadsSnoc(env, ns, later[0], later[1..], v);
    }
  }

  lemma {:induction false} ChangedReloads(env: Env, ns: string, versions: seq<VersionItem>)
    requires versions != []
    ensures Reloads(env, NotifyWithoutChangedKeysInNamespace, ns, versions)
         == ChangedLoads(env, ns, versions[0], versions[1..])
  {
    var n := |versions| - 1;
    if n > 0 {
      ChangedReloads(env, ns, versions[..n]);
      ChangedLoadsSnoc(env, ns, versions[0], versions[..n][1..], versions[n]);
      assert versions[1..] == versions[..n][1..] + [versions[n]];
      var store := Reload(env, NotifyWithoutChangedKeysInNamespace, ns, versions[n - 1], versions[n]);
      if store.Some? {
        ReloadIs(env, NotifyWithoutChangedKeysInNamespace, ns, versions[n - 1], versions[n], store.value);
      } else if env.load(ns, versions[n]).Some? {
        ReloadIs(env, NotifyWithoutChangedKeysInNamespace, ns, versions[n - 1], versions[n],
                 env.load(ns, versions[n]).value);
      }
    }
  }

  /** An `InNamespace` handle was given, in order, the loads of a run of the versions
      that changed a file since the one before and that load; when both mutexes are
      free and it is mapped, of all of them. */
  lemma NamespacesFollowChanges(env: Env, s: State, n: nat)
    requires env.Valid() && Reachable(env, s) && n < |s.handles|
    requires s.handles[n].level == NotifyWithoutChangedKeysInNamespace
    ensures var h := s.handles[n];
      && h.born < |Versions(s)|
      && Swaps(h.log) <= ChangedLoads(env, h.ns, Versions(s)[h.born], Versions(s)[h.born + 1..])
      && (s.versionLock.None? && s.namespacesLock.None?
          && (exists ns :: ns in s.namespaces && s.namespaces[ns] == n) ==>
            Versions(s) == s.delivered
            && Swaps(h.log) == ChangedLoads(env, h.ns, s.delivered[h.born], s.delivered[h.born + 1..]))
  {
    var h := s.handles[n];
    HandleIsOk(env, s, n);
    var after := Versions(s)[h.born..];
    ChangedReloads(env, h.ns, after);
    assert after[1..] == Versions(s)[h.born + 1..];
    if s.versionLock.None? && s.namespacesLock.None? {
      if ns :| ns in s.namespaces && s.namespaces[ns] == n {
        NamespacesKeepUp(env, s, ns);
      }
    }
  }

  /** Where no file is ever listed as changed, such a handle keeps its first store for ever. */
  lemma NoChangesNoSwaps(env: Env, s: State, n: nat)
    requires env.Valid() && Reachable(env, s) && n < |s.handles|
    requires s.handles[n].level == NotifyWithoutChangedKeysInNamespace
    requires forall v, w :: !SomeFileChanged(env, s.handles[n].ns, v, w)
    ensures s.handles[n].store == s.handles[n].first && Swaps(s.handles[n].log) == []
  {
    var h := s.handles[n];
    NamespacesFollowChanges(env, s, n);
    NothingChanged(env, h.ns, Versions(s)[h.born], Versions(s)[h.born + 1..]);
    StoresAreLoads(env, s, n);
  }

  lemma {:induction false} NothingChanged(env: Env, ns: string, before: VersionItem, later: seq<VersionItem>)
    requires forall v, w :: !SomeFileChanged(env, ns, v, w)
    ensures ChangedLoads(env, ns, before, later) == []
    decreases |later|
  {
    if later != [] {
      NothingChanged(env, ns, later[0], later[1..]);
    }
  }

  /** Then a `ByGlobal` namespace was given the load of every version delivered
      since its creation that loads. If the current version loads, it serves the
      current version: a namespace created while an update arrives does not miss it. */
  lemma NamespacesAreCurrent(env: Env, s: State, ns: string)
    requires env.Valid() && Reachable(env, s) && s.versionLock.None? && s.namespacesLock.None?
    requires ns in s.namespaces && s.namespaces[ns] < |s.handles| && s.handles[s.namespaces[ns]].ByGlobal()
    ensures var h := s.handles[s.namespaces[ns]];
      && h.ns == ns && h.born < |s.delivered| && Swaps(h.log) == Loads(env, ns, s.delivered[h.born + 1..])
      && (env.load(ns, s.current).Some? ==> Some(h.store) == env.load(ns, s.current) && h.store.version == s.current)
  {
    NamespacesKeepUp(env, s, ns);
    var n := s.namespaces[ns];
    var h := s.handles[n];
    GlobalReloads(env, ns, s.delivered[h.born..]);
    assert s.delivered[h.born..][1..] == s.delivered[h.born + 1..];
    if env.load(ns, s.current).Some? {
      HandleIsOk(env, s, n);
      UpToDateIsLast(env, h, s.delivered, Coming(s, n));
    }
  }

  lemma HandleIsOk(env: Env, s: State, n: nat)
    requires env.Valid() && Reachable(env, s) && n < |s.handles|
    ensures HandleOk(env, s.handles[n], Versions(s), Coming(s, n))
    ensures s.versionLock.None? ==> Versions(s) == s.delivered
  {
    ReachableInv(env, s);
  }

  // Replaced handles

  /** No namespace is mapped to the handle, and no call under way will map or swap it. */
  ghost predicate Detached(s: State, n: nat) {
    && n < |s.handles|
    && (forall ns | ns in s.namespaces :: s.namespaces[ns] != n)
    && (forall i | 0 <= i < |s.creators| && s.creators[i].Inserting? :: s.creators[i].handle != n)
    && (s.updater.Swapping? ==> s.updater.handle != n)
  }

  /** From `h` to `h'` nothing has happened to a handle but queries of its store. */
  ghost predicate OnlyQueried(h: Handle, h': Handle) {
    && h' == h.(log := h'.log) && h.log <= h'.log
    && forall k | |h.log| <= k < |h'.log| :: h'.log[k] == Asked(h.store)
  }

  lemma StepKeepsDetached(env: Env, s: State, step: Step, n: nat)
    requires Detached(s, n) && Apply(env, s, step).Some?
    ensures Detached(Apply(env, s, step).value, n)
    ensures OnlyQueried(s.handles[n], Apply(env, s, step).value.handles[n])
  {
  }

  /** A handle that was replaced in the map, as by creating its namespace again, is
      never updated and never called back again, in any run. */
  lemma {:induction false} DetachedForever(env: Env, s: State, steps: seq<Step>, n: nat)
    requires Detached(s, n) && Run(env, s, steps).Some?
    ensures Detached(Run(env, s, steps).value, n)
    ensures OnlyQueried(s.handles[n], Run(env, s, steps).value.handles[n])
    decreases |steps|
  {
    if steps != [] {
      var t := Apply(env, s, steps[0]).value;
      StepKeepsDetached(env, s, steps[0], n);
      DetachedForever(env, t, steps[1..], n);
      QueriedOn(s.handles[n], t.handles[n], Run(env, s, steps).value.handles[n]);
    }
  }

  lemma QueriedOn(h: Handle, h1: Handle, h2: Handle)
    requires OnlyQueried(h, h1) && OnlyQueried(h1, h2)
    ensures OnlyQueried(h, h2)
  {
    forall k | |h.log| <= k < |h2.log| ensures h2.log[k] == Asked(h.store) {
      assert k < |h1.log| ==> h2.log[k] == h1.log[k];
    }
  }

  /** Mapping a namespace to another handle detaches the one it was mapped to. */
  lemma ReplacedIsDetached(env: Env, s: State, i: nat)
    requires env.Valid() && Reachable(env, s) && InsertStep(s, i).Some? && s.creators[i].ns in s.namespaces
    ensures Detached(InsertStep(s, i).value, s.namespaces[s.creators[i].ns])
  {
    ReachableInv(env, s);
    ReplacedByInsert(env, s, i);
  }

  lemma ReplacedByInsert(env: Env, s: State, i: nat)
    requires LocksOk(s) && NamespacesOk(env, s) && CreatorsOk(env, s)
    requires InsertStep(s, i).Some? && s.creators[i].ns in s.namespaces
    ensures Detached(InsertStep(s, i).value, s.namespaces[s.creators[i].ns])
  {
    CreatorHolds(s, i);
    var t, n := InsertStep(s, i).value, s.namespaces[s.creators[i].ns];
    forall ns | ns in t.namespaces ensures t.namespaces[ns] != n {
      assert ns != s.creators[i].ns ==> s.handles[s.namespaces[ns]].ns == ns;
    }
    forall j | 0 <= j < |t.creators| ensures !t.creators[j].Inserting? {
      assert j != i ==> s.versionLock != Some(CreatorThread(j));
    }
  }

  // Standstill

  predicate Pending(s: State) {
    !s.updater.Idle? || exists i | 0 <= i < |s.creators| :: !s.creators[i].Finished?
  }

  /** A step by which a call that has been made gets on. */
  predicate IsProgress(step: Step) { !step.Request? && !step.Notify? && !step.Query? }

  ghost predicate Stuck(env: Env, s: State) {
    Pending(s) && forall step | IsProgress(step) :: Apply(env, s, step).None?
  }

  /** A creator holds `current_version` and waits for `namespaces`; the updater
      holds `namespaces` and waits for `current_version`. */
  ghost predicate Embrace(s: State) {
    && s.updater.HoldsNamespaces? && s.namespacesLock == Some(UpdaterThread)
    && exists i | 0 <= i < |s.creators| :: s.creators[i].Inserting? && s.versionLock == Some(CreatorThread(i))
  }

  lemma EmbraceIsStuck(env: Env, s: State)
    requires LocksOk(s) && Embrace(s)
    ensures Stuck(env, s)
  {
    assert Pending(s);
    var i :| 0 <= i < |s.creators| && s.creators[i].Inserting? && s.versionLock == Some(CreatorThread(i));
    assert forall j: nat :: j < |s.creators| && s.creators[j].Loading? ==> s.versionLock == Some(CreatorThread(j));
    forall step | IsProgress(step) ensures Apply(env, s, step).None? {
      match step
      case LockVersion(j) => assert LockVersionStep(s, j).None?;
      case LoadStore(j) => assert LoadStoreStep(env, s, j).None?;
      case Insert(j) => assert InsertStep(s, j).None?;
      case _ =>
    }
  }

  /** An update that holds both mutexes can get on. */
  lemma UpdateCanStep(env: Env, s: State) returns (step: Step)
    requires UpdaterOk(env, s) && (s.updater.Iterating? || s.updater.Swapping?)
    requires forall ns | ns in s.namespaces :: s.namespaces[ns] < |s.handles|
    ensures step.Swap? || step.Finish? || step.Visit?
    ensures Apply(env, s, step).Some? && Apply(env, s, step).value.creators == s.creators
  {
    if s.updater.Swapping? {
      step := Swap;
    } else if s.updater.todo == {} {
      step := Finish;
    } else {
      var ns :| ns in s.updater.todo;
      step := Visit(ns);
    }
  }

  /** Apart from the embrace, some call can get on while no update holds both mutexes. */
  lemma OtherCanStep(env: Env, s: State) returns (step: Step)
    requires LocksOk(s) && !s.updater.Iterating? && !s.updater.Swapping? && |s.delivered| > 0
    requires Pending(s) && !Embrace(s)
    ensures IsProgress(step) && Apply(env, s, step).Some?
  {
    if s.versionLock.Some? {
      var i := HolderOfVersion(s);
      step := if s.creators[i].Loading? then LoadStore(i) else Insert(i);
    } else if s.updater.HoldsNamespaces? {
      step := LockVersionToo;
    } else if s.updater.Notified? {
      step := LockNamespaces;
    } else {
      var i :| 0 <= i < |s.creators| && !s.creators[i].Finished?;
      assert s.versionLock != Some(CreatorThread(i));
      step := LockVersion(i);
    }
  }

  lemma SomeStepIsEnabled(env: Env, s: State) returns (step: Step)
    requires Inv(env, s) && Pending(s) && !Embrace(s)
    ensures IsProgress(step) && Apply(env, s, step).Some?
  {
    if s.updater.Iterating? || s.updater.Swapping? {
      step := UpdateCanStep(env, s);
    } else {
      step := OtherCanStep(env, s);
    }
  }

  lemma HolderOfVersion(s: State) returns (i: nat)
    requires LocksOk(s) && s.versionLock.Some? && !s.updater.Iterating? && !s.updater.Swapping?
    ensures i < |s.creators| && (s.creators[i].Loading? || s.creators[i].Inserting?)
    ensures s.versionLock == Some(CreatorThread(i))
  {
    i := s.versionLock.value.i;
  }

  /** The protocol stands still with work pending exactly in the embrace of a
      creator and the updater, each holding the mutex that the other waits for. */
  lemma StuckIsEmbrace(env: Env, s: State)
    requires env.Valid() && Reachable(env, s)
    ensures Stuck(env, s) <==> Embrace(s)
  {
    ReachableInv(env, s);
    if Embrace(s) {
      EmbraceIsStuck(env, s);
    } else if Pending(s) {
      var step := SomeStepIsEnabled(env, s);
    }
  }

  /** The work that calls already made have left, in steps at most. */
  function Work(s: State): nat {
    CreatorsWork(s.creators)
    + match s.updater
      case Idle => 0
      case Notified(_) => 2 * |s.namespaces| + 3
      case HoldsNamespaces(_) => 2 * |s.namespaces| + 2
      case Iterating(_, todo) => 2 * |todo| + 1
      case Swapping(_, todo, _, _) => 2 * |todo| + 2
  }

  function CreatorWork(c: Creator): nat {
    match c
    case Waiting(_, _, _) => 5
    case Loading(_, _, _) => 4
    case Inserting(_, _) => 3
    case Finished => 0
  }

  function CreatorsWork(cs: seq<Creator>): nat {
    if cs == [] then 0 else CreatorWork(cs[0]) + CreatorsWork(cs[1..])
  }

  lemma {:induction false} CreatorsWorkAt(cs: seq<Creator>, i: nat, c: Creator)
    requires i < |cs|
    ensures CreatorsWork(cs[i := c]) == CreatorsWork(cs) - CreatorWork(cs[i]) + CreatorWork(c)
  {
    if i > 0 {
      assert cs[i := c][1..] == cs[1..][i - 1 := c];
      CreatorsWorkAt(cs[1..], i - 1, c);
    } else {
      assert cs[i := c][1..] == cs[1..];
    }
  }

  lemma MappedAtMostOneMore(m: map<string, nat>, ns: string, n: nat)
    ensures |m[ns := n]| <= |m| + 1
  {
    assert m[ns := n].Keys == m.Keys + {ns};
    assert |m[ns := n].Keys| == |m[ns := n]| && |m.Keys| == |m|;
  }

  lemma LockVersionShrinks(s: State, i: nat)
    requires LockVersionStep(s, i).Some?
    ensures Work(LockVersionStep(s, i).value) < Work(s)
  {
    CreatorsWorkAt(s.creators, i, LockVersionStep(s, i).value.creators[i]);
  }

  lemma LoadStoreShrinks(env: Env, s: State, i: nat)
    requires LoadStoreStep(env, s, i).Some?
    ensures Work(LoadStoreStep(env, s, i).value) < Work(s)
  {
    CreatorsWorkAt(s.creators, i, LoadStoreStep(env, s, i).value.creators[i]);
  }

  lemma VisitShrinks(env: Env, s: State, ns: string)
    requires VisitStep(env, s, ns).Some?
    ensures Work(VisitStep(env, s, ns).value) < Work(s)
  {
    assert |s.updater.todo - {ns}| < |s.updater.todo|;
  }

  lemma InsertShrinks(s: State, i: nat)
    requires InsertStep(s, i).Some?
    ensures Work(InsertStep(s, i).value) < Work(s)
  {
    CreatorsWorkAt(s.creators, i, Finished);
    MappedAtMostOneMore(s.namespaces, s.creators[i].ns, s.creators[i].handle);
  }

  /** Every step by which a call gets on leaves less to do. */
  lemma ProgressShrinks(env: Env, s: State, step: Step)
    requires IsProgress(step) && Apply(env, s, step).Some?
    ensures Work(Apply(env, s, step).value) < Work(s)
  {
    match step
    case LockVersion(i) => LockVersionShrinks(s, i);
    case LoadStore(i) => LoadStoreShrinks(env, s, i);
    case Insert(i) => InsertShrinks(s, i);
    case LockVersionToo => assert |s.namespaces.Keys| == |s.namespaces|;
    case Visit(ns) => VisitShrinks(env, s, ns);
    case _ =>
  }

  ghost predicate AllProgress(steps: seq<Step>) { forall k | 0 <= k < |steps| :: IsProgress(steps[k]) }

  /** Calls that were made get on for a bounded number of steps only, in any order. */
  lemma {:induction false} ProgressEnds(env: Env, s: State, steps: seq<Step>)
    requires AllProgress(steps) && Run(env, s, steps).Some?
    ensures |steps| + Work(Run(env, s, steps).value) <= Work(s)
    decreases |steps|
  {
    if steps != [] {
      ProgressShrinks(env, s, steps[0]);
      ProgressEnds(env, Apply(env, s, steps[0]).value, steps[1..]);
    }
  }

  /** However the calls that were made get on, when they can no more, all have
      returned or the last ones embrace. */
  lemma ProgressSettles(env: Env, s: State, steps: seq<Step>, t: State)
    requires env.Valid() && Reachable(env, s) && Run(env, s, steps) == Some(t)
    requires AllProgress(steps) && forall step | IsProgress(step) :: Apply(env, t, step).None?
    ensures |steps| <= Work(s) && (Pending(t) ==> Embrace(t))
  {
    ProgressEnds(env, s, steps);
    ReachableInv(env, s);
    RunKeepsInv(env, s, steps);
    if Pending(t) && !Embrace(t) {
      var step := SomeStepIsEnabled(env, t);
    }
  }

  /** It does happen: a namespace that loads is created while a version arrives. */
  lemma EmbraceIsReachable(env: Env, v: VersionItem, e: VersionItem, ns: string, level: NotifyLevel, hasCallback: bool)
    returns (steps: seq<Step>, s: State)
    requires env.load(ns, v).Some? && ValidNamespaceName(ns)
    ensures Run(env, Init(v), steps) == Some(s) && Embrace(s)
  {
    var create := [Request(ns, level, hasCallback), LockVersion(0), LoadStore(0)];
    var update := [Notify(e), LockNamespaces];
    var s1 := Apply(env, Init(v), create[0]).value;
    var s2 := Apply(env, s1, create[1]).value;
    var s3 := Apply(env, s2, create[2]).value;
    var s4 := Apply(env, s3, update[0]).value;
    s := Apply(env, s4, update[1]).value;
    steps := create + update;
    RunCons(env, s4, [update[1]]);
    RunCons(env, s3, update);
    RunCons(env, s2, steps[2..]);
    RunCons(env, s1, steps[1..]);
    RunCons(env, Init(v), steps);
    assert steps[2..][1..] == update && steps[1..][1..] == steps[2..] && update[1..] == [update[1]];
    assert s.creators[0].Inserting?;
  }

  lemma RunCons(env: Env, s: State, steps: seq<Step>)
    requires steps != [] && Apply(env, s, steps[0]).Some?
    ensures Run(env, s, steps) == Run(env, Apply(env, s, steps[0]).value, steps[1..])
    ensures Run(env, s, []) == Some(s)
  {
  }

  lemma StepKeepsEmbrace(env: Env, s: State, step: Step)
    requires LocksOk(s) && Embrace(s) && Apply(env, s, step).Some?
    ensures Embrace(Apply(env, s, step).value)
  {
    EmbraceIsStuck(env, s);
    var i :| 0 <= i < |s.creators| && s.creators[i].Inserting? && s.versionLock == Some(CreatorThread(i));
    assert !IsProgress(step);
    assert Apply(env, s, step).value.creators[i] == s.creators[i];
  }

  /** And no run leads out of it. */
  lemma {:induction false} EmbraceIsForever(env: Env, s: State, steps: seq<Step>)
    requires env.Valid() && Reachable(env, s) && Embrace(s) && Run(env, s, steps).Some?
    ensures Embrace(Run(env, s, steps).value)
  {
    ReachableInv(env, s);
    EmbraceGoesOn(env, s, steps);
  }

  lemma {:induction false} EmbraceGoesOn(env: Env, s: State, steps: seq<Step>)
    requires env.Valid() && Inv(env, s) && Embrace(s) && Run(env, s, steps).Some?
    ensures Embrace(Run(env, s, steps).value)
    decreases |steps|
  {
    if steps != [] {
      StepKeepsEmbrace(env, s, steps[0]);
      StepKeepsInv(env, s, Apply(env, s, steps[0]).value, steps[0]);
      EmbraceGoesOn(env, Apply(env, s, steps[0]).value, steps[1..]);
    }
  }

  // Callbacks and queries, in the order a handle saw them

  /** The store in place after a log. */
  function InPlace(first: MemStorage, log: seq<Obs>): MemStorage {
    if Swaps(log) == [] then first else Swaps(log)[|Swaps(log)| - 1]
  }

  lemma {:induction false} ReplayPrefix(calls: bool, first: MemStorage, log: seq<Obs>, k: nat)
    requires Replay(calls, first, log).Some? && k <= |log|
    ensures Replay(calls, first, log[..k]).Some?
  {
    if k == |log| {
      assert log[..k] == log;
    } else {
      assert log[..|log| - 1][..k] == log[..k];
      ReplayPrefix(calls, first, log[..|log| - 1], k);
    }
  }

  /** The call that announced the store to come. */
  lemma {:induction false} ComingWasCalled(calls: bool, first: MemStorage, log: seq<Obs>) returns (j: nat)
    requires Replay(calls, first, log).Some? && Replay(calls, first, log).value.1.Some?
    ensures j < |log| && log[j].Called? && Some(log[j].after) == Replay(calls, first, log).value.1
    ensures forall i | j < i < |log| :: log[i].Asked?
  {
    var n := |log| - 1;
    if log[n].Called? {
      j := n;
    } else {
      j := ComingWasCalled(calls, first, log[..n]);
    }
  }

  lemma ReplayStep(calls: bool, first: MemStorage, log: seq<Obs>, k: nat)
    requires Replay(calls, first, log).Some? && k < |log|
    ensures Replay(calls, first, log[..k]).Some? && Replay(calls, first, log[..k]).value.0 == InPlace(first, log[..k])
    ensures var coming := Replay(calls, first, log[..k]).value.1;
      match log[k]
      case Asked(seen) => seen == InPlace(first, log[..k])
      case Called(before, _) => calls && coming.None? && before == InPlace(first, log[..k])
      case Swapped(next) => coming == if calls then Some(next) else None
  {
    ReplayPrefix(calls, first, log, k);
    ReplayPrefix(calls, first, log, k + 1);
    assert log[..k + 1][..k] == log[..k];
    StoreIsLastSwap(calls, first, log[..k]);
  }

  /** In every reachable state and for every handle: a query is answered from the
      store in place; the old side of a callback is the store in place; with a
      callback, a swap puts in place the new side of the call before it, with
      nothing but queries between. */
  lemma CallbacksSeeBothSides(env: Env, s: State, n: nat, k: nat)
    requires env.Valid() && Reachable(env, s) && n < |s.handles| && k < |s.handles[n].log|
    ensures var h := s.handles[n];
      match h.log[k]
      case Asked(seen) => seen == InPlace(h.first, h.log[..k])
      case Called(before, _) => h.Calls() && before == InPlace(h.first, h.log[..k])
      case Swapped(next) => h.Calls() ==>
        exists j | 0 <= j < k :: h.log[j].Called? && h.log[j].after == next
          && forall i | j < i < k :: h.log[i].Asked?
  {
    ReachableInv(env, s);
    var h := s.handles[n];
    ReplayStep(h.Calls(), h.first, h.log, k);
    if h.log[k].Swapped? && h.Calls() {
      var j := ComingWasCalled(true, h.first, h.log[..k]);
      assert forall i | 0 <= i < k :: h.log[..k][i] == h.log[i];
    }
  }

  /** The new side of one callback is the old side of the next. */
  lemma CallbacksChain(env: Env, s: State, n: nat, j: nat, k: nat)
    requires env.Valid() && Reachable(env, s) && n < |s.handles| && j < k < |s.handles[n].log|
    requires s.handles[n].log[j].Called? && s.handles[n].log[k].Called?
    requires forall i | j < i < k :: !s.handles[n].log[i].Called?
    ensures s.handles[n].log[k].before == s.handles[n].log[j].after
  {
    ReachableInv(env, s);
    var h := s.handles[n];
    ReplayStep(h.Calls(), h.first, h.log, k);
    CallsAreKept(h.first, h.log[..k], j);
    assert h.log[..k][j] == h.log[j];
  }

  /** After a call and up to the next, the store in place is the one before the
      call until it is swapped for the one after. */
  lemma {:induction false} CallsAreKept(first: MemStorage, log: seq<Obs>, j: nat)
    requires j < |log| && log[j].Called? && forall i | j < i < |log| :: !log[i].Called?
    requires Replay(true, first, log).Some?
    ensures var (store, coming) := Replay(true, first, log).value;
      coming == Some(log[j].after) || (coming.None? && store == log[j].after)
  {
    var n := |log| - 1;
    if j < n {
      ReplayPrefix(true, first, log, n);
      CallsAreKept(first, log[..n], j);
      assert log[..n][j] == log[j];
    }
  }
}
