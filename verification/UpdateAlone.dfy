/**
 Calls that nothing interleaves with: a run of the update protocol's machine does
 what the methods of the class `CFGCenter` do.
 */
module UpdateAlone {
  import opened Common
  import opened Stores
  import opened MemStore
  import opened CfgCenter
  import opened UpdateProtocol
  import opened UpdateResults

  /** No call is under way. */
  ghost predicate Quiet(s: State) { !Pending(s) && s.versionLock.None? && s.namespacesLock.None? }

  /** What a log says the callback was given. */
  function Told(level: NotifyLevel, log: seq<Obs>): seq<Differ> {
    if log == [] then []
    else
      var last := log[|log| - 1];
      Told(level, log[..|log| - 1]) + if last.Called? then [Differ(level, last.before, last.after, [])] else []
  }

  lemma ToldSnoc(level: NotifyLevel, log: seq<Obs>, o: Obs)
    ensures Told(level, log + [o])
         == Told(level, log) + if o.Called? then [Differ(level, o.before, o.after, [])] else []
  {
    assert (log + [o])[..|log|] == log;
  }

  // Updating

  /** A handle after its share of an update. */
  function Updated(env: Env, h: Handle, before: VersionItem, e: VersionItem): Handle {
    match Reload(env, h.level, h.ns, before, e)
    case None => h
    case Some(store) => h.(store := store, log := TellOf(h, store) + [Swapped(store)])
  }

  predicate IsUpdaters(step: Step) {
    step.LockNamespaces? || step.LockVersionToo? || step.Visit? || step.Swap? || step.Finish?
  }

  /** The namespaces that the update has yet to visit. */
  function Todo(s: State): set<string> {
    match s.updater
    case Idle => {}
    case Notified(_) => s.namespaces.Keys
    case HoldsNamespaces(_) => s.namespaces.Keys
    case Iterating(_, todo) => todo
    case Swapping(_, todo, _, _) => todo
  }

  predicate Due(s: State, n: nat)
    requires n < |s.handles|
  {
    var ns := s.handles[n].ns;
    ns in Todo(s) && ns in s.namespaces && s.namespaces[ns] == n
  }

  /** The handle as it will be when the update under way is done. */
  function Settled(env: Env, s: State, n: nat): Handle
    requires n < |s.handles| && !s.updater.Idle?
  {
    var h := s.handles[n];
    if s.updater.Swapping? && s.updater.handle == n then
      h.(store := s.updater.store, log := h.log + [Swapped(s.updater.store)])
    else if Due(s, n) then Updated(env, h, s.current, s.updater.e)
    else h
  }

  /** The update goes on from `s` to `t`, and will come to the same. */
  ghost predicate GoesOn(env: Env, s: State, t: State) {
    && !s.updater.Idle? && !t.updater.Idle? && t.updater.e == s.updater.e && |t.handles| == |s.handles|
    && t.current == s.current && t.delivered == s.delivered && t.namespaces == s.namespaces && t.creators == s.creators
    && forall n | 0 <= n < |s.handles| :: Settled(env, t, n) == Settled(env, s, n)
  }

  lemma LocksGoOn(env: Env, s: State, t: State, step: Step)
    requires (step.LockNamespaces? || step.LockVersionToo?) && Apply(env, s, step) == Some(t)
    ensures GoesOn(env, s, t)
  {
    assert Todo(t) == Todo(s);
    assert forall n | 0 <= n < |s.handles| :: Due(t, n) == Due(s, n);
  }

  /** Between two states of an update that differ in handle `n` and its namespace only. */
  lemma OthersGoOn(env: Env, s: State, t: State, n: nat, m: nat)
    requires !s.updater.Idle? && !t.updater.Idle? && t.updater.e == s.updater.e && t.current == s.current
    requires (s.updater.Swapping? ==> s.updater.handle == n) && (t.updater.Swapping? ==> t.updater.handle == n)
    requires n < |s.handles| && m < |s.handles| && m != n && |t.handles| == |s.handles| && t.handles[m] == s.handles[m]
    requires t.namespaces == s.namespaces && forall ns :: ns in Todo(t) <==>
      && ns in Todo(s) && (t.updater.Swapping? || t.updater.Iterating?)
      && (ns in s.namespaces && s.namespaces[ns] == n ==> ns in Todo(t))
    ensures Settled(env, t, m) == Settled(env, s, m)
  {
    assert Due(t, m) == Due(s, m);
  }

  lemma VisitedGoesOn(env: Env, s: State, t: State, ns: string)
    requires VisitStep(env, s, ns) == Some(t) && s.handles[s.namespaces[ns]].ns == ns
    ensures Settled(env, t, s.namespaces[ns]) == Settled(env, s, s.namespaces[ns])
  {
    assert Due(s, s.namespaces[ns]) && !Due(t, s.namespaces[ns]);
  }

  lemma VisitGoesOn(env: Env, s: State, t: State, ns: string)
    requires VisitStep(env, s, ns) == Some(t) && s.handles[s.namespaces[ns]].ns == ns
    ensures GoesOn(env, s, t)
  {
    var n := s.namespaces[ns];
    forall m | 0 <= m < |s.handles| ensures Settled(env, t, m) == Settled(env, s, m) {
      if m != n {
        OthersGoOn(env, s, t, n, m);
      } else {
        VisitedGoesOn(env, s, t, ns);
      }
    }
  }

  lemma SwapGoesOn(env: Env, s: State, t: State)
    requires UpdaterOk(env, s) && SwapStep(s) == Some(t)
    ensures GoesOn(env, s, t)
  {
    var n := s.updater.handle;
    forall m | 0 <= m < |s.handles| ensures Settled(env, t, m) == Settled(env, s, m) {
      if m != n {
        OthersGoOn(env, s, t, n, m);
      } else {
        assert !Due(t, n);
      }
    }
  }

  lemma StepGoesOn(env: Env, s: State, t: State, step: Step)
    requires NamespacesOk(env, s) && UpdaterOk(env, s)
    requires IsUpdaters(step) && !step.Finish? && Apply(env, s, step) == Some(t)
    ensures GoesOn(env, s, t)
  {
    match step
    case Visit(ns) => VisitGoesOn(env, s, t, ns);
    case Swap => SwapGoesOn(env, s, t);
    case _ => LocksGoOn(env, s, t, step);
  }

  /** The update under way in `s` is done in `t`. */
  ghost predicate Done(env: Env, s: State, t: State) {
    && !s.updater.Idle? && t.updater.Idle? && t.versionLock.None? && t.namespacesLock.None?
    && |t.handles| == |s.handles| && t.namespaces == s.namespaces && t.creators == s.creators
    && t.current == s.updater.e && t.delivered == s.delivered + [s.updater.e]
    && forall n | 0 <= n < |s.handles| :: t.handles[n] == Settled(env, s, n)
  }

  lemma FinishIsDone(env: Env, s: State, t: State)
    requires FinishStep(s) == Some(t)
    ensures Done(env, s, t)
  {
    assert forall n | 0 <= n < |s.handles| :: !Due(s, n);
  }

  /** Whatever order the updater visits the namespaces in, when it is done each
      mapped namespace has had its share, and no other handle has changed. */
  lemma {:induction false} UpdateComesTo(env: Env, s: State, steps: seq<Step>, t: State)
    requires env.Valid() && Inv(env, s) && !s.updater.Idle? && Run(env, s, steps) == Some(t) && t.updater.Idle?
    requires forall k | 0 <= k < |steps| :: IsUpdaters(steps[k])
    ensures Done(env, s, t)
    decreases |steps|
  {
    var next := Apply(env, s, steps[0]).value;
    StepKeepsInv(env, s, next, steps[0]);
    if steps[0].Finish? {
      FinishIsDone(env, s, next);
      IdleStays(env, next, steps[1..]);
    } else {
      StepGoesOn(env, s, next, steps[0]);
      UpdateComesTo(env, next, steps[1..], t);
    }
  }

  lemma IdleStays(env: Env, s: State, steps: seq<Step>)
    requires s.updater.Idle? && forall k | 0 <= k < |steps| :: IsUpdaters(steps[k])
    ensures steps == [] || Run(env, s, steps).None?
  {
    if steps != [] {
      assert IsUpdaters(steps[0]);
    }
  }

  ghost predicate NobodyCreates(s: State) { forall i | 0 <= i < |s.creators| :: s.creators[i].Finished? }

  lemma UpdaterSteps(env: Env, s: State) returns (step: Step)
    requires LocksOk(s) && NamespacesOk(env, s) && UpdaterOk(env, s) && NobodyCreates(s) && !s.updater.Idle?
    ensures IsUpdaters(step) && IsProgress(step) && Apply(env, s, step).Some?
    ensures NobodyCreates(Apply(env, s, step).value)
  {
    if s.updater.Iterating? || s.updater.Swapping? {
      step := UpdateCanStep(env, s);
    } else {
      if s.versionLock.Some? {
        var i := HolderOfVersion(s);
      }
      step := if s.updater.Notified? then LockNamespaces else LockVersionToo;
    }
  }

  /** While nobody creates, an update that has begun does come to its end. */
  lemma {:induction false} UpdateReturns(env: Env, s: State) returns (steps: seq<Step>, t: State)
    requires env.Valid() && Inv(env, s) && NobodyCreates(s)
    ensures Run(env, s, steps) == Some(t) && t.updater.Idle?
    ensures forall k | 0 <= k < |steps| :: IsUpdaters(steps[k])
    decreases Work(s)
  {
    if s.updater.Idle? {
      steps, t := [], s;
    } else {
      var step := UpdaterSteps(env, s);
      var next := Apply(env, s, step).value;
      ProgressShrinks(env, s, step);
      StepKeepsInv(env, s, next, step);
      var more;
      more, t := UpdateReturns(env, next);
      steps := [step] + more;
      RunCons(env, s, steps);
      assert steps[1..] == more;
    }
  }

  lemma UpdatedIsShare(b: Backend, h: Handle, before: VersionItem, e: VersionItem)
    ensures var r := Updated(EnvOf(b), h, before, e);
      && r.store == StoreAfter(b, h.level, h.ns, before, e, h.store)
      && Told(h.level, r.log) == Told(h.level, h.log) + CallsOf(b, h.level, h.hasCallback, h.ns, e, h.store)
      && r == h.(store := r.store, log := r.log)
  {
    var reload := Reload(EnvOf(b), h.level, h.ns, before, e);
    if reload.Some? {
      ToldSnoc(h.level, h.log, Called(h.store, reload.value));
      ToldSnoc(h.level, TellOf(h, reload.value), Swapped(reload.value));
    }
  }

  /** A run of one update alone. */
  ghost predicate UpdateRun(env: Env, s: State, e: VersionItem, steps: seq<Step>, t: State) {
    && steps != [] && steps[0] == Notify(e) && (forall k | 1 <= k < |steps| :: IsUpdaters(steps[k]))
    && Run(env, s, steps) == Some(t) && t.updater.Idle?
  }

  /** After an update alone each mapped namespace has the store, and its callback
      the calls, that its level calls for. */
  lemma UpdateShares(b: Backend, s: State, e: VersionItem, steps: seq<Step>, t: State)
    requires Reachable(EnvOf(b), s) && Quiet(s) && UpdateRun(EnvOf(b), s, e, steps, t)
    ensures Quiet(t) && t.current == e && t.delivered == s.delivered + [e] && t.namespaces == s.namespaces
    ensures forall ns | ns in s.namespaces ::
      && s.namespaces[ns] < |s.handles| == |t.handles|
      && var h, h' := s.handles[s.namespaces[ns]], t.handles[s.namespaces[ns]];
         && h' == h.(store := StoreAfter(b, h.level, ns, s.current, e, h.store), log := h'.log)
         && Told(h.level, h'.log) == Told(h.level, h.log) + CallsOf(b, h.level, h.hasCallback, ns, e, h.store)
  {
    var env := EnvOf(b);
    ReachableInv(env, s);
    var next := NotifyStep(s, e).value;
    StepKeepsInv(env, s, next, Notify(e));
    UpdateComesTo(env, next, steps[1..], t);
    forall ns | ns in s.namespaces
      ensures s.namespaces[ns] < |s.handles| && s.handles[s.namespaces[ns]].ns == ns
      ensures t.handles[s.namespaces[ns]] == Updated(env, s.handles[s.namespaces[ns]], s.current, e)
    {
      assert Due(next, s.namespaces[ns]);
    }
    forall ns | ns in s.namespaces {
      UpdatedIsShare(b, s.handles[s.namespaces[ns]], s.current, e);
    }
  }

  // Creating

  /** What creating a namespace comes to, if `store` is what it loads. */
  ghost predicate Created(store: Option<MemStorage>, s: State, ns: string, level: NotifyLevel, hasCallback: bool,
      t: State)
  {
    && t == s.(creators := t.creators, handles := t.handles, namespaces := t.namespaces)
    && if ValidNamespaceName(ns) && store.Some? && |s.delivered| > 0 then
         && t.handles == s.handles + [Handle(ns, level, hasCallback, store.value, store.value, |s.delivered| - 1, [])]
         && t.namespaces == s.namespaces[ns := |s.handles|]
       else t.handles == s.handles && t.namespaces == s.namespaces
  }

  /** A creator alone maps a handle with the store of the current version if the
      name is valid and the store loads, and changes nothing otherwise. */
  lemma CreateComesTo(env: Env, s: State, ns: string, level: NotifyLevel, hasCallback: bool)
    returns (steps: seq<Step>, t: State)
    requires |s.delivered| > 0 && Quiet(s)
    ensures Run(env, s, [Request(ns, level, hasCallback)] + steps) == Some(t) && Quiet(t)
    ensures forall k | 0 <= k < |steps| ::
      steps[k] in [LockVersion(|s.creators|), LoadStore(|s.creators|), Insert(|s.creators|)]
    ensures Created(env.load(ns, s.current), s, ns, level, hasCallback, t)
  {
    var i := |s.creators|;
    var s1 := RequestStep(s, ns, level, hasCallback);
    if !ValidNamespaceName(ns) {
      steps, t := [], s1;
    } else {
      var s2 := LockVersionStep(s1, i).value;
      var s3 := LoadStoreStep(env, s2, i).value;
      if env.load(ns, s.current).None? {
        steps, t := [LockVersion(i), LoadStore(i)], s3;
      } else {
        steps, t := [LockVersion(i), LoadStore(i), Insert(i)], InsertStep(s3, i).value;
        RunCons(env, s3, steps[2..]);
      }
      RunCons(env, s2, steps[1..]);
      RunCons(env, s1, steps);
    }
    RunCons(env, s, [Request(ns, level, hasCallback)] + steps);
    assert ([Request(ns, level, hasCallback)] + steps)[1..] == steps;
  }

  // The class

  ghost predicate MirrorsOne(h: Handle, c: NamespaceScopedCFGCenter)
    reads c
  {
    && c.namespace == h.ns && c.notifyLevel == h.level && c.hasCallback == h.hasCallback
    && c.currentMemstore == h.store && c.calls == Told(h.level, h.log)
  }

  /** The centre's object is in the state of the machine. */
  ghost predicate Mirrors(s: State, center: CFGCenter)
    reads center, center.namespaces.Values
  {
    && center.currentVersion == s.current && center.namespaces.Keys == s.namespaces.Keys
    && forall ns | ns in s.namespaces ::
         s.namespaces[ns] < |s.handles| && MirrorsOne(s.handles[s.namespaces[ns]], center.namespaces[ns])
  }

  /** `update_callback` does what every run of the updater alone does. */
  method UpdateCallbackMirrors(center: CFGCenter, e: VersionItem, ghost s: State, ghost steps: seq<Step>,
      ghost t: State)
    requires center.Valid() && Mirrors(s, center)
    requires Reachable(EnvOf(center.backend), s) && Quiet(s) && UpdateRun(EnvOf(center.backend), s, e, steps, t)
    modifies center`currentVersion, center.namespaces.Values
    ensures center.Valid() && Mirrors(t, center) && Quiet(t)
  {
    UpdateShares(center.backend, s, e, steps, t);
    center.UpdateCallback(e);
  }

  lemma CreatedHandles(store: Option<MemStorage>, s: State, ns: string, level: NotifyLevel, hasCallback: bool, t: State)
    requires Created(store, s, ns, level, hasCallback, t)
    ensures t.current == s.current && forall n | 0 <= n < |s.handles| :: n < |t.handles| && t.handles[n] == s.handles[n]
    ensures |t.handles| > |s.handles| ==> t.handles[|s.handles|].log == [] && Told(level, []) == []
  {
  }

  /** `create_namespace_scoped_cfg_center` does what a creator alone does. */
  method CreateMirrors(center: CFGCenter, ns: string, level: NotifyLevel, hasCallback: bool, ghost s: State,
      ghost t: State)
    returns (r: Option<NamespaceScopedCFGCenter>)
    requires center.Valid() && Mirrors(s, center) && |s.delivered| > 0
    requires Created(StoreAt(center.backend, ns, s.current), s, ns, level, hasCallback, t)
    modifies center`namespaces
    ensures center.Valid() && Mirrors(t, center) && (r.Some? <==> |t.handles| > |s.handles|)
  {
    CreatedHandles(StoreAt(center.backend, ns, s.current), s, ns, level, hasCallback, t);
    r := center.CreateNamespaceScopedCfgCenter(ns, level, hasCallback);
  }
}
