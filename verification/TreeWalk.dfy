/**
 The default `walk_dir` (src/storage_backends/mod.rs): a loop over a stack of
 directories that hands every entry to a callback and does what it answers.

 The callback of the source is a closure over some state; here it takes that
 state and returns it. `WalkNode` is the walk by recursion on the tree, `Visits`
 the order of a whole walk, with no callback at all.
 */
module TreeWalk {
  import opened Common
  import opened Storage

  datatype Verdict = Next | SkipCurrentNode | StopWalking | Error

  type Callback<!S> = (S, DirItem) -> (S, Verdict)

  datatype End = Going | Stopped | Failed

  /** The callback on the entries of one directory: the state, how it ended, and
      for each entry whether it is a directory to enter. */
  function Scan<S>(cb: Callback<S>, s: S, items: seq<DirItem>): (r: (S, End, seq<bool>))
    ensures r.1.Going? ==> |r.2| == |items|
  {
    if items == [] then (s, Going, [])
    else
      var (s1, v) := cb(s, items[0]);
      if v.StopWalking? then (s1, Stopped, [])
      else if v.Error? then (s1, Failed, [])
      else
        var (s2, end, enter) := Scan(cb, s1, items[1..]);
        (s2, end, [v.Next? && items[0].IsDir()] + enter)
  }

  function WalkNode<S>(cb: Callback<S>, s: S, path: Path, node: Node): (S, End)
    decreases node, 1
  {
    match node
    case Dir(entries) =>
      var (s1, end, enter) := Scan(cb, s, Items(path, entries));
      if end.Going? then WalkEntered(cb, s1, path, entries, enter) else (s1, end)
    case _ => (s, Failed)
  }

  /** The subdirectories marked in `enter`, the last one first. */
  function WalkEntered<S>(cb: Callback<S>, s: S, path: Path, entries: seq<Entry>, enter: seq<bool>): (S, End)
    requires |entries| == |enter|
    decreases entries, 0
  {
    if entries == [] then (s, Going)
    else
      var (s1, end) := WalkEntered(cb, s, path, entries[1..], enter[1..]);
      if end.Going? && enter[0] then WalkNode(cb, s1, path + [entries[0].name], entries[0].node)
      else (s1, end)
  }

  // The loop

  function StackSize(root: Node, stack: seq<Path>): nat {
    if stack == [] then 0
    else
      var top := Lookup(root, stack[|stack| - 1]);
      StackSize(root, stack[..|stack| - 1]) + if top.Some? then Size(top.value) else 1
  }

  function Size(node: Node): (n: nat)
    ensures n >= 1
    decreases node, 1
  {
    match node case Dir(entries) => 1 + Sizes(entries) case _ => 1
  }

  function Sizes(entries: seq<Entry>): nat
    decreases entries, 0
  {
    if entries == [] then 0 else Size(entries[0].node) + Sizes(entries[1..])
  }

  function WalkAt<S>(cb: Callback<S>, s: S, root: Node, path: Path): (S, End) {
    match Lookup(root, path) case Some(node) => WalkNode(cb, s, path, node) case None => (s, Failed)
  }

  /** What is left to do when `stack` holds the directories to visit. */
  function WalkStack<S>(cb: Callback<S>, s: S, root: Node, stack: seq<Path>): (S, End) {
    if stack == [] then (s, Going)
    else
      var (s1, end) := WalkAt(cb, s, root, stack[|stack| - 1]);
      if end.Going? then WalkStack(cb, s1, root, stack[..|stack| - 1]) else (s1, end)
  }

  function Entered(path: Path, entries: seq<Entry>, enter: seq<bool>): seq<Path>
    requires |entries| == |enter|
  {
    if entries == [] then []
    else (if enter[0] then [path + [entries[0].name]] else []) + Entered(path, entries[1..], enter[1..])
  }

  lemma {:induction false} WalkStackAppend<S>(cb: Callback<S>, s: S, root: Node, a: seq<Path>, b: seq<Path>)
    ensures WalkStack(cb, s, root, a + b)
         == var (s1, end) := WalkStack(cb, s, root, b);
            if end.Going? then WalkStack(cb, s1, root, a) else (s1, end)
    decreases |b|
  {
    if b == [] {
      assert a + b == a;
    } else {
      var n := |b| - 1;
      assert (a + b)[..|a + b| - 1] == a + b[..n];
      var (s1, end) := WalkAt(cb, s, root, b[n]);
      if end.Going? {
        WalkStackAppend(cb, s1, root, a, b[..n]);
      }
    }
  }

  ghost predicate Listing(root: Node, path: Path, entries: seq<Entry>) {
    Lookup(root, path) == Some(Dir(entries)) && DistinctNames(entries)
  }

  lemma {:induction false} StackIsEntered<S>(cb: Callback<S>, s: S, root: Node, path: Path,
      entries: seq<Entry>, k: nat, enter: seq<bool>)
    requires Listing(root, path, entries) && k <= |entries| && |enter| == |entries| - k
    ensures WalkStack(cb, s, root, Entered(path, entries[k..], enter))
         == WalkEntered(cb, s, path, entries[k..], enter)
    decreases |entries| - k
  {
    if k < |entries| {
      LookupChild(root, path, entries, k);
      assert entries[k..][1..] == entries[k + 1..];
      StackIsEntered(cb, s, root, path, entries, k + 1, enter[1..]);
      var child := path + [entries[k].name];
      WalkStackAppend(cb, s, root, if enter[0] then [child] else [], Entered(path, entries[k + 1..], enter[1..]));
      var (s1, end) := WalkEntered(cb, s, path, entries[k + 1..], enter[1..]);
      assert [child][..0] == [];
      assert WalkStack(cb, s1, root, [child]) == WalkAt(cb, s1, root, child);
    }
  }

  lemma {:induction false} StackSizeAppend(root: Node, a: seq<Path>, b: seq<Path>)
    ensures StackSize(root, a + b) == StackSize(root, a) + StackSize(root, b)
    decreases |b|
  {
    if b == [] {
      assert a + b == a;
    } else {
      assert (a + b)[..|a + b| - 1] == a + b[..|b| - 1];
      StackSizeAppend(root, a, b[..|b| - 1]);
    }
  }

  lemma {:induction false} EnteredSize(root: Node, path: Path, entries: seq<Entry>, k: nat, enter: seq<bool>)
    requires Listing(root, path, entries) && k <= |entries| && |enter| == |entries| - k
    ensures StackSize(root, Entered(path, entries[k..], enter)) <= Sizes(entries[k..])
    decreases |entries| - k
  {
    if k < |entries| {
      LookupChild(root, path, entries, k);
      assert entries[k..][1..] == entries[k + 1..];
      EnteredSize(root, path, entries, k + 1, enter[1..]);
      var child := path + [entries[k].name];
      StackSizeAppend(root, if enter[0] then [child] else [], Entered(path, entries[k + 1..], enter[1..]));
      assert [child][..0] == [];
    }
  }

  lemma {:induction false} EnteredAppend(path: Path, a: seq<Entry>, e: seq<bool>, entry: Entry, b: bool)
    requires |a| == |e|
    ensures Entered(path, a + [entry], e + [b])
         == Entered(path, a, e) + if b then [path + [entry.name]] else []
    decreases |a|
  {
    if a == [] {
      assert a + [entry] == [entry] && e + [b] == [b];
    } else {
      assert (a + [entry])[1..] == a[1..] + [entry] && (e + [b])[1..] == e[1..] + [b];
      EnteredAppend(path, a[1..], e[1..], entry, b);
    }
  }

  /** Entering the marked subdirectories instead of the directory they are in. */
  lemma EnterChildren<S>(cb: Callback<S>, s0: S, s: S, root: Node, below: seq<Path>, parent: Path,
      entries: seq<Entry>, enter: seq<bool>)
    requires Listing(root, parent, entries) && |enter| == |entries|
    requires Scan(cb, s0, Items(parent, entries)) == (s, Going, enter)
    ensures WalkStack(cb, s, root, below + Entered(parent, entries, enter))
         == WalkStack(cb, s0, root, below + [parent])
    ensures StackSize(root, below + Entered(parent, entries, enter)) < StackSize(root, below + [parent])
  {
    var pushed := Entered(parent, entries, enter);
    assert entries[0..] == entries;
    StackIsEntered(cb, s, root, parent, entries, 0, enter);
    WalkStackAppend(cb, s, root, below, pushed);
    assert (below + [parent])[..|below|] == below;
    EnteredSize(root, parent, entries, 0, enter);
    StackSizeAppend(root, below, pushed);
  }

  /** After the first `i` entries the state is `s`, and `enter` says which of them to enter. */
  ghost predicate Visited<S>(cb: Callback<S>, init: S, items: seq<DirItem>, i: nat, enter: seq<bool>, s: S) {
    && |enter| == i <= |items|
    && Scan(cb, init, items).0 == Scan(cb, s, items[i..]).0
    && Scan(cb, init, items).1 == Scan(cb, s, items[i..]).1
    && Scan(cb, init, items).2 == enter + Scan(cb, s, items[i..]).2
  }

  lemma ScanAt<S>(cb: Callback<S>, s: S, items: seq<DirItem>, i: nat)
    requires i < |items|
    ensures var (s1, v) := cb(s, items[i]);
      var (s2, end, enter) := Scan(cb, s1, items[i + 1..]);
      Scan(cb, s, items[i..])
      == if v.StopWalking? then (s1, Stopped, [])
         else if v.Error? then (s1, Failed, [])
         else (s2, end, [v.Next? && items[i].IsDir()] + enter)
  {
    assert items[i..][0] == items[i] && items[i..][1..] == items[i + 1..];
  }

  lemma VisitedStep<S>(cb: Callback<S>, init: S, items: seq<DirItem>, i: nat, enter: seq<bool>, s: S)
    requires Visited(cb, init, items, i, enter, s) && i < |items|
    ensures var (s1, v) := cb(s, items[i]);
      && (v.StopWalking? ==> Scan(cb, init, items).0 == s1 && Scan(cb, init, items).1 == Stopped)
      && (v.Error? ==> Scan(cb, init, items).0 == s1 && Scan(cb, init, items).1 == Failed)
      && (v.Next? || v.SkipCurrentNode? ==>
            Visited(cb, init, items, i + 1, enter + [v.Next? && items[i].IsDir()], s1))
  {
    ScanAt(cb, s, items, i);
    var (s1, v) := cb(s, items[i]);
    if v.Next? || v.SkipCurrentNode? {
      OneMore(enter, v.Next? && items[i].IsDir(), Scan(cb, s1, items[i + 1..]).2);
    }
  }

  lemma OneMore<T>(a: seq<T>, t: T, b: seq<T>)
    ensures a + ([t] + b) == (a + [t]) + b
  {
  }

  lemma VisitedAll<S>(cb: Callback<S>, init: S, items: seq<DirItem>, enter: seq<bool>, s: S)
    requires Visited(cb, init, items, |items|, enter, s)
    ensures Scan(cb, init, items) == (s, Going, enter)
  {
    assert items[|items|..] == [];
    var none: seq<bool> := Scan(cb, s, []).2;
    assert none == [] && enter + none == enter;
  }

  lemma EnteredStep(stack: seq<Path>, path: Path, entries: seq<Entry>, i: nat, enter: seq<bool>, push: bool)
    requires |enter| == i < |entries|
    ensures stack + Entered(path, entries[..i + 1], enter + [push])
         == stack + Entered(path, entries[..i], enter) + if push then [path + [entries[i].name]] else []
  {
    EnteredAppend(path, entries[..i], enter, entries[i], push);
    assert entries[..i + 1] == entries[..i] + [entries[i]];
  }

  /** The inner loop: the callback on every entry of one directory, pushing the
      subdirectories it wants to enter. */
  method VisitEntries<S>(cb: Callback<S>, init: S, parent: Path, ghost entries: seq<Entry>,
      items: seq<DirItem>, stack: seq<Path>)
    returns (s: S, end: End, nodesToVisit: seq<Path>)
    requires items == Items(parent, entries)
    ensures s == Scan(cb, init, items).0 && end == Scan(cb, init, items).1
    ensures end.Going? ==> nodesToVisit == stack + Entered(parent, entries, Scan(cb, init, items).2)
  {
    s, end, nodesToVisit := init, Going, stack;
    ghost var enter: seq<bool> := [];
    assert items[0..] == items;
    for i := 0 to |items|
      invariant end.Going? && Visited(cb, init, items, i, enter, s)
      invariant nodesToVisit == stack + Entered(parent, entries[..i], enter)
    {
      var curNode := items[i];
      VisitedStep(cb, init, items, i, enter, s);
      var (s1, v) := cb(s, curNode);
      s := s1;
      if v.StopWalking? {
        end := Stopped;
        return;
      }
      if v.Error? {
        end := Failed;
        return;
      }
      var push := v.Next? && curNode.IsDir();
      EnteredStep(stack, parent, entries, i, enter, push);
      enter := enter + [push];
      if push {
        nodesToVisit := nodesToVisit + [curNode.path];
      }
    }
    VisitedAll(cb, init, items, enter, s);
    assert entries[..|items|] == entries;
  }

  method WalkDir<S>(root: Node, path: Path, cb: Callback<S>, init: S) returns (s: S, ok: bool)
    requires ValidTree(root)
    ensures s == WalkAt(cb, init, root, path).0
    ensures ok <==> WalkAt(cb, init, root, path).1 != Failed
  {
    s, ok := init, true;
    var nodesToVisit := [path];
    assert nodesToVisit[..0] == [];
    while nodesToVisit != []
      invariant WalkStack(cb, s, root, nodesToVisit) == WalkAt(cb, init, root, path)
      decreases StackSize(root, nodesToVisit)
    {
      ghost var s0 := s;
      var parent := nodesToVisit[|nodesToVisit| - 1];
      nodesToVisit := nodesToVisit[..|nodesToVisit| - 1];
      var listed := ListDir(root, parent);
      if listed.None? {
        return s, false;
      }
      ghost var below, entries := nodesToVisit, Lookup(root, parent).value.entries;
      var end;
      s, end, nodesToVisit := VisitEntries(cb, s, parent, entries, listed.value, nodesToVisit);
      if !end.Going? {
        return s, end.Stopped?;
      }
      LookupIsValid(root, parent);
      EnterChildren(cb, s0, s, root, below, parent, entries, Scan(cb, s0, listed.value).2);
    }
  }
}
