/**
 The order of a walk, described on the tree alone, and what it says about every
 callback: what is visited, once and after its parent, what skipping leaves out,
 and that stopping or failing cuts the order short.
 */
module WalkOrder {
  import opened Common
  import opened Storage
  import opened TreeWalk

  /** A walk calls the callback on an item, or finds a directory unreadable. */
  datatype Event = Visit(item: DirItem) | Unlisted(at: Path) {
    function Where(): Path {
      match this case Visit(item) => item.path case Unlisted(at) => at
    }
  }

  type SkipSet = DirItem -> bool

  /** The events of a whole walk of `node`, which is at `path`, that never enters
      a directory of `skip`: its entries, then its subdirectories, the last first. */
  function Visits(path: Path, node: Node, skip: SkipSet): seq<Event>
    decreases node, 1
  {
    match node
    case Dir(entries) => Listed(path, entries) + Below(path, entries, skip)
    case _ => [Unlisted(path)]
  }

  function Listed(path: Path, entries: seq<Entry>): seq<Event> {
    if entries == [] then [] else [Visit(ItemOf(path, entries[0]))] + Listed(path, entries[1..])
  }

  function Below(path: Path, entries: seq<Entry>, skip: SkipSet): seq<Event>
    decreases entries, 0
  {
    if entries == [] then []
    else Below(path, entries[1..], skip) + EntryVisits(path, entries[0], skip)
  }

  function EntryVisits(path: Path, entry: Entry, skip: SkipSet): seq<Event>
    decreases entry, 2
  {
    if entry.node.File? || skip(ItemOf(path, entry)) then []
    else Visits(path + [entry.name], entry.node, skip)
  }

  /** The callback on the events one after the other, until it stops or fails. */
  function Run<S>(cb: Callback<S>, s: S, events: seq<Event>): (S, End) {
    if events == [] then (s, Going)
    else match events[0]
      case Unlisted(_) => (s, Failed)
      case Visit(item) =>
        var (s1, v) := cb(s, item);
        if v.StopWalking? then (s1, Stopped)
        else if v.Error? then (s1, Failed)
        else Run(cb, s1, events[1..])
  }

  /** The callback asks to skip exactly the items of `skip`. */
  ghost predicate Skips<S(!new)>(cb: Callback<S>, skip: SkipSet) {
    forall s, item :: cb(s, item).1.SkipCurrentNode? || cb(s, item).1.Next? ==>
      (cb(s, item).1.SkipCurrentNode? <==> skip(item))
  }

  lemma {:induction false} RunAppend<S>(cb: Callback<S>, s: S, a: seq<Event>, b: seq<Event>)
    ensures Run(cb, s, a + b)
         == var (s1, end) := Run(cb, s, a); if end.Going? then Run(cb, s1, b) else (s1, end)
  {
    if a == [] {
      assert a + b == b;
    } else {
      assert (a + b)[0] == a[0] && (a + b)[1..] == a[1..] + b;
      if a[0].Visit? {
        RunAppend(cb, cb(s, a[0].item).0, a[1..], b);
      }
    }
  }

  lemma {:induction false} ScanIsRun<S(!new)>(cb: Callback<S>, s: S, path: Path, entries: seq<Entry>, skip: SkipSet)
    requires Skips(cb, skip)
    ensures var (s1, end, enter) := Scan(cb, s, Items(path, entries));
      && Run(cb, s, Listed(path, entries)) == (s1, end)
      && (end.Going? ==> forall k | 0 <= k < |entries| ::
            enter[k] <==> !entries[k].node.File? && !skip(ItemOf(path, entries[k])))
  {
    if entries != [] {
      var items := Items(path, entries);
      var (s1, v) := cb(s, items[0]);
      assert items[1..] == Items(path, entries[1..]);
      ScanIsRun(cb, s1, path, entries[1..], skip);
      var enter, rest := Scan(cb, s, items).2, Scan(cb, s1, items[1..]).2;
      assert v.Next? || v.SkipCurrentNode? ==> enter == [v.Next? && items[0].IsDir()] + rest;
      assert Scan(cb, s, items).1.Going? ==> forall k | 1 <= k < |entries| :: enter[k] == rest[k - 1];
    }
  }

  /** The walk of a callback that skips by the item alone is a run along the order. */
  lemma {:induction false} WalkIsRun<S(!new)>(cb: Callback<S>, s: S, path: Path, node: Node, skip: SkipSet)
    requires Skips(cb, skip)
    ensures WalkNode(cb, s, path, node) == Run(cb, s, Visits(path, node, skip))
    decreases node, 1
  {
    match node
    case Dir(entries) =>
      ScanIsRun(cb, s, path, entries, skip);
      var (s1, end, enter) := Scan(cb, s, Items(path, entries));
      RunAppend(cb, s, Listed(path, entries), Below(path, entries, skip));
      if end.Going? {
        EnteredIsRun(cb, s1, path, entries, enter, skip);
      }
    case _ =>
  }

  lemma {:induction false} EnteredIsRun<S(!new)>(cb: Callback<S>, s: S, path: Path, entries: seq<Entry>,
      enter: seq<bool>, skip: SkipSet)
    requires Skips(cb, skip) && |enter| == |entries|
    requires forall k | 0 <= k < |entries| :: enter[k] <==> !entries[k].node.File? && !skip(ItemOf(path, entries[k]))
    ensures WalkEntered(cb, s, path, entries, enter) == Run(cb, s, Below(path, entries, skip))
    decreases entries, 0
  {
    if entries != [] {
      EnteredIsRun(cb, s, path, entries[1..], enter[1..], skip);
      RunAppend(cb, s, Below(path, entries[1..], skip), EntryVisits(path, entries[0], skip));
      var (s1, end) := WalkEntered(cb, s, path, entries[1..], enter[1..]);
      if end.Going? && enter[0] {
        WalkIsRun(cb, s1, path + [entries[0].name], entries[0].node, skip);
      }
    }
  }

  /** The state after the callback saw the items of `events`, whatever it answered. */
  function Feed<S>(cb: Callback<S>, s: S, events: seq<Event>): S {
    if events == [] then s
    else Feed(cb, if events[0].Visit? then cb(s, events[0].item).0 else s, events[1..])
  }

  /** At the event `e`, reached in state `s`, a run ends with `end`. */
  predicate CutShortAt<S>(cb: Callback<S>, s: S, e: Event, end: End) {
    match e
    case Unlisted(_) => end.Failed?
    case Visit(item) =>
      (cb(s, item).1.StopWalking? && end.Stopped?) || (cb(s, item).1.Error? && end.Failed?)
  }

  /** A walk that is stopped or fails has seen an exact prefix of the order; one
      that does neither has seen all of it. */
  lemma {:induction false} RunIsPrefix<S>(cb: Callback<S>, s: S, events: seq<Event>) returns (k: nat)
    ensures k <= |events| && Run(cb, s, events).0 == Feed(cb, s, events[..k])
    ensures Run(cb, s, events).1.Going? ==> k == |events|
    ensures !Run(cb, s, events).1.Going? ==> k > 0 && CutShortAt(cb, Feed(cb, s, events[..k - 1]), events[k - 1],
                                                                  Run(cb, s, events).1)
    ensures k > 0 ==> Run(cb, s, events[..k - 1]).1.Going?
  {
    k := 0;
    if events != [] {
      var s1 := if events[0].Visit? then cb(s, events[0].item).0 else s;
      var v := if events[0].Visit? then cb(s, events[0].item).1 else Error;
      if v.Next? || v.SkipCurrentNode? {
        var j := RunIsPrefix(cb, s1, events[1..]);
        k := j + 1;
        assert events[..k][1..] == events[1..][..j];
        if j > 0 {
          assert events[..k - 1][1..] == events[1..][..j - 1];
        }
      } else {
        k := 1;
        assert events[..1][1..] == [];
      }
    }
  }

  // What the order of a walk contains

  const NO_SKIP: SkipSet := _ => false

  lemma {:induction false} InListed(path: Path, entries: seq<Entry>, e: Event)
    ensures e in Listed(path, entries) <==>
      exists k | 0 <= k < |entries| :: e == Visit(ItemOf(path, entries[k]))
  {
    if entries != [] {
      InListed(path, entries[1..], e);
      assert forall k | 1 <= k < |entries| :: entries[k] == entries[1..][k - 1];
      assert forall k | 0 <= k < |entries| - 1 :: entries[1..][k] == entries[k + 1];
    }
  }

  lemma {:induction false} InBelow(path: Path, entries: seq<Entry>, skip: SkipSet, e: Event)
    ensures e in Below(path, entries, skip) <==>
      exists k | 0 <= k < |entries| :: e in EntryVisits(path, entries[k], skip)
  {
    if entries != [] {
      InBelow(path, entries[1..], skip, e);
      assert forall k | 1 <= k < |entries| :: entries[k] == entries[1..][k - 1];
      assert forall k | 0 <= k < |entries| - 1 :: entries[1..][k] == entries[k + 1];
    }
  }

  /** Every event of a walk is at or below where the walk starts. */
  lemma {:induction false} VisitsAreBelow(path: Path, node: Node, skip: SkipSet, e: Event)
    requires e in Visits(path, node, skip)
    ensures path <= e.Where() && (e.Visit? ==> |path| < |e.Where()|)
    decreases node
  {
    if node.Dir? {
      InListed(path, node.entries, e);
      if e in Below(path, node.entries, skip) {
        InBelow(path, node.entries, skip, e);
        var k :| 0 <= k < |node.entries| && e in EntryVisits(path, node.entries[k], skip);
        VisitsAreBelow(path + [node.entries[k].name], node.entries[k].node, skip, e);
      }
    }
  }

  lemma EntryVisitsAreBelow(path: Path, entry: Entry, skip: SkipSet, e: Event)
    requires e in EntryVisits(path, entry, skip)
    ensures path + [entry.name] <= e.Where() && (e.Visit? ==> |path| + 1 < |e.Where()|)
  {
    VisitsAreBelow(path + [entry.name], entry.node, skip, e);
  }

  lemma EntryVisitsName(path: Path, entry: Entry, skip: SkipSet, e: Event)
    ensures e in EntryVisits(path, entry, skip) ==> |path| < |e.Where()| && e.Where()[|path|] == entry.name
  {
    if e in EntryVisits(path, entry, skip) {
      EntryVisitsAreBelow(path, entry, skip, e);
      assert (path + [entry.name])[|path|] == entry.name;
    }
  }

  /** The event lies at or below the entry with the name. */
  predicate IsUnder(path: Path, name: string, e: Event) { |path| < |e.Where()| && e.Where()[|path|] == name }

  lemma {:induction false} ListedIs(path: Path, entries: seq<Entry>)
    ensures |Listed(path, entries)| == |entries|
    ensures forall i | 0 <= i < |entries| :: Listed(path, entries)[i] == Visit(ItemOf(path, entries[i]))
  {
    if entries != [] {
      ListedIs(path, entries[1..]);
    }
  }

  /** Of two entries, what lies below the later one is visited first. */
  lemma {:induction false} LaterBelowFirst(path: Path, entries: seq<Entry>, skip: SkipSet, j: nat, k: nat, m: nat,
      n: nat)
    requires DistinctNames(entries) && j < k < |entries|
    requires m < |Below(path, entries, skip)| && n < |Below(path, entries, skip)|
    requires IsUnder(path, entries[j].name, Below(path, entries, skip)[m])
    requires IsUnder(path, entries[k].name, Below(path, entries, skip)[n])
    ensures n < m
  {
    var rest, first := Below(path, entries[1..], skip), EntryVisits(path, entries[0], skip);
    UnderLater(path, entries, skip, k, n);
    if j > 0 {
      UnderLater(path, entries, skip, j, m);
      LaterBelowFirst(path, entries[1..], skip, j - 1, k - 1, m, n);
    } else if m < |rest| {
      InBelow(path, entries[1..], skip, rest[m]);
      var i :| 0 <= i < |entries| - 1 && rest[m] in EntryVisits(path, entries[1..][i], skip);
      assert entries[i + 1].name != entries[0].name;
      EntryVisitsName(path, entries[1..][i], skip, rest[m]);
    }
  }

  lemma UnderLater(path: Path, entries: seq<Entry>, skip: SkipSet, k: nat, n: nat)
    requires DistinctNames(entries) && 0 < k < |entries| && n < |Below(path, entries, skip)|
    requires IsUnder(path, entries[k].name, Below(path, entries, skip)[n])
    ensures n < |Below(path, entries[1..], skip)|
    ensures Below(path, entries, skip)[n] == Below(path, entries[1..], skip)[n]
  {
    var rest, first := Below(path, entries[1..], skip), EntryVisits(path, entries[0], skip);
    assert entries[0].name != entries[k].name;
    if n >= |rest| {
      EntryVisitsName(path, entries[0], skip, first[n - |rest|]);
    }
  }

  /** A directory's entries come first, in the order of its listing, and then what
      lies below them, the last entry first. */
  lemma VisitsInOrder(path: Path, entries: seq<Entry>, skip: SkipSet)
    requires DistinctNames(entries)
    ensures var vs := Visits(path, Dir(entries), skip);
      && |vs| >= |entries| && (forall i | 0 <= i < |entries| :: vs[i] == Visit(ItemOf(path, entries[i])))
      && forall j, k, m, n | 0 <= j < k < |entries| && |entries| <= m < |vs| && |entries| <= n < |vs|
           && IsUnder(path, entries[j].name, vs[m]) && IsUnder(path, entries[k].name, vs[n]) :: n < m
  {
    ListedIs(path, entries);
    var vs, below, l := Visits(path, Dir(entries), skip), Below(path, entries, skip), |entries|;
    forall j, k, m, n | 0 <= j < k < l && l <= m < |vs| && l <= n < |vs|
      && IsUnder(path, entries[j].name, vs[m]) && IsUnder(path, entries[k].name, vs[n])
      ensures n < m
    {
      assert vs[m] == below[m - l] && vs[n] == below[n - l];
      LaterBelowFirst(path, entries, skip, j, k, m - l, n - l);
    }
  }

  /** What a walk from `node` at `path` should report. */
  ghost predicate Describes(path: Path, node: Node, e: Event) {
    path <= e.Where() &&
    var found := Lookup(node, e.Where()[|path|..]);
    found.Some? &&
    match e
    case Visit(item) =>
      |path| < |item.path| && item.blob == if found.value.File? then Some(found.value.blob) else None
    case Unlisted(_) => found.value.Unreadable?
  }

  lemma DescribesChild(path: Path, entries: seq<Entry>, k: nat, e: Event)
    requires DistinctNames(entries) && k < |entries| && path + [entries[k].name] <= e.Where()
    requires e.Visit? ==> |path| + 1 < |e.Where()|
    ensures Describes(path, Dir(entries), e) <==> Describes(path + [entries[k].name], entries[k].node, e)
  {
    FindSelf(entries, k);
    var rel := e.Where()[|path|..];
    assert rel[0] == entries[k].name && rel[1..] == e.Where()[|path| + 1..];
  }

  /** The first step of a described path: an entry of the directory, itself
      listed or a directory that is entered. */
  lemma DescribedEntry(path: Path, entries: seq<Entry>, e: Event) returns (k: nat)
    requires DistinctNames(entries) && Describes(path, Dir(entries), e)
    ensures k < |entries| && path + [entries[k].name] <= e.Where()
    ensures e == Visit(ItemOf(path, entries[k]))
      || (!entries[k].node.File? && Describes(path + [entries[k].name], entries[k].node, e))
  {
    var rel := e.Where()[|path|..];
    assert e.Where() == path + rel;
    var entry := Find(entries, rel[0]).value;
    k :| 0 <= k < |entries| && entries[k] == entry;
    assert rel == [entry.name] + rel[1..];
    assert e.Where() == (path + [entry.name]) + rel[1..];
    assert Lookup(Dir(entries), rel) == Lookup(entry.node, rel[1..]);
    if e.Visit? && |rel| == 1 {
      assert e.item == ItemOf(path, entry);
    } else {
      DescribesChild(path, entries, k, e);
    }
  }

  /** A walk that skips nothing reports exactly the descendants, with their
      contents, and the directories that cannot be listed. */
  lemma {:induction false} VisitsDescendants(path: Path, node: Node, e: Event)
    requires ValidTree(node) && !node.File?
    ensures e in Visits(path, node, NO_SKIP) <==> Describes(path, node, e)
    decreases node, 1
  {
    if node.Dir? {
      if e in Visits(path, node, NO_SKIP) {
        VisitedIsDescribed(path, node, e);
      }
      if Describes(path, node, e) {
        var k := DescribedEntry(path, node.entries, e);
        InListed(path, node.entries, e);
        InBelow(path, node.entries, NO_SKIP, e);
        if e != Visit(ItemOf(path, node.entries[k])) {
          VisitsDescendants(path + [node.entries[k].name], node.entries[k].node, e);
          assert e in EntryVisits(path, node.entries[k], NO_SKIP);
        }
      }
    } else if Describes(path, node, e) {
      assert e.Where()[|path|..] == [];
      assert e.Where() == path + e.Where()[|path|..] == path;
      assert e == Unlisted(path);
    } else {
      assert path[|path|..] == [];
    }
  }

  lemma {:induction false} VisitedIsDescribed(path: Path, node: Node, e: Event)
    requires ValidTree(node) && node.Dir? && e in Visits(path, node, NO_SKIP)
    ensures Describes(path, node, e)
    decreases node, 0
  {
    var entries := node.entries;
    InListed(path, entries, e);
    InBelow(path, entries, NO_SKIP, e);
    if e in Listed(path, entries) {
      var k :| 0 <= k < |entries| && e == Visit(ItemOf(path, entries[k]));
      FindSelf(entries, k);
      assert e.Where()[|path|..] == [entries[k].name] && [entries[k].name][1..] == [];
    } else {
      var k :| 0 <= k < |entries| && e in EntryVisits(path, entries[k], NO_SKIP);
      EntryVisitsAreBelow(path, entries[k], NO_SKIP, e);
      VisitsDescendants(path + [entries[k].name], entries[k].node, e);
      DescribesChild(path, entries, k, e);
    }
  }

  /** Nothing is visited twice. */
  lemma {:induction false} VisitsOnce(path: Path, node: Node, skip: SkipSet, e: Event)
    requires ValidTree(node)
    ensures multiset(Visits(path, node, skip))[e] <= 1
    decreases node, 1
  {
    if node.Dir? {
      ListedOnce(path, node.entries, e);
      BelowOnce(path, node.entries, skip, e);
      InListed(path, node.entries, e);
      InBelow(path, node.entries, skip, e);
      if e in Below(path, node.entries, skip) {
        var k :| 0 <= k < |node.entries| && e in EntryVisits(path, node.entries[k], skip);
        EntryVisitsAreBelow(path, node.entries[k], skip, e);
        assert e !in Listed(path, node.entries);
      }
    }
  }

  lemma {:induction false} ListedOnce(path: Path, entries: seq<Entry>, e: Event)
    requires DistinctNames(entries)
    ensures multiset(Listed(path, entries))[e] <= 1
  {
    if entries != [] {
      ListedOnce(path, entries[1..], e);
      InListed(path, entries[1..], e);
      forall k | 0 <= k < |entries| - 1
        ensures ItemOf(path, entries[1..][k]) != ItemOf(path, entries[0])
      {
        assert (path + [entries[0].name])[|path|] == entries[0].name;
        assert (path + [entries[k + 1].name])[|path|] == entries[k + 1].name;
      }
    }
  }

  lemma {:induction false} BelowOnce(path: Path, entries: seq<Entry>, skip: SkipSet, e: Event)
    requires DistinctNames(entries) && forall k | 0 <= k < |entries| :: ValidTree(entries[k].node)
    ensures multiset(Below(path, entries, skip))[e] <= 1
    decreases entries, 0
  {
    if entries != [] {
      BelowOnce(path, entries[1..], skip, e);
      if !entries[0].node.File? {
        VisitsOnce(path + [entries[0].name], entries[0].node, skip, e);
      }
      InBelow(path, entries[1..], skip, e);
      forall k | 0 <= k < |entries| - 1
        ensures !(e in EntryVisits(path, entries[0], skip) && e in EntryVisits(path, entries[1..][k], skip))
      {
        EntryVisitsName(path, entries[0], skip, e);
        EntryVisitsName(path, entries[k + 1], skip, e);
      }
    }
  }

  // Parents come first

  function ParentOf(e: Event): Event
    requires e.Where() != []
  {
    Visit(DirItem(e.Where()[..|e.Where()| - 1], None))
  }

  ghost predicate ParentsFirst(seen: set<Event>, events: seq<Event>) {
    forall j | 0 <= j < |events| && events[j].Visit? ::
      events[j].Where() != [] && (ParentOf(events[j]) in seen || ParentOf(events[j]) in events[..j])
  }

  lemma ParentsFirstAppend(seen: set<Event>, a: seq<Event>, b: seq<Event>)
    requires ParentsFirst(seen, a) && ParentsFirst(seen + (set e | e in a), b)
    ensures ParentsFirst(seen, a + b)
  {
    forall j | |a| <= j < |a + b| && (a + b)[j].Visit?
      ensures (a + b)[j].Where() != []
      ensures ParentOf((a + b)[j]) in seen || ParentOf((a + b)[j]) in (a + b)[..j]
    {
      assert (a + b)[j] == b[j - |a|] && (a + b)[..j] == a + b[..j - |a|];
    }
    assert forall j | 0 <= j < |a| :: (a + b)[..j] == a[..j];
  }

  /** A directory is visited before what is in it; `path` itself counts as visited. */
  lemma {:induction false} VisitsParentsFirst(path: Path, node: Node, skip: SkipSet)
    ensures ParentsFirst({Visit(DirItem(path, None))}, Visits(path, node, skip))
    decreases node, 1
  {
    if node.Dir? {
      var seen, listed := {Visit(DirItem(path, None))}, Listed(path, node.entries);
      forall j | 0 <= j < |listed|
        ensures listed[j].Where() != [] && ParentOf(listed[j]) in seen
      {
        InListed(path, node.entries, listed[j]);
        var k :| 0 <= k < |node.entries| && listed[j] == Visit(ItemOf(path, node.entries[k]));
        assert (path + [node.entries[k].name])[..|path|] == path;
      }
      var after := seen + (set e | e in listed);
      forall k | 0 <= k < |node.entries| && !node.entries[k].node.File?
        ensures Visit(ItemOf(path, node.entries[k])) in after
      {
        InListed(path, node.entries, Visit(ItemOf(path, node.entries[k])));
      }
      BelowParentsFirst(path, node.entries, skip, after);
      ParentsFirstAppend(seen, listed, Below(path, node.entries, skip));
    }
  }

  lemma {:induction false} BelowParentsFirst(path: Path, entries: seq<Entry>, skip: SkipSet, seen: set<Event>)
    requires forall k | 0 <= k < |entries| && !entries[k].node.File? :: Visit(ItemOf(path, entries[k])) in seen
    ensures ParentsFirst(seen, Below(path, entries, skip))
    decreases entries, 0
  {
    if entries != [] {
      assert forall k | 0 <= k < |entries| - 1 :: entries[1..][k] == entries[k + 1];
      BelowParentsFirst(path, entries[1..], skip, seen);
      if !entries[0].node.File? {
        VisitsParentsFirst(path + [entries[0].name], entries[0].node, skip);
        assert Visit(DirItem(path + [entries[0].name], None)) == Visit(ItemOf(path, entries[0]));
      }
      ParentsFirstAppend(seen, Below(path, entries[1..], skip), EntryVisits(path, entries[0], skip));
    }
  }

  // Skipping removes exactly the subtrees of the skipped directories

  /** A directory of `skip` lies between `base` and the event. */
  ghost predicate Hidden(base: Path, skip: SkipSet, e: Event) {
    exists k | |base| < k <= |e.Where()| && (e.Visit? ==> k < |e.Where()|) ::
      skip(DirItem(e.Where()[..k], None))
  }

  ghost function Unhidden(base: Path, skip: SkipSet, events: seq<Event>): seq<Event> {
    if events == [] then []
    else (if Hidden(base, skip, events[0]) then [] else [events[0]]) + Unhidden(base, skip, events[1..])
  }

  lemma {:induction false} UnhiddenAppend(base: Path, skip: SkipSet, a: seq<Event>, b: seq<Event>)
    ensures Unhidden(base, skip, a + b) == Unhidden(base, skip, a) + Unhidden(base, skip, b)
  {
    if a == [] {
      assert a + b == b;
    } else {
      assert (a + b)[0] == a[0] && (a + b)[1..] == a[1..] + b;
      UnhiddenAppend(base, skip, a[1..], b);
    }
  }

  lemma {:induction false} UnhiddenUniform(base: Path, skip: SkipSet, events: seq<Event>, hidden: bool)
    requires forall e | e in events :: Hidden(base, skip, e) == hidden
    ensures Unhidden(base, skip, events) == if hidden then [] else events
  {
    if events != [] {
      UnhiddenUniform(base, skip, events[1..], hidden);
    }
  }

  lemma {:induction false} UnhiddenAlike(base: Path, base': Path, skip: SkipSet, events: seq<Event>)
    requires forall e | e in events :: Hidden(base, skip, e) == Hidden(base', skip, e)
    ensures Unhidden(base, skip, events) == Unhidden(base', skip, events)
  {
    if events != [] {
      UnhiddenAlike(base, base', skip, events[1..]);
    }
  }

  /** Skipping leaves the order as it is, without what lies below a skipped directory. */
  lemma {:induction false} SkippingRemovesSubtrees(path: Path, node: Node, skip: SkipSet)
    requires !node.File?
    ensures Visits(path, node, skip) == Unhidden(path, skip, Visits(path, node, NO_SKIP))
    decreases node, 1
  {
    if node.Dir? {
      var listed := Listed(path, node.entries);
      UnhiddenAppend(path, skip, listed, Below(path, node.entries, NO_SKIP));
      forall e | e in listed ensures !Hidden(path, skip, e) {
        InListed(path, node.entries, e);
      }
      UnhiddenUniform(path, skip, listed, false);
      SkippingBelow(path, node.entries, skip);
    } else {
      var e := Unlisted(path);
      assert !Hidden(path, skip, e);
      UnhiddenUniform(path, skip, [e], false);
    }
  }

  lemma {:induction false} SkippingBelow(path: Path, entries: seq<Entry>, skip: SkipSet)
    ensures Below(path, entries, skip) == Unhidden(path, skip, Below(path, entries, NO_SKIP))
    decreases entries, 0
  {
    if entries != [] {
      SkippingBelow(path, entries[1..], skip);
      UnhiddenAppend(path, skip, Below(path, entries[1..], NO_SKIP), EntryVisits(path, entries[0], NO_SKIP));
      SkippingEntry(path, entries[0], skip);
    }
  }

  lemma {:induction false} SkippingEntry(path: Path, entry: Entry, skip: SkipSet)
    ensures EntryVisits(path, entry, skip) == Unhidden(path, skip, EntryVisits(path, entry, NO_SKIP))
    decreases entry
  {
    if !entry.node.File? {
      var child, all := path + [entry.name], EntryVisits(path, entry, NO_SKIP);
      var skipped := skip(ItemOf(path, entry));
      forall e | e in all
        ensures Hidden(path, skip, e) <==> skipped || Hidden(child, skip, e)
      {
        EntryVisitsAreBelow(path, entry, NO_SKIP, e);
        assert e.Where()[..|path| + 1] == child;
        assert ItemOf(path, entry) == DirItem(e.Where()[..|path| + 1], None);
      }
      if skipped {
        UnhiddenUniform(path, skip, all, true);
      } else {
        UnhiddenAlike(path, child, skip, all);
        SkippingRemovesSubtrees(child, entry.node, skip);
      }
    }
  }
}
