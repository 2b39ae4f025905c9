/**
 Callbacks whose skipping depends on what they have seen: every walk still runs
 along the order of `WalkOrder`, for the set of items that the callback in fact
 asked to skip on the way.
 */
module WalkSkips {
  import opened Common
  import opened Storage
  import opened TreeWalk
  import opened WalkOrder

  /** The items that the callback asks to skip in a listing. */
  ghost function ScanSkipped<S>(cb: Callback<S>, s: S, items: seq<DirItem>): set<DirItem> {
    if items == [] then {}
    else
      var (s1, v) := cb(s, items[0]);
      if v.StopWalking? || v.Error? then {}
      else (if v.SkipCurrentNode? then {items[0]} else {}) + ScanSkipped(cb, s1, items[1..])
  }

  /** The items that it asks to skip on a walk. */
  ghost function WalkSkipped<S>(cb: Callback<S>, s: S, path: Path, node: Node): set<DirItem>
    decreases node, 1
  {
    match node
    case Dir(entries) =>
      var (s1, end, enter) := Scan(cb, s, Items(path, entries));
      ScanSkipped(cb, s, Items(path, entries)) + if end.Going? then EnteredSkipped(cb, s1, path, entries, enter) else {}
    case _ => {}
  }

  ghost function EnteredSkipped<S>(cb: Callback<S>, s: S, path: Path, entries: seq<Entry>,
      enter: seq<bool>): set<DirItem>
    requires |entries| == |enter|
    decreases entries, 0
  {
    if entries == [] then {}
    else
      var (s1, end) := WalkEntered(cb, s, path, entries[1..], enter[1..]);
      EnteredSkipped(cb, s, path, entries[1..], enter[1..])
      + if end.Going? && enter[0] then WalkSkipped(cb, s1, path + [entries[0].name], entries[0].node) else {}
  }

  /** The item lies below the directory at `path`. */
  predicate Under(path: Path, item: DirItem) { path <= item.path && path != item.path }

  // Where skipped items lie

  lemma {:induction false} ScanSkippedAre<S>(cb: Callback<S>, s: S, items: seq<DirItem>)
    ensures forall i | i in ScanSkipped(cb, s, items) :: i in items
  {
    if items != [] {
      ScanSkippedAre(cb, cb(s, items[0]).0, items[1..]);
    }
  }

  lemma {:induction false} WalkSkippedAre<S>(cb: Callback<S>, s: S, path: Path, node: Node)
    ensures forall i | i in WalkSkipped(cb, s, path, node) :: Under(path, i)
    decreases node, 1
  {
    if node.Dir? {
      var entries := node.entries;
      var (s1, end, enter) := Scan(cb, s, Items(path, entries));
      ScanSkippedAre(cb, s, Items(path, entries));
      if end.Going? {
        EnteredSkippedAre(cb, s1, path, entries, enter);
        forall i | i in EnteredSkipped(cb, s1, path, entries, enter) ensures Under(path, i) {
          var k :| 0 <= k < |entries| && Under(path + [entries[k].name], i);
          ChildIsUnder(path, entries[k].name, i);
        }
      }
    }
  }

  lemma ChildIsUnder(path: Path, name: string, item: DirItem)
    requires Under(path + [name], item)
    ensures Under(path, item) && |item.path| >= |path| + 2 && item.path[|path|] == name
  {
    assert item.path[|path|] == (path + [name])[|path|];
  }

  lemma {:induction false} EnteredSkippedAre<S>(cb: Callback<S>, s: S, path: Path, entries: seq<Entry>,
      enter: seq<bool>)
    requires |entries| == |enter|
    ensures forall i | i in EnteredSkipped(cb, s, path, entries, enter) ::
      exists k | 0 <= k < |entries| :: Under(path + [entries[k].name], i)
    decreases entries, 0
  {
    if entries != [] {
      var s1 := WalkEntered(cb, s, path, entries[1..], enter[1..]).0;
      EnteredSkippedAre(cb, s, path, entries[1..], enter[1..]);
      WalkSkippedAre(cb, s1, path + [entries[0].name], entries[0].node);
      forall i | i in EnteredSkipped(cb, s, path, entries, enter)
        ensures exists k | 0 <= k < |entries| :: Under(path + [entries[k].name], i)
      {
        if i in EnteredSkipped(cb, s, path, entries[1..], enter[1..]) {
          var k :| 0 <= k < |entries| - 1 && Under(path + [entries[1..][k].name], i);
          assert Under(path + [entries[k + 1].name], i);
        }
      }
    }
  }

  // What the callback is asked and answers along the order

  /** Along the events, the callback asks to skip just the items of `skip`. */
  ghost predicate SkipsAlong<S>(cb: Callback<S>, s: S, events: seq<Event>, skip: SkipSet) {
    events == [] || (events[0].Visit? ==>
      var (s1, v) := cb(s, events[0].item);
      v.StopWalking? || v.Error?
      || ((v.SkipCurrentNode? <==> skip(events[0].item)) && SkipsAlong(cb, s1, events[1..], skip)))
  }

  lemma {:induction false} SkipsAlongAppend<S>(cb: Callback<S>, s: S, a: seq<Event>, b: seq<Event>, skip: SkipSet)
    requires SkipsAlong(cb, s, a, skip)
    requires Run(cb, s, a).1.Going? ==> SkipsAlong(cb, Run(cb, s, a).0, b, skip)
    ensures SkipsAlong(cb, s, a + b, skip)
  {
    if a == [] {
      assert a + b == b;
    } else {
      assert (a + b)[0] == a[0] && (a + b)[1..] == a[1..] + b;
      if a[0].Visit? && !cb(s, a[0].item).1.StopWalking? && !cb(s, a[0].item).1.Error? {
        SkipsAlongAppend(cb, cb(s, a[0].item).0, a[1..], b, skip);
      }
    }
  }

  /** `skip` and `skipped` have the same of the items of a listing. */
  ghost predicate AgreeHere(skip: SkipSet, skipped: set<DirItem>, path: Path, entries: seq<Entry>) {
    forall k | 0 <= k < |entries| :: skip(ItemOf(path, entries[k])) <==> ItemOf(path, entries[k]) in skipped
  }

  lemma ItemsDiffer(path: Path, d: Entry, e: Entry)
    requires d.name != e.name
    ensures ItemOf(path, d) != ItemOf(path, e)
  {
    assert ItemOf(path, d).path[|path|] == d.name && ItemOf(path, e).path[|path|] == e.name;
  }

  lemma FirstIsAlone(path: Path, entries: seq<Entry>)
    requires entries != [] && DistinctNames(entries)
    ensures ItemOf(path, entries[0]) !in Items(path, entries[1..])
    ensures forall k | 1 <= k < |entries| :: ItemOf(path, entries[k]) != ItemOf(path, entries[0])
  {
    forall k | 1 <= k < |entries| ensures ItemOf(path, entries[k]) != ItemOf(path, entries[0]) {
      ItemsDiffer(path, entries[k], entries[0]);
    }
    var rest := Items(path, entries[1..]);
    assert forall k | 0 <= k < |rest| :: rest[k] == ItemOf(path, entries[k + 1]);
  }

  lemma ScanSkippedRest<S>(cb: Callback<S>, s: S, path: Path, entries: seq<Entry>, skip: SkipSet)
    requires entries != [] && DistinctNames(entries)
    requires !cb(s, ItemOf(path, entries[0])).1.StopWalking? && !cb(s, ItemOf(path, entries[0])).1.Error?
    requires AgreeHere(skip, ScanSkipped(cb, s, Items(path, entries)), path, entries)
    ensures skip(ItemOf(path, entries[0])) <==> cb(s, ItemOf(path, entries[0])).1.SkipCurrentNode?
    ensures var s1 := cb(s, ItemOf(path, entries[0])).0;
      AgreeHere(skip, ScanSkipped(cb, s1, Items(path, entries[1..])), path, entries[1..])
  {
    var items, first := Items(path, entries), ItemOf(path, entries[0]);
    var (s1, v) := cb(s, first);
    var rest := ScanSkipped(cb, s1, Items(path, entries[1..]));
    FirstIsAlone(path, entries);
    ScanSkippedAre(cb, s1, Items(path, entries[1..]));
    assert ScanSkipped(cb, s, items) == (if v.SkipCurrentNode? then {first} else {}) + rest;
    forall k | 0 <= k < |entries| - 1
      ensures skip(ItemOf(path, entries[1..][k])) <==> ItemOf(path, entries[1..][k]) in rest
    {
      assert entries[1..][k] == entries[k + 1];
    }
  }

  lemma {:induction false} ScanRuns<S>(cb: Callback<S>, s: S, path: Path, entries: seq<Entry>, skip: SkipSet)
    requires DistinctNames(entries) && AgreeHere(skip, ScanSkipped(cb, s, Items(path, entries)), path, entries)
    ensures Run(cb, s, Listed(path, entries))
         == (Scan(cb, s, Items(path, entries)).0, Scan(cb, s, Items(path, entries)).1)
    ensures SkipsAlong(cb, s, Listed(path, entries), skip)
  {
    if entries != [] {
      var (s1, v) := cb(s, ItemOf(path, entries[0]));
      if !v.StopWalking? && !v.Error? {
        ScanSkippedRest(cb, s, path, entries, skip);
        ScanRuns(cb, s1, path, entries[1..], skip);
      }
    }
  }

  /** The directories to enter are those that are not skipped. */
  lemma {:induction false} ScanEnters<S>(cb: Callback<S>, s: S, path: Path, entries: seq<Entry>, skip: SkipSet)
    requires DistinctNames(entries) && AgreeHere(skip, ScanSkipped(cb, s, Items(path, entries)), path, entries)
    ensures var (s1, end, enter) := Scan(cb, s, Items(path, entries));
      end.Going? ==> forall k | 0 <= k < |entries| ::
        enter[k] <==> !entries[k].node.File? && !skip(ItemOf(path, entries[k]))
  {
    if entries != [] && Scan(cb, s, Items(path, entries)).1.Going? {
      var first := ItemOf(path, entries[0]);
      var (s1, v) := cb(s, first);
      ScanSkippedRest(cb, s, path, entries, skip);
      ScanEnters(cb, s1, path, entries[1..], skip);
      var rest := Scan(cb, s1, Items(path, entries[1..])).2;
      assert Scan(cb, s, Items(path, entries)).2 == [v.Next? && first.IsDir()] + rest;
      forall k | 0 <= k < |entries|
        ensures ([v.Next? && first.IsDir()] + rest)[k] <==> !entries[k].node.File? && !skip(ItemOf(path, entries[k]))
      {
        if k > 0 {
          assert entries[1..][k - 1] == entries[k];
        }
      }
    }
  }

  /** `skip` and `skipped` have the same of the items below the directory at `path`. */
  ghost predicate AgreeUnder(skip: SkipSet, skipped: set<DirItem>, path: Path) {
    forall i | Under(path, i) :: skip(i) <==> i in skipped
  }

  ghost predicate AgreeUnderAll(skip: SkipSet, skipped: set<DirItem>, path: Path, entries: seq<Entry>) {
    forall k | 0 <= k < |entries| :: AgreeUnder(skip, skipped, path + [entries[k].name])
  }

  /** A walk is a run along the order for what it asks to skip. */
  lemma {:induction false} WalkRuns<S>(cb: Callback<S>, s: S, path: Path, node: Node, skip: SkipSet)
    requires ValidTree(node) && AgreeUnder(skip, WalkSkipped(cb, s, path, node), path)
    ensures WalkNode(cb, s, path, node) == Run(cb, s, Visits(path, node, skip))
    ensures SkipsAlong(cb, s, Visits(path, node, skip), skip)
    decreases node, 1
  {
    if node.Dir? {
      var entries := node.entries;
      AgreesHere(cb, s, path, entries, skip);
      ScanRuns(cb, s, path, entries, skip);
      ScanEnters(cb, s, path, entries, skip);
      var (s1, end, enter) := Scan(cb, s, Items(path, entries));
      RunAppend(cb, s, Listed(path, entries), Below(path, entries, skip));
      if end.Going? {
        AgreesUnderAll(cb, s, path, entries, skip);
        EnteredRuns(cb, s1, path, entries, enter, skip);
      }
      SkipsAlongAppend(cb, s, Listed(path, entries), Below(path, entries, skip), skip);
    }
  }

  lemma AgreesHere<S>(cb: Callback<S>, s: S, path: Path, entries: seq<Entry>, skip: SkipSet)
    requires AgreeUnder(skip, WalkSkipped(cb, s, path, Dir(entries)), path)
    ensures AgreeHere(skip, ScanSkipped(cb, s, Items(path, entries)), path, entries)
  {
    var (s1, end, enter) := Scan(cb, s, Items(path, entries));
    forall k | 0 <= k < |entries|
      ensures skip(ItemOf(path, entries[k])) <==> ItemOf(path, entries[k]) in ScanSkipped(cb, s, Items(path, entries))
    {
      var i := ItemOf(path, entries[k]);
      assert Under(path, i);
      if end.Going? && i in EnteredSkipped(cb, s1, path, entries, enter) {
        EnteredSkippedAre(cb, s1, path, entries, enter);
        var j :| 0 <= j < |entries| && Under(path + [entries[j].name], i);
        ChildIsUnder(path, entries[j].name, i);
        assert false;
      }
    }
  }

  lemma AgreesUnderAll<S>(cb: Callback<S>, s: S, path: Path, entries: seq<Entry>, skip: SkipSet)
    requires AgreeUnder(skip, WalkSkipped(cb, s, path, Dir(entries)), path)
    requires Scan(cb, s, Items(path, entries)).1.Going?
    ensures var (s1, end, enter) := Scan(cb, s, Items(path, entries));
      AgreeUnderAll(skip, EnteredSkipped(cb, s1, path, entries, enter), path, entries)
  {
    var (s1, end, enter) := Scan(cb, s, Items(path, entries));
    ScanSkippedAre(cb, s, Items(path, entries));
    forall k, i | 0 <= k < |entries| && Under(path + [entries[k].name], i)
      ensures skip(i) <==> i in EnteredSkipped(cb, s1, path, entries, enter)
    {
      ChildIsUnder(path, entries[k].name, i);
    }
  }

  lemma {:induction false} EnteredRuns<S>(cb: Callback<S>, s: S, path: Path, entries: seq<Entry>, enter: seq<bool>,
      skip: SkipSet)
    requires |enter| == |entries| && DistinctNames(entries)
    requires forall k | 0 <= k < |entries| :: ValidTree(entries[k].node)
    requires forall k | 0 <= k < |entries| :: enter[k] <==> !entries[k].node.File? && !skip(ItemOf(path, entries[k]))
    requires AgreeUnderAll(skip, EnteredSkipped(cb, s, path, entries, enter), path, entries)
    ensures WalkEntered(cb, s, path, entries, enter) == Run(cb, s, Below(path, entries, skip))
    ensures SkipsAlong(cb, s, Below(path, entries, skip), skip)
    decreases entries, 0
  {
    if entries != [] {
      AgreesUnderRest(cb, s, path, entries, enter, skip);
      EnteredRuns(cb, s, path, entries[1..], enter[1..], skip);
      var (s1, end) := WalkEntered(cb, s, path, entries[1..], enter[1..]);
      if end.Going? && enter[0] {
        WalkRuns(cb, s1, path + [entries[0].name], entries[0].node, skip);
      }
      RunAppend(cb, s, Below(path, entries[1..], skip), EntryVisits(path, entries[0], skip));
      SkipsAlongAppend(cb, s, Below(path, entries[1..], skip), EntryVisits(path, entries[0], skip), skip);
    }
  }

  lemma AgreesUnderRest<S>(cb: Callback<S>, s: S, path: Path, entries: seq<Entry>, enter: seq<bool>, skip: SkipSet)
    requires |enter| == |entries| && DistinctNames(entries) && entries != []
    requires AgreeUnderAll(skip, EnteredSkipped(cb, s, path, entries, enter), path, entries)
    ensures AgreeUnderAll(skip, EnteredSkipped(cb, s, path, entries[1..], enter[1..]), path, entries[1..])
    ensures var (s1, end) := WalkEntered(cb, s, path, entries[1..], enter[1..]);
      var child := path + [entries[0].name];
      end.Going? && enter[0] ==> AgreeUnder(skip, WalkSkipped(cb, s1, child, entries[0].node), child)
  {
    var (s1, end) := WalkEntered(cb, s, path, entries[1..], enter[1..]);
    var child := path + [entries[0].name];
    var rest := EnteredSkipped(cb, s, path, entries[1..], enter[1..]);
    WalkSkippedAre(cb, s1, child, entries[0].node);
    EnteredSkippedAre(cb, s, path, entries[1..], enter[1..]);
    forall k, i | 0 <= k < |entries| - 1 && Under(path + [entries[1..][k].name], i) ensures skip(i) <==> i in rest {
      ChildIsUnder(path, entries[k + 1].name, i);
      assert Under(path + [entries[k + 1].name], i);
      if Under(child, i) {
        ChildIsUnder(path, entries[0].name, i);
        assert false;
      }
    }
    forall i | Under(child, i) ensures i !in rest {
      if i in rest {
        var k :| 0 <= k < |entries| - 1 && Under(path + [entries[1..][k].name], i);
        ChildIsUnder(path, entries[k + 1].name, i);
        ChildIsUnder(path, entries[0].name, i);
        assert false;
      }
    }
    assert AgreeUnder(skip, EnteredSkipped(cb, s, path, entries, enter), child);
  }

  /** Every walk of every callback is the callback run along the order without
      what lies below the items it asks to skip, and it asks to skip just those. */
  lemma EveryWalkIsRun<S>(cb: Callback<S>, s: S, path: Path, node: Node) returns (skip: SkipSet)
    requires ValidTree(node)
    ensures WalkNode(cb, s, path, node) == Run(cb, s, Visits(path, node, skip))
    ensures SkipsAlong(cb, s, Visits(path, node, skip), skip)
    ensures forall i :: skip(i) <==> i in WalkSkipped(cb, s, path, node)
  {
    skip := i => i in WalkSkipped(cb, s, path, node);
    WalkRuns(cb, s, path, node, skip);
  }
}
