/**
 A version's tree of files as a storage backend shows it
 (src/storage_backends/mod.rs, src/storage_backends/filesystem/mod.rs).
 */
module Storage {
  import opened Common
  import opened Model

  /** The names from the root of the tree. */
  type Path = seq<string>

  datatype Entry = Entry(name: string, node: Node)

  /** `Unreadable` is a directory that cannot be listed. */
  datatype Node = File(blob: Blob) | Dir(entries: seq<Entry>) | Unreadable

  /** An entry as `list_dir` reports it; `blob` stands for the content behind the hash. */
  datatype DirItem = DirItem(path: Path, blob: Option<Blob>) {
    predicate IsDir() { blob.None? }
  }

  predicate ValidName(name: string) { name != "" && '/' !in name }

  ghost predicate DistinctNames(entries: seq<Entry>) {
    forall j, k | 0 <= j < k < |entries| :: entries[j].name != entries[k].name
  }

  /** Names are usable as path components and differ within a directory. */
  ghost predicate ValidTree(node: Node) {
    node.Dir? ==>
      && DistinctNames(node.entries)
      && forall k | 0 <= k < |node.entries| :: ValidName(node.entries[k].name) && ValidTree(node.entries[k].node)
  }

  function Find(entries: seq<Entry>, name: string): (r: Option<Entry>)
    ensures r.Some? ==> r.value in entries && r.value.name == name
  {
    if entries == [] then None
    else if entries[0].name == name then Some(entries[0])
    else Find(entries[1..], name)
  }

  function Lookup(node: Node, path: Path): Option<Node>
    decreases |path|
  {
    if path == [] then Some(node)
    else if node.Dir? && Find(node.entries, path[0]).Some? then
      Lookup(Find(node.entries, path[0]).value.node, path[1..])
    else None
  }

  function ItemOf(path: Path, entry: Entry): DirItem {
    DirItem(path + [entry.name], if entry.node.File? then Some(entry.node.blob) else None)
  }

  function Items(path: Path, entries: seq<Entry>): (items: seq<DirItem>)
    ensures |items| == |entries|
    ensures forall k | 0 <= k < |items| :: items[k] == ItemOf(path, entries[k])
  {
    if entries == [] then [] else [ItemOf(path, entries[0])] + Items(path, entries[1..])
  }

  function ListDir(root: Node, path: Path): Option<seq<DirItem>> {
    match Lookup(root, path)
    case Some(Dir(entries)) => Some(Items(path, entries))
    case _ => None
  }

  lemma {:induction false} FindSelf(entries: seq<Entry>, k: nat)
    requires k < |entries|
    requires DistinctNames(entries)
    ensures Find(entries, entries[k].name) == Some(entries[k])
  {
    if k > 0 {
      assert entries[0].name != entries[k].name;
      assert entries[1..][k - 1] == entries[k];
      FindSelf(entries[1..], k - 1);
    }
  }

  lemma {:induction false} LookupAppend(node: Node, p: Path, q: Path)
    ensures Lookup(node, p + q)
         == if Lookup(node, p).Some? then Lookup(Lookup(node, p).value, q) else None
    decreases |p|
  {
    if p == [] {
      assert p + q == q;
    } else {
      assert (p + q)[0] == p[0] && (p + q)[1..] == p[1..] + q;
      if node.Dir? && Find(node.entries, p[0]).Some? {
        LookupAppend(Find(node.entries, p[0]).value.node, p[1..], q);
      }
    }
  }

  lemma LookupChild(node: Node, path: Path, entries: seq<Entry>, k: nat)
    requires Lookup(node, path) == Some(Dir(entries)) && k < |entries|
    requires DistinctNames(entries)
    ensures Lookup(node, path + [entries[k].name]) == Some(entries[k].node)
  {
    FindSelf(entries, k);
    LookupAppend(node, path, [entries[k].name]);
    assert [entries[k].name][1..] == [];
  }

  lemma {:induction false} LookupIsValid(node: Node, path: Path)
    requires ValidTree(node) && Lookup(node, path).Some?
    ensures ValidTree(Lookup(node, path).value)
    ensures forall k | 0 <= k < |path| :: ValidName(path[k])
    decreases |path|
  {
    if path != [] {
      var e := Find(node.entries, path[0]).value;
      var i :| 0 <= i < |node.entries| && node.entries[i] == e;
      LookupIsValid(e.node, path[1..]);
      assert forall k | 1 <= k < |path| :: path[k] == path[1..][k - 1];
    }
  }

  // The text of a path below the root of its kind, the form in which links name files.

  function PathText(path: Path): string {
    if path == [] then ""
    else if |path| == 1 then path[0]
    else path[0] + "/" + PathText(path[1..])
  }

  ghost predicate ValidPath(path: Path) {
    path != [] && forall k | 0 <= k < |path| :: ValidName(path[k])
  }

  /** The text of a path is its names with a slash between each two. */
  lemma {:induction false} PathTextSnoc(path: Path, name: string)
    ensures PathText([name]) == name
    ensures path != [] ==> PathText(path + [name]) == PathText(path) + "/" + name
  {
    if |path| > 1 {
      assert (path + [name])[1..] == path[1..] + [name];
      PathTextSnoc(path[1..], name);
    } else if |path| == 1 {
      assert (path + [name])[1..] == [name];
    }
  }

  /** Two paths with the same text are the same. */
  lemma {:induction false} PathTextInjective(p: Path, q: Path)
    requires ValidPath(p) && ValidPath(q) && PathText(p) == PathText(q)
    ensures p == q
  {
    var a, b := if |p| == 1 then "" else "/" + PathText(p[1..]), if |q| == 1 then "" else "/" + PathText(q[1..]);
    assert PathText(p) == p[0] + a && PathText(q) == q[0] + b;
    FirstName(p[0], a, q[0], b);
    if |p| > 1 {
      assert a[1..] == PathText(p[1..]) && b[1..] == PathText(q[1..]);
      PathTextInjective(p[1..], q[1..]);
      assert p == [p[0]] + p[1..] && q == [q[0]] + q[1..];
    }
  }

  lemma FirstName(m: string, a: string, n: string, b: string)
    requires '/' !in m && '/' !in n && m + a == n + b
    requires (a == "" || a[0] == '/') && (b == "" || b[0] == '/')
    ensures m == n && a == b
  {
    var t := m + a;
    assert |m| < |t| ==> t[|m|] == '/';
    assert |n| < |t| ==> t[|n|] == '/';
    assert forall k | 0 <= k < |m| :: t[k] == m[k];
    assert forall k | 0 <= k < |n| :: t[k] == n[k];
    assert |m| == |n|;
    assert t[..|m|] == m && t[..|n|] == n && t[|m|..] == a && t[|n|..] == b;
  }
}
