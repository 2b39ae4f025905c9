/**
 The in-memory index of one version, and how it is loaded from the version's tree
 (src/cfg_center/cfgindex.rs).
 */
module CfgIndex {
  import opened Common
  import opened RuleEngine
  import opened IndexData
  import opened Model
  import opened Storage
  import opened Files
  import opened TreeWalk
  import opened WalkOrder

  /** Drops `path:/`. */
  function RemovePathTypePrefix(i: string): string
    requires |i| >= 6
  {
    i[6..]
  }

  predicate LongPaths(link: Link) { |link.rule| >= 6 && forall k | 0 <= k < |link.reses| :: |link.reses[k]| >= 6 }

  /** A link that can be indexed. */
  function DecodeLink(b: Blob): Option<Link> {
    match LoadLink(b)
    case None => None
    case Some(link) => if LongPaths(link) then Some(link) else None
  }

  function DecodeRes(b: Blob): Option<seq<KeyValuePair>> {
    match LoadRes(b) case None => None case Some(items) => Some(Pairs(items))
  }

  function Pairs(items: seq<ResSpecItem>): (kvs: seq<KeyValuePair>)
    ensures |kvs| == |items|
    ensures forall k | 0 <= k < |items| :: kvs[k] == KeyValuePair(items[k].contentType, items[k].key, items[k].data)
  {
    if items == [] then []
    else [KeyValuePair(items[0].contentType, items[0].key, items[0].data)] + Pairs(items[1..])
  }

  function LinkItems(linkPath: string, link: Link, reses: seq<string>): seq<IdxLinkItem>
    requires forall k | 0 <= k < |reses| :: |reses[k]| >= 6
  {
    if reses == [] then []
    else
      var item := IdxLinkItem(link.pri, link.isNeg, link.rule, RemovePathTypePrefix(reses[0]), linkPath);
      [item] + LinkItems(linkPath, link, reses[1..])
  }

  /** `add_rule` and `add_res`. */
  function Put<T>(m: map<string, T>, path: string, t: T): map<string, T> { m[path := t] }

  function AddLink(m: LinkMap, linkPath: string, link: Link): LinkMap {
    if LongPaths(link) then
      var key := RemovePathTypePrefix(link.rule);
      m[key := (if key in m then m[key] else []) + LinkItems(linkPath, link, link.reses)]
    else m
  }

  type Decode<T> = Blob -> Option<T>
  type Add<!S, !T> = (S, string, T) -> S

  /** The path below the directory of its kind. */
  function Relative(path: Path): Path { if path == [] then [] else path[1..] }

  /** The callbacks of `load_rule`, `load_link` and `load_res`. */
  function Loader<S, T>(decode: Decode<T>, add: Add<S, T>): Callback<S> {
    (s, item: DirItem) =>
      if item.IsDir() then (s, Next)
      else match decode(item.blob.value)
        case None => (s, Error)
        case Some(t) => (add(s, PathText(Relative(item.path)), t), Next)
  }

  /** The names in an absolute namespace. */
  function NsPath(namespace: string): Option<Path> {
    if "/" <= namespace then Some(Components(namespace[1..])) else None
  }

  function NameLength(s: string): (n: nat)
    ensures n <= |s| && (n < |s| ==> s[n] == '/') && '/' !in s[..n]
  {
    if s == "" || s[0] == '/' then 0
    else
      var n := 1 + NameLength(s[1..]);
      assert s[..n] == [s[0]] + s[1..][..n - 1];
      n
  }

  function Components(s: string): (path: Path)
    ensures forall k | 0 <= k < |path| :: ValidName(path[k])
    decreases |s|
  {
    var n := NameLength(s);
    var head := if n == 0 then [] else [s[..n]];
    if n == |s| then head else head + Components(s[n + 1..])
  }

  /** The absolute form of a namespace, with a slash at its end. */
  function NsText(path: Path): string { "/" + Slashed(path) }

  function Slashed(path: Path): string {
    if path == [] then "" else path[0] + "/" + Slashed(path[1..])
  }

  lemma {:induction false} NameLengthStops(name: string, k: string)
    requires '/' !in name
    ensures NameLength(name + "/" + k) == |name|
  {
    if name == "" {
      assert name + "/" + k == "/" + k;
    } else {
      assert (name + "/" + k)[1..] == name[1..] + "/" + k;
      NameLengthStops(name[1..], k);
    }
  }

  /** The text of a namespace leads back to its names. */
  lemma NamespaceText(path: Path)
    requires forall k | 0 <= k < |path| :: ValidName(path[k])
    ensures NsPath(NsText(path)) == Some(path)
  {
    assert NsText(path)[1..] == Slashed(path);
    ComponentsOfSlashed(path);
  }

  lemma FirstComponent(name: string, rest: string)
    requires ValidName(name)
    ensures Components(name + "/" + rest) == [name] + Components(rest)
  {
    var s := name + "/" + rest;
    NameLengthStops(name, rest);
    assert s[..|name|] == name && s[|name| + 1..] == rest;
  }

  lemma {:induction false} ComponentsOfSlashed(path: Path)
    requires forall k | 0 <= k < |path| :: ValidName(path[k])
    ensures Components(Slashed(path)) == path
  {
    if path != [] {
      FirstComponent(path[0], Slashed(path[1..]));
      ComponentsOfSlashed(path[1..]);
      assert path == [path[0]] + path[1..];
    }
  }

  /** So does the text of a path below a kind. */
  lemma {:induction false} PathTextComponents(path: Path)
    requires ValidPath(path)
    ensures Components(PathText(path)) == path
  {
    if |path| == 1 {
      LastComponent(path[0]);
    } else {
      PathTextComponents(path[1..]);
      FirstComponent(path[0], PathText(path[1..]));
      assert path == [path[0]] + path[1..];
    }
  }

  lemma {:induction false} NameLengthAll(name: string)
    requires '/' !in name
    ensures NameLength(name) == |name|
  {
    if name != "" {
      NameLengthAll(name[1..]);
    }
  }

  lemma LastComponent(name: string)
    requires ValidName(name)
    ensures Components(name) == [name]
  {
    NameLengthAll(name);
    assert name[..|name|] == name;
  }

  /** A namespace must be absolute. */
  lemma OnlyAbsolute(namespace: string)
    ensures NsPath(namespace).Some? <==> namespace != "" && namespace[0] == '/'
  {
  }

  /** The outcome of one of the three walks of a load. */
  function LoadTree<S, T>(decode: Decode<T>, add: Add<S, T>, init: S, root: Node, path: Path): Option<S> {
    var (s, end) := WalkAt(Loader(decode, add), init, root, path);
    if end.Failed? then None else Some(s)
  }

  const RULES := "rules"
  const LINKS := "links"
  const RESES := "reses"

  /** What loading the namespace at `ns` of the tree gives. */
  function LoadIndices(root: Node, ns: Path): Option<Indices> {
    var rules := LoadTree(LoadRule, Put<Condition>, map[], root, [RULES] + ns);
    var links := LoadTree(DecodeLink, AddLink, map[], root, [LINKS] + ns);
    var reses := LoadTree(DecodeRes, Put<seq<KeyValuePair>>, map[], root, [RESES] + ns);
    if rules.Some? && links.Some? && reses.Some? then
      Some(Indices(rules.value, links.value, reses.value))
    else None
  }

  class CFGIndex {
    var ruleStor: RuleMap
    var linkStor: LinkMap
    var resStor: ResMap

    constructor ()
      ensures ruleStor == map[] && linkStor == map[] && resStor == map[]
    {
      ruleStor, linkStor, resStor := map[], map[], map[];
    }

    method LoadRules(root: Node, ns: Path) returns (ok: bool)
      requires ValidTree(root)
      modifies this`ruleStor
      ensures var r := LoadTree(LoadRule, Put<Condition>, old(ruleStor), root, [RULES] + ns);
        ok == r.Some? && (ok ==> ruleStor == r.value)
    {
      ruleStor, ok := WalkDir(root, [RULES] + ns, Loader(LoadRule, Put<Condition>), ruleStor);
    }

    method LoadLinks(root: Node, ns: Path) returns (ok: bool)
      requires ValidTree(root)
      modifies this`linkStor
      ensures var r := LoadTree(DecodeLink, AddLink, old(linkStor), root, [LINKS] + ns);
        ok == r.Some? && (ok ==> linkStor == r.value)
    {
      linkStor, ok := WalkDir(root, [LINKS] + ns, Loader(DecodeLink, AddLink), linkStor);
    }

    method LoadReses(root: Node, ns: Path) returns (ok: bool)
      requires ValidTree(root)
      modifies this`resStor
      ensures var r := LoadTree(DecodeRes, Put<seq<KeyValuePair>>, old(resStor), root, [RESES] + ns);
        ok == r.Some? && (ok ==> resStor == r.value)
    {
      resStor, ok := WalkDir(root, [RESES] + ns, Loader(DecodeRes, Put<seq<KeyValuePair>>), resStor);
    }
  }

  method Load(root: Node, namespace: string) returns (r: Option<Indices>)
    requires ValidTree(root)
    ensures r == if NsPath(namespace).Some? then LoadIndices(root, NsPath(namespace).value) else None
  {
    var ns := NsPath(namespace);
    if ns.None? {
      return None;
    }
    var index := new CFGIndex();
    var ok := index.LoadRules(root, ns.value);
    if ok {
      ok := index.LoadLinks(root, ns.value);
    }
    if ok {
      ok := index.LoadReses(root, ns.value);
    }
    r := if ok then Some(Indices(index.ruleStor, index.linkStor, index.resStor)) else None;
  }

  // What a load finds, told from the files of the tree

  ghost predicate IsFileVisit(e: Event) { e.Visit? && !e.item.IsDir() }

  function TextOf(e: Event): string { PathText(Relative(e.Where())) }

  ghost predicate Loadable<T>(decode: Decode<T>, e: Event) {
    e.Visit? && (e.item.IsDir() || decode(e.item.blob.value).Some?)
  }

  ghost predicate AllLoadable<T>(decode: Decode<T>, events: seq<Event>) {
    forall k | 0 <= k < |events| :: Loadable(decode, events[k])
  }

  ghost function Folded<S, T>(decode: Decode<T>, add: Add<S, T>, s: S, events: seq<Event>): S
    requires AllLoadable(decode, events)
  {
    if events == [] then s
    else
      var e := events[0];
      Folded(decode, add,
             if e.item.IsDir() then s else add(s, TextOf(e), decode(e.item.blob.value).value),
             events[1..])
  }

  lemma {:induction false} RunLoader<S, T>(decode: Decode<T>, add: Add<S, T>, s: S, events: seq<Event>)
    ensures var (s1, end) := Run(Loader(decode, add), s, events);
      && (end.Going? <==> AllLoadable(decode, events))
      && (end.Going? ==> s1 == Folded(decode, add, s, events))
      && !end.Stopped?
  {
    if events != [] {
      var e := events[0];
      if Loadable(decode, e) {
        RunLoader(decode, add,
                  if e.item.IsDir() then s else add(s, TextOf(e), decode(e.item.blob.value).value),
                  events[1..]);
      }
    }
  }

  /** The events of loading the directory at `path`. */
  ghost function Events(root: Node, path: Path): seq<Event> {
    var node := Lookup(root, path);
    if node.Some? then Visits(path, node.value, NO_SKIP) else [Unlisted(path)]
  }

  lemma LoadTreeFolds<S(!new), T>(decode: Decode<T>, add: Add<S, T>, init: S, root: Node, path: Path)
    ensures var r, events := LoadTree(decode, add, init, root, path), Events(root, path);
      && (r.Some? <==> AllLoadable(decode, events))
      && (r.Some? ==> r.value == Folded(decode, add, init, events))
  {
    var events := Events(root, path);
    RunLoader(decode, add, init, events);
    var node := Lookup(root, path);
    if node.Some? {
      WalkIsRun(Loader(decode, add), init, path, node.value, NO_SKIP);
    }
  }

  ghost predicate IsDirectory(root: Node, path: Path) {
    Lookup(root, path).Some? && !Lookup(root, path).value.File?
  }

  lemma LoadedDirectory<T>(decode: Decode<T>, root: Node, path: Path)
    ensures AllLoadable(decode, Events(root, path)) ==> IsDirectory(root, path)
  {
    if !IsDirectory(root, path) {
      assert Events(root, path)[0] == Unlisted(path);
    }
  }

  /** The visited files of a load are the files of the kind below the namespace. */
  lemma EventsAreFiles(root: Node, kind: string, ns: Path, e: Event)
    requires ValidTree(root) && IsFileVisit(e) && IsDirectory(root, [kind] + ns)
    ensures e in Events(root, [kind] + ns) <==>
      exists p :: FileAt(root, kind, ns, p, e.item.blob.value) && e.item.path == [kind] + p
  {
    if e in Events(root, [kind] + ns) {
      EventIsFile(root, kind, ns, e);
    }
    if p :| FileAt(root, kind, ns, p, e.item.blob.value) && e.item.path == [kind] + p {
      FileIsEvent(root, kind, ns, p, e);
    }
  }

  lemma EventIsFile(root: Node, kind: string, ns: Path, e: Event)
    requires ValidTree(root) && IsFileVisit(e) && IsDirectory(root, [kind] + ns) && e in Events(root, [kind] + ns)
    ensures e.item.path != [] && e.item.path == [kind] + e.item.path[1..]
    ensures FileAt(root, kind, ns, e.item.path[1..], e.item.blob.value)
  {
    var path, q := [kind] + ns, e.item.path;
    LookupIsValid(root, path);
    VisitsDescendants(path, Lookup(root, path).value, e);
    LookupAppend(root, path, q[|path|..]);
    PathBelow(kind, ns, q);
  }

  lemma PathBelow(kind: string, ns: Path, q: Path)
    requires [kind] + ns <= q && [kind] + ns != q
    ensures q != [] && q == [kind] + q[1..] && ns <= q[1..] && ns != q[1..] && q == [kind] + ns + q[|ns| + 1..]
  {
    assert q[0] == ([kind] + ns)[0] && q[1..][..|ns|] == ns;
    assert q == ([kind] + ns) + q[|ns| + 1..];
  }

  lemma FileIsEvent(root: Node, kind: string, ns: Path, p: Path, e: Event)
    requires ValidTree(root) && IsFileVisit(e) && IsDirectory(root, [kind] + ns)
    requires FileAt(root, kind, ns, p, e.item.blob.value) && e.item.path == [kind] + p
    ensures e in Events(root, [kind] + ns)
  {
    var path, q := [kind] + ns, e.item.path;
    LookupIsValid(root, path);
    VisitsDescendants(path, Lookup(root, path).value, e);
    assert p == ns + p[|ns|..] && q == path + q[|path|..];
    LookupAppend(root, path, q[|path|..]);
  }

  /** No two files of a load have the same text. */
  ghost predicate Unambiguous(events: seq<Event>) {
    forall d, e | d in events && e in events && IsFileVisit(d) && IsFileVisit(e) && TextOf(d) == TextOf(e) :: d == e
  }

  lemma EventsAreUnambiguous(root: Node, kind: string, ns: Path)
    requires ValidTree(root) && IsDirectory(root, [kind] + ns)
    ensures Unambiguous(Events(root, [kind] + ns))
    ensures forall e :: multiset(Events(root, [kind] + ns))[e] <= 1
  {
    var events := Events(root, [kind] + ns);
    forall d, e | d in events && e in events && IsFileVisit(d) && IsFileVisit(e) && TextOf(d) == TextOf(e)
      ensures d == e
    {
      EventsAreFiles(root, kind, ns, d);
      EventsAreFiles(root, kind, ns, e);
      var p :| FileAt(root, kind, ns, p, d.item.blob.value) && d.item.path == [kind] + p;
      var q :| FileAt(root, kind, ns, q, e.item.blob.value) && e.item.path == [kind] + q;
      FilePathIsValid(root, kind, ns, p, d.item.blob.value);
      FilePathIsValid(root, kind, ns, q, e.item.blob.value);
      assert Relative(d.item.path) == p && Relative(e.item.path) == q;
      PathTextInjective(p, q);
    }
    LookupIsValid(root, [kind] + ns);
    forall e ensures multiset(events)[e] <= 1 {
      VisitsOnce([kind] + ns, Lookup(root, [kind] + ns).value, NO_SKIP, e);
    }
  }

  lemma FilePathIsValid(root: Node, kind: string, ns: Path, p: Path, blob: Blob)
    requires ValidTree(root) && FileAt(root, kind, ns, p, blob)
    ensures ValidPath(p)
  {
    LookupIsValid(root, [kind] + p);
    assert forall k | 0 <= k < |p| :: p[k] == ([kind] + p)[k + 1];
  }

  // Maps of rules and resources

  lemma {:induction false} FoldedPut<T>(decode: Decode<T>, m: map<string, T>, events: seq<Event>)
    requires AllLoadable(decode, events)
    requires Unambiguous(events)
    decreases |events|
    ensures var r := Folded(decode, Put<T>, m, events);
      && (forall e | e in events && IsFileVisit(e) ::
            TextOf(e) in r && decode(e.item.blob.value) == Some(r[TextOf(e)]))
      && (forall k | k in r :: (k in m && r[k] == m[k]) || exists e :: e in events && IsFileVisit(e) && TextOf(e) == k)
      && (forall k | k in m :: k in r)
      && (forall k | k in m && (forall e | e in events && IsFileVisit(e) :: TextOf(e) != k) :: r[k] == m[k])
  {
    if events != [] {
      var e := events[0];
      var m1 := if e.item.IsDir() then m else Put(m, TextOf(e), decode(e.item.blob.value).value);
      assert forall d :: d in events <==> d == e || d in events[1..];
      FoldedPut(decode, m1, events[1..]);
      var r := Folded(decode, Put<T>, m1, events[1..]);
      assert r == Folded(decode, Put<T>, m, events);
      if IsFileVisit(e) {
        FirstIsKept(decode, m1, events);
      }
    }
  }

  /** A text that the first file gives is in the map, with what that file decodes to. */
  lemma FirstIsKept<T>(decode: Decode<T>, m: map<string, T>, events: seq<Event>)
    requires events != [] && AllLoadable(decode, events) && Unambiguous(events) && IsFileVisit(events[0])
    requires TextOf(events[0]) in m && decode(events[0].item.blob.value) == Some(m[TextOf(events[0])])
    requires var rest, r := events[1..], Folded(decode, Put<T>, m, events[1..]);
      && (forall d | d in rest && IsFileVisit(d) :: TextOf(d) in r && decode(d.item.blob.value) == Some(r[TextOf(d)]))
      && (forall k | k in m :: k in r)
      && (forall k | k in m && (forall d | d in rest && IsFileVisit(d) :: TextOf(d) != k) :: r[k] == m[k])
    ensures var e, r := events[0], Folded(decode, Put<T>, m, events[1..]);
      TextOf(e) in r && decode(e.item.blob.value) == Some(r[TextOf(e)])
  {
    var e, rest := events[0], events[1..];
    if d :| d in rest && IsFileVisit(d) && TextOf(d) == TextOf(e) {
      assert d in events && e in events;
    }
  }

  /** A map holds what the files of a kind below `ns` decode to, by their texts. */
  ghost predicate Holding<T(!new)>(decode: Decode<T>, root: Node, kind: string, ns: Path, m: map<string, T>) {
    && (forall p, blob | FileAt(root, kind, ns, p, blob) :: PathText(p) in m && decode(blob) == Some(m[PathText(p)]))
    && (forall k | k in m :: exists p, blob :: FileAt(root, kind, ns, p, blob) && PathText(p) == k)
  }

  lemma LoadedMapHolds<T(!new)>(decode: Decode<T>, root: Node, kind: string, ns: Path)
    requires ValidTree(root) && LoadTree(decode, Put<T>, map[], root, [kind] + ns).Some?
    ensures Holding(decode, root, kind, ns, LoadTree(decode, Put<T>, map[], root, [kind] + ns).value)
  {
    LoadTreeFolds(decode, Put<T>, map[], root, [kind] + ns);
    var events := Events(root, [kind] + ns);
    LoadedDirectory(decode, root, [kind] + ns);
    EventsAreUnambiguous(root, kind, ns);
    FoldedPut(decode, map[], events);
    var m := Folded(decode, Put<T>, map[], events);
    forall p, blob | FileAt(root, kind, ns, p, blob)
      ensures PathText(p) in m && decode(blob) == Some(m[PathText(p)])
    {
      var e := Visit(DirItem([kind] + p, Some(blob)));
      EventsAreFiles(root, kind, ns, e);
      assert Relative([kind] + p) == p;
    }
    forall k | k in m ensures exists p, blob :: FileAt(root, kind, ns, p, blob) && PathText(p) == k {
      var e :| e in events && IsFileVisit(e) && TextOf(e) == k;
      EventsAreFiles(root, kind, ns, e);
      var p :| FileAt(root, kind, ns, p, e.item.blob.value) && e.item.path == [kind] + p;
      assert Relative([kind] + p) == p;
    }
  }

  // The map of links, counted link by link

  ghost function Occurrences(m: LinkMap, key: string, x: IdxLinkItem): nat {
    if key in m then multiset(m[key])[x] else 0
  }

  /** How many items of a link are `x`. */
  ghost function Made(linkPath: string, link: Link, x: IdxLinkItem): nat
    requires LongPaths(link)
  {
    multiset(LinkItems(linkPath, link, link.reses))[x]
  }

  lemma {:induction false} LinkItemsCount(linkPath: string, link: Link, reses: seq<string>, x: IdxLinkItem)
    requires forall k | 0 <= k < |reses| :: |reses[k]| >= 6
    ensures multiset(LinkItems(linkPath, link, reses))[x]
         == if x.pri == link.pri && x.isNeg == link.isNeg && x.rulePath == link.rule && x.linkPath == linkPath
            then TimesNamed(reses, x.absResPath) else 0
  {
    if reses != [] {
      LinkItemsCount(linkPath, link, reses[1..], x);
    }
  }

  ghost function MadeByAll(events: seq<Event>, x: IdxLinkItem): nat
    requires AllLoadable(DecodeLink, events)
  {
    if events == [] then 0
    else
      (if events[0].item.IsDir() then 0
       else Made(TextOf(events[0]), DecodeLink(events[0].item.blob.value).value, x))
      + MadeByAll(events[1..], x)
  }

  /** Every link item is filed under the rule it names. */
  predicate Coherent(m: LinkMap) {
    forall k, x | k in m && x in m[k] :: |x.rulePath| >= 6 && RemovePathTypePrefix(x.rulePath) == k
  }

  lemma {:induction false} FoldedLinks(m: LinkMap, events: seq<Event>, x: IdxLinkItem)
    requires AllLoadable(DecodeLink, events)
    requires Coherent(m) && |x.rulePath| >= 6
    decreases |events|
    ensures var r, key := Folded(DecodeLink, AddLink, m, events), RemovePathTypePrefix(x.rulePath);
      Coherent(r) && Occurrences(r, key, x) == Occurrences(m, key, x) + MadeByAll(events, x)
  {
    if events != [] {
      var e := events[0];
      if e.item.IsDir() {
        FoldedLinks(m, events[1..], x);
      } else {
        var link := DecodeLink(e.item.blob.value).value;
        AddLinkCounts(m, TextOf(e), link, x);
        LinkItemsCount(TextOf(e), link, link.reses, x);
        FoldedLinks(AddLink(m, TextOf(e), link), events[1..], x);
      }
    }
  }

  lemma AddLinkCounts(m: LinkMap, linkPath: string, link: Link, x: IdxLinkItem)
    requires Coherent(m) && LongPaths(link) && |x.rulePath| >= 6
    ensures var r, key := AddLink(m, linkPath, link), RemovePathTypePrefix(x.rulePath);
      && Coherent(r)
      && Occurrences(r, key, x) == Occurrences(m, key, x)
         + if x.pri == link.pri && x.isNeg == link.isNeg && x.rulePath == link.rule && x.linkPath == linkPath
           then TimesNamed(link.reses, x.absResPath) else 0
  {
    var items := LinkItems(linkPath, link, link.reses);
    forall y | y in items ensures y.rulePath == link.rule {
      LinkItemsCount(linkPath, link, link.reses, y);
      assert multiset(items)[y] > 0;
    }
    LinkItemsCount(linkPath, link, link.reses, x);
  }

  lemma {:induction false} MadeByNone(events: seq<Event>, x: IdxLinkItem)
    requires AllLoadable(DecodeLink, events)
    requires forall e | e in events && IsFileVisit(e) :: TextOf(e) != x.linkPath
    ensures MadeByAll(events, x) == 0
  {
    if events != [] {
      MadeByNone(events[1..], x);
      var e := events[0];
      if !e.item.IsDir() {
        var link := DecodeLink(e.item.blob.value).value;
        LinkItemsCount(TextOf(e), link, link.reses, x);
      }
    }
  }

  /** With one file for each text, only the link file an item names can make it. */
  lemma FirstIsSole(events: seq<Event>)
    requires events != [] && forall e :: multiset(events)[e] <= 1
    ensures events[0] !in events[1..] && forall e :: multiset(events[1..])[e] <= 1
    ensures forall e :: e in events <==> e == events[0] || e in events[1..]
  {
    assert events == [events[0]] + events[1..];
    forall e ensures multiset(events)[e] == multiset(events[1..])[e] + if e == events[0] then 1 else 0 {}
    assert events[0] in events[1..] <==> multiset(events[1..])[events[0]] > 0;
  }

  lemma {:induction false} MadeByOne(events: seq<Event>, x: IdxLinkItem, e: Event)
    requires AllLoadable(DecodeLink, events)
    requires Unambiguous(events) && forall e :: multiset(events)[e] <= 1
    requires e in events && IsFileVisit(e) && TextOf(e) == x.linkPath
    ensures Loadable(DecodeLink, e)
    ensures MadeByAll(events, x) == Made(x.linkPath, DecodeLink(e.item.blob.value).value, x)
  {
    var e0, rest := events[0], events[1..];
    FirstIsSole(events);
    if e0 == e {
      MadeByNone(rest, x);
    } else {
      MadeByOne(rest, x, e);
      if !e0.item.IsDir() {
        var link := DecodeLink(e0.item.blob.value).value;
        LinkItemsCount(TextOf(e0), link, link.reses, x);
      }
    }
  }

  lemma LoadedLinksMade(root: Node, ns: Path, x: IdxLinkItem)
    requires ValidTree(root) && LoadTree(DecodeLink, AddLink, map[], root, [LINKS] + ns).Some?
    requires |x.rulePath| >= 6
    ensures var m := LoadTree(DecodeLink, AddLink, map[], root, [LINKS] + ns).value;
      var key := RemovePathTypePrefix(x.rulePath);
      && Coherent(m)
      && (forall p, blob | FileAt(root, LINKS, ns, p, blob) && PathText(p) == x.linkPath ::
            DecodeLink(blob).Some? && Occurrences(m, key, x) == Made(x.linkPath, DecodeLink(blob).value, x))
      && ((forall p, blob | FileAt(root, LINKS, ns, p, blob) :: PathText(p) != x.linkPath)
        ==> Occurrences(m, key, x) == 0)
  {
    LoadTreeFolds(DecodeLink, AddLink, map[], root, [LINKS] + ns);
    var events := Events(root, [LINKS] + ns);
    LoadedDirectory(DecodeLink, root, [LINKS] + ns);
    EventsAreUnambiguous(root, LINKS, ns);
    FoldedLinks(map[], events, x);
    forall p, blob | FileAt(root, LINKS, ns, p, blob) && PathText(p) == x.linkPath
      ensures DecodeLink(blob).Some? && MadeByAll(events, x) == Made(x.linkPath, DecodeLink(blob).value, x)
    {
      var e := Visit(DirItem([LINKS] + p, Some(blob)));
      EventsAreFiles(root, LINKS, ns, e);
      assert Relative([LINKS] + p) == p;
      MadeByOne(events, x, e);
    }
    if forall p, blob | FileAt(root, LINKS, ns, p, blob) :: PathText(p) != x.linkPath {
      forall e | e in events && IsFileVisit(e) ensures TextOf(e) != x.linkPath {
        EventsAreFiles(root, LINKS, ns, e);
        var p :| FileAt(root, LINKS, ns, p, e.item.blob.value) && e.item.path == [LINKS] + p;
        assert Relative([LINKS] + p) == p;
      }
      MadeByNone(events, x);
    }
  }

  lemma MadeIsTold(blob: Blob, spec: LinkSpec, x: IdxLinkItem)
    requires blob.link == Some(spec) && DecodeLink(blob).Some?
    ensures Made(x.linkPath, DecodeLink(blob).value, x)
         == if Matches(spec, x) then TimesNamed(spec.reses, x.absResPath) else 0
  {
    var link := DecodeLink(blob).value;
    LinkItemsCount(x.linkPath, link, link.reses, x);
  }

  /** Each link item is in the loaded map as often as the link file it names says:
      as often as the record lists its resource, if the record is otherwise its own. */
  lemma LoadedLinksCount(root: Node, ns: Path, key: string, x: IdxLinkItem)
    requires ValidTree(root) && LoadTree(DecodeLink, AddLink, map[], root, [LINKS] + ns).Some?
    requires NamesPath(x.rulePath, key)
    ensures var m := LoadTree(DecodeLink, AddLink, map[], root, [LINKS] + ns).value;
      && Coherent(m)
      && (forall p, spec | LinkFile(root, ns, p, spec) && PathText(p) == x.linkPath ::
            Occurrences(m, key, x) == if Matches(spec, x) then TimesNamed(spec.reses, x.absResPath) else 0)
      && (Occurrences(m, key, x) > 0 ==> exists p, spec :: LinkFile(root, ns, p, spec) && PathText(p) == x.linkPath)
  {
    LoadedLinksMade(root, ns, x);
    var m := LoadTree(DecodeLink, AddLink, map[], root, [LINKS] + ns).value;
    forall p, spec | LinkFile(root, ns, p, spec) && PathText(p) == x.linkPath
      ensures Occurrences(m, key, x) == if Matches(spec, x) then TimesNamed(spec.reses, x.absResPath) else 0
    {
      var blob :| FileAt(root, LINKS, ns, p, blob) && blob.link == Some(spec);
      MadeIsTold(blob, spec, x);
    }
    if Occurrences(m, key, x) > 0 {
      var p, blob :| FileAt(root, LINKS, ns, p, blob) && PathText(p) == x.linkPath;
      assert LinkFile(root, ns, p, blob.link.value);
    }
  }

  /** The directory is there, everything below it can be listed, and every file
      below it decodes. */
  ghost predicate Clean<T>(decode: Decode<T>, root: Node, kind: string, ns: Path) {
    && IsDirectory(root, [kind] + ns)
    && (forall p: Path | ns <= p :: Lookup(root, [kind] + p) != Some(Unreadable))
    && (forall p, blob | FileAt(root, kind, ns, p, blob) :: decode(blob).Some?)
  }

  /** A walk of a load succeeds exactly on a clean tree. */
  lemma LoadTreeSucceeds<S(!new), T>(decode: Decode<T>, add: Add<S, T>, init: S, root: Node, kind: string, ns: Path)
    requires ValidTree(root)
    ensures LoadTree(decode, add, init, root, [kind] + ns).Some? <==> Clean(decode, root, kind, ns)
  {
    LoadTreeFolds(decode, add, init, root, [kind] + ns);
    if AllLoadable(decode, Events(root, [kind] + ns)) {
      LoadableIsClean(decode, root, kind, ns);
    }
    if Clean(decode, root, kind, ns) {
      CleanIsLoadable(decode, root, kind, ns);
    }
  }

  lemma LoadableIsClean<T>(decode: Decode<T>, root: Node, kind: string, ns: Path)
    requires ValidTree(root) && AllLoadable(decode, Events(root, [kind] + ns))
    ensures Clean(decode, root, kind, ns)
  {
    var events := Events(root, [kind] + ns);
    LoadedDirectory(decode, root, [kind] + ns);
    forall p: Path | ns <= p ensures Lookup(root, [kind] + p) != Some(Unreadable) {
      UnreadableIsUnlisted(root, kind, ns, p);
      assert Unlisted([kind] + p) !in events;
    }
    forall p, blob | FileAt(root, kind, ns, p, blob) ensures decode(blob).Some? {
      var e := Visit(DirItem([kind] + p, Some(blob)));
      EventsAreFiles(root, kind, ns, e);
      assert Loadable(decode, e);
    }
  }

  lemma UnreadableIsUnlisted(root: Node, kind: string, ns: Path, p: Path)
    requires ValidTree(root) && IsDirectory(root, [kind] + ns) && ns <= p
    ensures Lookup(root, [kind] + p) == Some(Unreadable) ==> Unlisted([kind] + p) in Events(root, [kind] + ns)
  {
    var path, e := [kind] + ns, Unlisted([kind] + p);
    LookupIsValid(root, path);
    VisitsDescendants(path, Lookup(root, path).value, e);
    assert e.Where() == path + e.Where()[|path|..];
    LookupAppend(root, path, e.Where()[|path|..]);
  }

  lemma CleanIsLoadable<T>(decode: Decode<T>, root: Node, kind: string, ns: Path)
    requires ValidTree(root) && Clean(decode, root, kind, ns)
    ensures AllLoadable(decode, Events(root, [kind] + ns))
  {
    var path := [kind] + ns;
    LookupIsValid(root, path);
    forall k | 0 <= k < |Events(root, path)| ensures Loadable(decode, Events(root, path)[k]) {
      var e := Events(root, path)[k];
      assert e in Events(root, path);
      if e.Unlisted? {
        UnlistedIsUnreadable(root, kind, ns, e);
      } else if IsFileVisit(e) {
        EventsAreFiles(root, kind, ns, e);
      }
    }
  }

  lemma UnlistedIsUnreadable(root: Node, kind: string, ns: Path, e: Event)
    requires ValidTree(root) && IsDirectory(root, [kind] + ns) && e in Events(root, [kind] + ns)
    ensures e.Unlisted? ==> exists p: Path :: ns <= p && Lookup(root, [kind] + p) == Some(Unreadable)
  {
    var path, q := [kind] + ns, e.Where();
    LookupIsValid(root, path);
    VisitsDescendants(path, Lookup(root, path).value, e);
    PathUpTo(kind, ns, q);
    LookupAppend(root, path, q[|path|..]);
  }

  lemma PathUpTo(kind: string, ns: Path, q: Path)
    requires [kind] + ns <= q
    ensures q != [] && q == [kind] + q[1..] && ns <= q[1..] && q == [kind] + ns + q[|ns| + 1..]
  {
    if q == [kind] + ns {
      assert q[1..] == ns && q[|ns| + 1..] == [] && q + [] == q;
    } else {
      PathBelow(kind, ns, q);
    }
  }
}
