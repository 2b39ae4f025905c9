/**
 What the files of a version's tree say, in terms of the records they hold: no
 loader, index or answer is mentioned here. Rule, link and resource files lie in the
 directories `rules`, `links` and `reses`, and are named by their paths below these.
 */
module Files {
  import opened Common
  import opened RuleEngine
  import opened RuleGrammar
  import opened Model
  import opened Storage
  import opened IndexData

  /** A file of a kind, at `p` in the directory of the kind and below `ns`. */
  ghost predicate FileAt(root: Node, kind: string, ns: Path, p: Path, blob: Blob) {
    ns <= p && ns != p && Lookup(root, [kind] + p) == Some(File(blob))
  }

  ghost predicate RuleFile(root: Node, ns: Path, p: Path, text: string) {
    exists blob :: FileAt(root, "rules", ns, p, blob) && blob.ruleText == Some(text)
  }

  ghost predicate LinkFile(root: Node, ns: Path, p: Path, spec: LinkSpec) {
    exists blob :: FileAt(root, "links", ns, p, blob) && blob.link == Some(spec)
  }

  ghost predicate ResFile(root: Node, ns: Path, p: Path, items: seq<ResSpecItem>) {
    exists blob :: FileAt(root, "reses", ns, p, blob) && blob.res == Some(items)
  }

  /** A link names the file with the text `path` by six characters, `path:/`, and the text. */
  predicate NamesPath(name: string, path: string) { |name| == 6 + |path| && name[6..] == path }

  /** A name that starts with `path:/` names what follows, and nothing else. */
  lemma PrefixedNames(path: string, other: string)
    ensures NamesPath("path:/" + path, other) <==> other == path
  {
    assert ("path:/" + path)[6..] == path;
  }

  /** How many of the names are for the file. */
  function TimesNamed(names: seq<string>, path: string): nat {
    if names == [] then 0 else (if NamesPath(names[0], path) then 1 else 0) + TimesNamed(names[1..], path)
  }

  /** Below `ns` is the rule file that `rule` names, and its text is, by the grammar,
      a condition that holds for the client. */
  ghost predicate RuleHoldsIn(root: Node, ns: Path, whoami: MatchContext, rule: string) {
    exists p, text, c :: RuleFile(root, ns, p, text) && NamesPath(rule, PathText(p))
      && Derivable(text, c) && Holds(c, whoami)
  }

  /** How often a link with the record `spec` gives `x` to the client. */
  ghost function TimesGiven(root: Node, ns: Path, whoami: MatchContext, spec: LinkSpec, x: IdxLinkItem): nat {
    if Matches(spec, x) && RuleHoldsIn(root, ns, whoami, spec.rule) then TimesNamed(spec.reses, x.absResPath) else 0
  }

  predicate Matches(spec: LinkSpec, x: IdxLinkItem) {
    spec.pri == Finite(x.pri) && spec.isNeg == x.isNeg && spec.rule == x.rulePath
  }

  /** Item `i` is the first one with the key, and it is `kv`. */
  ghost predicate IsFirstItem(items: seq<ResSpecItem>, i: nat, key: string, kv: KeyValuePair) {
    && i < |items| && items[i].key == kv.key == key
    && items[i].contentType == kv.contentType && items[i].data == kv.value
    && forall j | 0 <= j < i :: items[j].key != key
  }

  /** How many of the items are `kv`. */
  function TimesHeld(items: seq<ResSpecItem>, kv: KeyValuePair): nat {
    if items == [] then 0
    else
      (if items[0].key == kv.key && items[0].contentType == kv.contentType && items[0].data == kv.value then 1 else 0)
      + TimesHeld(items[1..], kv)
  }

  // Which trees load

  /** The directory of a kind is there, and everything in it below `ns` can be listed. */
  ghost predicate CanBeListed(root: Node, kind: string, ns: Path) {
    && Lookup(root, [kind] + ns).Some? && !Lookup(root, [kind] + ns).value.File?
    && forall p: Path | ns <= p :: Lookup(root, [kind] + p) != Some(Unreadable)
  }

  /** The file holds a text of the grammar. */
  ghost predicate GoodRule(blob: Blob) { blob.ruleText.Some? && exists c :: Derivable(blob.ruleText.value, c) }

  /** The file holds a link of finite priority, and its names are long enough. */
  predicate GoodLink(blob: Blob) {
    match blob.link
    case Some(LinkSpec(Finite(_), _, rule, reses)) => |rule| >= 6 && forall k | 0 <= k < |reses| :: |reses[k]| >= 6
    case _ => false
  }

  predicate GoodRes(blob: Blob) { blob.res.Some? }

  /** Everything that an index of the namespace is loaded from is there and good. */
  ghost predicate IsLoadable(root: Node, ns: Path) {
    && CanBeListed(root, "rules", ns) && CanBeListed(root, "links", ns) && CanBeListed(root, "reses", ns)
    && (forall p, blob | FileAt(root, "rules", ns, p, blob) :: GoodRule(blob))
    && (forall p, blob | FileAt(root, "links", ns, p, blob) :: GoodLink(blob))
    && (forall p, blob | FileAt(root, "reses", ns, p, blob) :: GoodRes(blob))
  }
}
