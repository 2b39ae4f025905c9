# A verified model of eafcc

eafcc is a configuration centre. A version of the configuration is a tree of
files. *Rule* files hold boolean conditions over a client's labels; *link* files
attach *resource* files to a rule, with a priority and a sign; a query overlays
the resources of the rules that hold. Namespaces are loaded into memory, and a
watcher swaps in a new index for each new version.

The project models this in Dafny and proves what it promises:

- **Rule language.** The backtracking parser reads a text as a condition if and
  only if the grammar derives it so; the grammar is unambiguous, a text having at
  most one derivation; the conditions that texts can denote are exactly the shaped
  ones; printing and parsing round trip under any spacing; the minimal printing has
  the fewest parentheses and loses nothing that evaluation can show; and the parser
  enters an operand at most once per character, and once more.
- **From files to answers.** The stack walk of a version's tree, the load of an
  index and the querier's sort and search, down to statements of what a query in
  either view answers, told from the files alone.
- **Updates.** All interleavings of creating, updating and querying namespaces:
  stores are loads, mapped namespaces are current when the mutexes are free,
  callbacks see both sides, calls come to an end, and the protocol stands still
  exactly in the embrace of a creator and the updater, which does happen.
- **Around them.** The git watcher; the Go binding's cache, with the exact conditions
  under which it changes no answer; the label text parser.

Each file holds one module. `RuleEngine`, `RuleLexer`, `RuleParser`, `RuleGrammar`,
`RuleUnique`, `RulePrinter`, `RuleParens` and `RuleBacktracking` are the rule language;
`Model`, `Storage`, `TreeWalk`, `WalkOrder`, `WalkSkips`, `IndexData`, `Files`,
`CfgIndex`, `Querier`, `Overlay`, `LinkedOrder`, `Refinement` and `EndToEnd` go from
files to answers, `Files` with the words in which the results are told; `Stores`,
`MemStore`, `CfgCenter`, `UpdateProtocol`, `UpdateResults`, `UpdateBackend` and
`UpdateAlone` are about updates; `LruCache`, `GoCache`, `GoNamespace` and `GoSafety`
are the Go binding; `GitWatcher` and `WhoAmI` stand for themselves.
`dafny verify dfyconfig.toml` checks them all.

## Where the code is not what it seems

The model follows the code in these places, and the lemmas named say so.

- The literal `""` denotes its two quote characters (src/parser/rule.rs:152), so no
  text denotes a comparison with the empty string: `RulePrinter.ParseableIsShaped`
  gives the exact set of conditions that texts denote, and
  `RulePrinter.EmptyLiteralDenotesQuotes` the concrete text.
- The priority table at src/parser/rule.rs:17-22 lists comparisons that are not
  implemented; only `==` is, and `!` takes a leaf or a parenthesis, so `!!x` is no text.
- The sort's comparator is not an order (src/cfg_center/querier.rs:63-77). `SortLinks`
  uses it as it stands, through "is it `Less`?" only.
- `create_namespace_scoped_cfg_center` and `update_callback` take the two mutexes in
  opposite orders. There is no freedom from deadlock to prove:
  `UpdateResults.EmbraceIsReachable` runs into it, `UpdateResults.StuckIsEmbrace` shows
  that it is the only standstill, and `UpdateResults.EmbraceIsForever` that it lasts.
- Creating a namespace again replaces its handle in the map
  (src/cfg_center/cfg_center.rs:82). The client who holds the first handle is not told:
  no update reaches it any more (`UpdateResults.ReplacedIsDetached`,
  `UpdateResults.DetachedForever`).
- Only two notify levels ever swap a store; the comments at
  src/cfg_center/cfg_center.rs:27-38 promise more (`Stores.ReloadIs`). One of the two
  never does on the git backend, whose difference lists are always empty
  (src/storage_backends/git/mod.rs:146-148): `UpdateResults.NoChangesNoSwaps`.
- The Go binding's cached query does not always give what the uncached one gives.
  A request that repeats an uncached key with values gets these values as often, and
  caches them so (`GoCache.DoubledSpoils`); and it reads the cache again after filling
  it, so a key that found no room there is silently missing (`LruCache.OneEntryLoses`).
  `GoNamespace.Namespace.GetCfg` gives the exact condition for each, with no demand on
  the request: all keys are served iff the cache has room for those with values, and
  the result is the uncached one iff moreover every key with values is cached or asked
  once. `GoSafety.SafeIffDistinctAndFitting` is what a caller can check: whatever the
  library answers and whatever a right cache holds, the result is the uncached one iff
  the keys are distinct and the cache has room for all of them.
- A branch that is missing on the remote makes the watcher's thread panic once a fetch
  succeeds (src/storage_backends/git/mod.rs:267): `GitWatcher.GitBackend.Watch` says
  what was delivered until then.

## How the source's forms are kept

Mutable objects are classes: `CFGIndex`, `NamespaceScopedCFGCenter`, `CFGCenter`,
`GitBackend`, `Lru`, `Namespace`. Loops are loops: the stack walk, the in-place
sort and searches, the update over all namespaces, the watcher's rounds, the cache's
reads and fills, the label lines. Each is proved against a function or relation whose
own properties are lemmas. The parser, the evaluator and the grammar are functions.

A callback of `walk_dir` is a function from its state and an item to its new state and
answer. The user's update callback is represented by the record of what it is given.
Iterating a hash map picks its keys in any order. Priorities are `real`; a number that
is not finite is `NotFinite`. The state machine of `UpdateProtocol` uses the same
`Stores.Reload` as the class `CfgCenter.CFGCenter`, and `UpdateAlone` shows that its
runs without interleaving do what the methods of that class do. Between two updates
the maps of an index stay as they are, so the Go binding's `Library` fixes the order in
which they list a client's links.

## Model

| member | source | states |
|---|---|---|
| RuleEngine.EvalDecides | src/rule_engine/mod.rs:28-51 | the short-circuiting evaluator gives exactly what the condition says, with quantifiers instead of an order, whenever leaves have right-hand sides |
| RuleEngine.EvalAndDecides | src/rule_engine/mod.rs:30-37 | the `And` loop answers true iff all children hold |
| RuleEngine.EvalOrDecides | src/rule_engine/mod.rs:38-45 | the `Or` loop answers true iff some child holds |
| RuleEngine.FlattenKeepsEval | src/rule_engine/mod.rs:28-51 | flattening nested operators changes no evaluation under any labels, not even a panic |
| RuleEngine.FlattenFixesFlat | src/rule_engine/mod.rs:9-18 | flattening is the identity on exactly the trees without an operator directly below itself |
| RuleLexer.IdentifierReads | src/parser/rule.rs:38-43 | every valid identifier is read whole, up to the first character that cannot continue it |
| RuleLexer.IdentifierSound | src/parser/rule.rs:38-43 | whatever is read as an identifier is one, and is a prefix of the input |
| RuleLexer.LiteralReads | src/parser/rule.rs:57-67 | every literal (items between quotes, or `""`) is read back as the string it denotes, whatever follows |
| RuleLexer.LiteralSound | src/parser/rule.rs:149-189 | whatever is read as a literal is one, with the value its items denote; other escapes and controls are refused |
| RuleLexer.EscapeString | src/parser/rule.rs:160-189 | every string has an escaped form that denotes it |
| RuleLexer.CharacterClasses | src/parser/rule.rs:38-54 | which characters are spaces, start or continue an identifier, and stand for themselves in a literal |
| RuleLexer.ShortEscapes | src/parser/rule.rs:164-179 | the one-letter escapes and the code each denotes |
| RuleLexer.HexEscapes | src/parser/rule.rs:181-189 | four hexadecimal digits of either case denote the character of their value, the first digit counting most; surrogates denote none |
| RuleLexer.OnlyHexDigits | src/parser/rule.rs:186 | no other character is a hexadecimal digit |
| RuleGrammar.WsTagReads | src/parser/rule.rs:47-54 | a tag is read with all the spaces around it |
| RuleGrammar.WsTagSound | src/parser/rule.rs:47-54 | a tag that was read stands in the input between spaces, and no space is left |
| RuleGrammar.LeafReads | src/parser/rule.rs:70-84 | every leaf of the grammar is read back, under any spaces |
| RuleGrammar.LeafSound | src/parser/rule.rs:70-84 | whatever is read as a leaf is one |
| RuleGrammar.AtomReads | src/parser/rule.rs:86-91 | every leaf or parenthesis is read back as its tree |
| RuleGrammar.AtomSound | src/parser/rule.rs:86-91 | whatever is read there is a leaf or a parenthesised expression |
| RuleGrammar.NotReads | src/parser/rule.rs:94-99 | `!` binds to the leaf or parenthesis after it |
| RuleGrammar.NotSound | src/parser/rule.rs:94-99 | whatever is read there is an operand, with at most one `!` |
| RuleGrammar.AndReads | src/parser/rule.rs:101-116 | chains of `&&` are read whole; one operand stays itself, more give an `And` |
| RuleGrammar.AndSound | src/parser/rule.rs:101-116 | whatever is read there is such a chain |
| RuleGrammar.OrReads | src/parser/rule.rs:118-133 | chains of `\|\|` over `&&` chains are read whole, up to anything that cannot continue them |
| RuleGrammar.OrSound | src/parser/rule.rs:118-133 | whatever is read as an expression is a phrase of the grammar, followed by the remainder |
| RuleGrammar.ParserIsGrammar | src/model/rule.rs:37-46 | a whole text is accepted as a condition if and only if the grammar of the priority table derives it so |
| RuleUnique.DerivationIsUnique | src/parser/rule.rs:17-22 | no text has two derivations: spaces, literal items and all phrases are determined by the text |
| RuleUnique.GrammarIsUnambiguous | src/parser/rule.rs:17-22 | and so no text has derivations with different conditions |
| RulePrinter.ExactRoundTrip | src/parser/rule.rs:38-189 | printing any shaped condition with any spaces between tokens and parsing it gives that condition |
| RulePrinter.MinimalRoundTrip | src/parser/rule.rs:94-133 | printing with only the parentheses that the priorities need is read back as a tree that evaluates alike; as the same tree iff it is flat |
| RuleParens.MinimalIsMinimal | src/parser/rule.rs:86-133 | no text of the grammar for the condition, or for one that is the same when flattened, has fewer parentheses than that print |
| RulePrinter.ParseableIsShaped | src/parser/rule.rs:101-154 | some text denotes a condition iff it is shaped: operators with two operands or more, valid identifiers, non-empty strings |
| RulePrinter.ParsedRulesEvaluate | src/rule_engine/mod.rs:53-83 | a rule that was parsed evaluates without the panic, to what it says |
| RulePrinter.EmptyLiteralDenotesQuotes | src/parser/rule.rs:152 | the text of a comparison with `""` denotes a comparison with two quote characters |
| RuleBacktracking.CountOr | src/parser/rule.rs:86-133 | the parser with a counter reads every text as the parser does |
| RuleBacktracking.CounterCounts | src/parser/rule.rs:86-133 | the counter says how many calls of `leaf_expr_or_paren` the run comes to, by which parser runs which on what, alternatives that fail included |
| RuleBacktracking.LinearBacktracking | src/parser/rule.rs:86-133 | on every text of length n, accepted or not, that parser enters `leaf_expr_or_paren` at most n+1 times |
| RuleBacktracking.BoundIsMet | src/parser/rule.rs:86-133 | for every n some text of length n needs n+1 entries |
| Storage.PathTextInjective | src/cfg_center/cfgindex.rs:38-39 | two file paths of valid names with the same text are the same path |
| Storage.PathTextSnoc | src/cfg_center/cfgindex.rs:38-39 | the text of a path is its names with a slash between each two |
| TreeWalk.WalkDir | src/storage_backends/mod.rs:67-92 | the stack loop ends, in the state and with the success of the walk by recursion on the tree, for every callback |
| TreeWalk.VisitEntries | src/storage_backends/mod.rs:76-89 | the inner loop runs the callback over one listing and pushes the directories to enter, in order |
| WalkOrder.WalkIsRun | src/storage_backends/mod.rs:75-91 | for a callback that skips by the item alone, as every loader does, a walk is the callback run along an order that depends on the tree and the skipped directories only |
| WalkSkips.EveryWalkIsRun | src/storage_backends/mod.rs:75-91 | a walk of any callback, whatever its skipping depends on, is the callback run along the order for a set of items, and these are the items it asks to skip on the way |
| WalkOrder.RunIsPrefix | src/storage_backends/mod.rs:77-88 | a walk that is stopped or fails has seen an exact prefix of the order, ending where the callback or a listing said so; any other has seen all |
| WalkOrder.VisitsDescendants | src/storage_backends/mod.rs:75-91 | without skipping, exactly the descendants are visited, with their contents |
| WalkOrder.VisitsOnce | src/storage_backends/mod.rs:75-91 | nothing is visited twice |
| WalkOrder.VisitsParentsFirst | src/storage_backends/mod.rs:81-85 | a directory is visited before what is in it |
| WalkOrder.VisitsInOrder | src/storage_backends/mod.rs:72-90 | a directory's entries are visited first, in the order of its listing, and then what lies below them, the last entry's first |
| WalkOrder.SkippingRemovesSubtrees | src/storage_backends/mod.rs:80 | skipping leaves the order as it is, without what lies below a skipped directory |
| CfgIndex.CFGIndex.LoadRules | src/cfg_center/cfgindex.rs:27-45 | walks the rule files into the rule map; fails when the walk fails |
| CfgIndex.CFGIndex.LoadLinks | src/cfg_center/cfgindex.rs:47-65 | walks the link files into the map of links by rule; what that map holds is `CfgIndex.LoadedLinksCount`, and when the walk succeeds `Refinement.LoadsIffGood` |
| CfgIndex.CFGIndex.LoadReses | src/cfg_center/cfgindex.rs:67-85 | walks the resource files into the resource map |
| CfgIndex.Load | src/cfg_center/cfgindex.rs:87-98 | an absolute namespace loads to its three maps iff all three walks succeed |
| CfgIndex.NamespaceText | src/cfg_center/cfgindex.rs:33 | the text of a namespace leads back to the names of its directories |
| CfgIndex.PathTextComponents | src/cfg_center/cfgindex.rs:33 | so does the text of a path below a kind |
| CfgIndex.OnlyAbsolute | src/cfg_center/cfgindex.rs:33 | a namespace must start with a slash |
| CfgIndex.LoadTreeSucceeds | src/cfg_center/cfgindex.rs:34-42 | a walk of a load succeeds iff the directory is there, everything below can be listed and every file below decodes |
| CfgIndex.LoadedMapHolds | src/cfg_center/cfgindex.rs:118-130 | a loaded map holds exactly the files of its kind below the namespace, by their texts, with what they decode to |
| CfgIndex.AddLinkCounts | src/cfg_center/cfgindex.rs:159-188 | adding a link adds an item as often as the link names its resource, if priority, sign, rule and link path are the link's, and nothing else |
| CfgIndex.LoadedLinksCount | src/cfg_center/cfgindex.rs:159-188 | each link item is in the loaded map as often as the record of the link file it names lists its resource, if the record has the item's priority, sign and rule, and otherwise not at all |
| Files.PrefixedNames | src/cfg_center/cfgindex.rs:248-251 | a name that starts with `path:/` names the file with the text that follows, and no other |
| Querier.CompareIsConsistent | src/cfg_center/querier.rs:63-77 | the comparator answers `Less` only where the first may precede and `Greater` only where the second may, and is symmetric exactly on ties of priority and sign |
| Querier.SortLinks | src/cfg_center/querier.rs:63-77 | sorting in place with the comparator as coded gives a permutation ordered by priority descending, negative links first |
| Querier.FirstHitIs | src/cfg_center/querier.rs:83-97 | what the search of a resource finds is the first item with the key |
| Querier.FetchResByOverlaidView | src/cfg_center/querier.rs:55-104 | the labelled loops give, in request order and with repeats, the first match of each key in the sorted links, suppressed by a negative link; which item that is, `Querier.FirstHitIs` and `Overlay.SortedPickIsOverlay` say |
| Querier.FetchResByAllLinkedResView | src/cfg_center/querier.rs:106-145 | gives every match of each key in every link |
| LinkedOrder.AllLinkedInOrder | src/cfg_center/querier.rs:113-141 | these are in the order of the requested keys, under each in that of the links, and under each link in that of the resource's items |
| Querier.ActiveLinks | src/cfg_center/querier.rs:27-41 | gathers the links of the rules that hold, each as often as it is filed, in any order |
| Querier.Get | src/cfg_center/querier.rs:20-52 | every result is an answer for the links of the rules that hold |
| Overlay.SortedPickIsOverlay | src/cfg_center/querier.rs:79-102 | sort and search show nothing if no link carries the key or a negative carrier is at the highest priority, and otherwise the item with the least index among those with the key in the resource of a positive carrier there |
| Overlay.OverlayIsOrderFree | src/cfg_center/querier.rs:63-102 | for any two orders of the links a key is shown in both or in neither, at the same priority, and with the same value where one positive link decides |
| Overlay.QueriesAgree | src/cfg_center/querier.rs:20-52 | the same for any two runs of a whole query on one index, with explanations or without |
| Overlay.Layering | src/cfg_center/querier.rs:63-102 | when all of one set of links outranks all of another, their union shows the first's outcome for the keys it carries and the second's for the others |
| Overlay.LayeredPick | src/cfg_center/querier.rs:63-102 | the same of the computed answer: sorting the union and taking its first match gives the value, or the suppression, of the layer that carries the key, equal where one positive link decides |
| Overlay.OverlaidIsLinked | src/cfg_center/querier.rs:116-140 | everything the overlaid view shows is in the view of all linked resources |
| Overlay.ReasonsOnlyAdd | src/cfg_center/querier.rs:86-95 | asking for explanations changes nothing but the explanations |
| Refinement.LoadedIsReady | src/cfg_center/cfgindex.rs:87-98 | a loaded index has rules that evaluate and links filed by their rules |
| Refinement.ActiveLinksAreDeclared | src/cfg_center/querier.rs:27-41 | the links in a query are, with multiplicity, exactly the entries of the link files: a record gives an item as often as it lists the resource, if priority, sign and rule are the record's and the rule file so named is there and its text, by the grammar, holds for the client |
| Refinement.LoadsIffGood | src/cfg_center/cfgindex.rs:27-98 | an index loads iff its three directories are there, everything below can be listed, every rule file holds a text of the grammar, every link file a record of finite priority with names of six characters or more, and every resource file a resource |
| Refinement.NamespaceRestricts | src/cfg_center/cfgindex.rs:27-85 | a namespace's rules and resources are those of an enclosing one below it, its links those whose link file lies below it, filed as often, and its all-linked answer is a sub-multiset of the enclosing one's |
| EndToEnd.OverlaidFromFiles | src/cfg_center/querier.rs:20-104 | every overlaid answer, with explanations or without, consists, key by key, of what the records in the files of the version say: no loader, index, order or sort is mentioned |
| EndToEnd.AllLinkedFromFiles | src/cfg_center/querier.rs:106-145 | the all-linked answer has an item through a link as often as the request has the key, times how often the active link file's record lists the resource, times how often the resource file has the item |
| EndToEnd.AllLinkedAgree | src/cfg_center/querier.rs:106-145 | any two all-linked answers to one query are equal as multisets |
| EndToEnd.LinkedWithoutReasons | src/cfg_center/querier.rs:106-145 | without explanations the all-linked answer has the same values in the same order |
| EndToEnd.CarriersAreFileCarriers | src/cfg_center/cfgindex.rs:159-221 | the links of a query that carry a key are the pairs of an active link file's record and a resource file with the key |
| MemStore.NewMemStorage | src/cfg_center/mem_store.rs:13-18 | a store pairs a version with the index loaded from it, which `MemStore.StoreOfNamespace` tells |
| MemStore.StoreOfNamespace | src/cfg_center/mem_store.rs:13-18 | a namespace has a store at a version iff the version is there and its tree's files below the namespace's directories are there and good, and the index is the one loaded from just these |
| MemStore.StoresAreReady | src/cfg_center/mem_store.rs:13-18 | every store can be queried |
| Stores.ReloadIs | src/cfg_center/cfg_center.rs:98-146 | an update puts a store in place iff the new version loads to it and the level is `ByGlobal`, or it is `InNamespace` and the difference list is there and names a file |
| CfgCenter.Differ.GetFromOld | src/cfg_center/differ.rs:35-43 | answers from the store before the update |
| CfgCenter.Differ.GetFromNew | src/cfg_center/differ.rs:45-53 | answers from the store after the update |
| CfgCenter.NamespaceScopedCFGCenter.GetCfg | src/cfg_center/namespace.rs:55-64 | answers from the current store |
| CfgCenter.NamespaceScopedCFGCenter.UpdateCallback | src/cfg_center/namespace.rs:66-94 | gives the callback both stores before the swap, at the one level that has callbacks, then swaps; never at `NoNotify` |
| CfgCenter.CFGCenter.GetNamespaceScopedCfgCenter | src/cfg_center/cfg_center.rs:42-54 | gives the handle that is mapped to the name, if there is one |
| CfgCenter.CFGCenter.CreateNamespaceScopedCfgCenter | src/cfg_center/cfg_center.rs:56-84 | creates and maps a namespace at the current version iff its name starts and ends with a slash and it loads; otherwise changes nothing |
| CfgCenter.CFGCenter.UpdateOne | src/cfg_center/cfg_center.rs:98-146 | one namespace's share of an update, by notify level and difference list |
| CfgCenter.CFGCenter.UpdateCallback | src/cfg_center/cfg_center.rs:86-149 | every mapped namespace gets its share, and the current version moves |
| UpdateProtocol.StepKeepsInv | src/cfg_center/cfg_center.rs:56-149 | every lock step, load, callback, swap and query keeps the invariant on locks, handles, namespaces and creators |
| UpdateProtocol.ReachableInv | src/cfg_center/cfg_center.rs:56-149 | the invariant holds in every reachable state |
| UpdateResults.StoresAreLoads | src/cfg_center/namespace.rs:66-94 | at all times, for every notify level, a handle's store is the load of its namespace at the store's own version and the last one it was given, and the stores it was given are those its level calls for at a run of the delivered versions, in order |
| UpdateResults.TwoLevelsNeverSwap | src/cfg_center/cfg_center.rs:128-146 | in no interleaving does a `NoNotify` or `NotifyWithMaybeChangedKeys` handle leave its first store or call back |
| UpdateBackend.HandlesCanBeQueried | src/cfg_center/mem_store.rs:13-18 | every store that a reachable handle serves can be queried |
| UpdateBackend.HandlesAnswerFromFiles | src/cfg_center/namespace.rs:55-64 | in every reachable state of the protocol, what a handle answers in the overlaid view is, key by key, what the files below its namespace say, in the tree of its store's version |
| UpdateBackend.HandlesAnswerAllFromFiles | src/cfg_center/namespace.rs:55-64 | the same for the view of all linked resources |
| UpdateResults.NamespacesKeepUp | src/cfg_center/cfg_center.rs:66-148 | when both mutexes are free every mapped namespace, of any level, was given just the stores that its level and the difference lists call for since its creation |
| UpdateResults.NamespacesAreCurrent | src/cfg_center/cfg_center.rs:66-148 | when both mutexes are free every mapped `ByGlobal` namespace has had every delivered version that loads since its creation, and serves the current one if it loads |
| UpdateResults.NamespacesFollowChanges | src/cfg_center/cfg_center.rs:111-127 | an `InNamespace` handle was given, in order, the loads at just those versions that load and whose difference list from the version before names a file, up to some version since its creation, and up to the current one when it is mapped and both mutexes are free |
| UpdateResults.NoChangesNoSwaps | src/cfg_center/cfg_center.rs:111-127 | where no difference list ever names a file, such a handle keeps its first store for ever |
| UpdateBackend.BackendNamespacesAreCurrent | src/cfg_center/cfg_center.rs:100-109 | the same for the stores of a backend's trees |
| UpdateResults.StuckIsEmbrace | src/cfg_center/cfg_center.rs:66-95 | a reachable state has work pending and no step to take iff a creator holds `current_version` and waits for `namespaces` while the updater holds `namespaces` and waits for `current_version` |
| UpdateResults.ProgressSettles | src/cfg_center/cfg_center.rs:66-148 | calls that were made get on for a bounded number of steps in any order, and when they can no more all have returned or the last two embrace |
| UpdateResults.EmbraceIsReachable | src/cfg_center/cfg_center.rs:66-95 | a run into that state, for every namespace that loads |
| UpdateResults.EmbraceIsForever | src/cfg_center/cfg_center.rs:66-95 | no run leads out of it |
| UpdateResults.ReplacedIsDetached | src/cfg_center/cfg_center.rs:78-83 | mapping a namespace to a new handle leaves the one it was mapped to without any namespace or call that refers to it |
| UpdateResults.DetachedForever | src/cfg_center/cfg_center.rs:86-149 | in no run does anything but queries of its store happen to such a handle |
| UpdateResults.CallbacksSeeBothSides | src/cfg_center/namespace.rs:55-94 | in every interleaving a query sees the store in place, a callback's old side is the store in place, and the next swap puts in place its new side, with only queries between |
| UpdateResults.CallbacksChain | src/cfg_center/namespace.rs:66-94 | the new side of one callback is the old side of the next |
| UpdateAlone.UpdateComesTo | src/cfg_center/cfg_center.rs:86-149 | in whatever order an update visits the namespaces, it comes to each mapped handle having its share and no other changed |
| UpdateAlone.UpdateReturns | src/cfg_center/cfg_center.rs:86-149 | while nobody creates, an update that began does return |
| UpdateAlone.UpdateShares | src/cfg_center/cfg_center.rs:98-148 | a run of one update alone gives every mapped namespace the store and the callbacks that the class method gives it |
| UpdateAlone.CreateComesTo | src/cfg_center/cfg_center.rs:56-84 | a run of one creator alone maps a handle with the current version's load iff the name is valid and it loads |
| UpdateAlone.UpdateCallbackMirrors | src/cfg_center/cfg_center.rs:86-149 | the method leaves the centre's object in the state that every such run leaves the machine in |
| UpdateAlone.CreateMirrors | src/cfg_center/cfg_center.rs:56-84 | so does creating a namespace |
| GitWatcher.GitBackend.SyncLocalBranch | src/storage_backends/git/mod.rs:192-291 | the local branch moves iff every operation succeeds and the listed head differs from the current version, and then to that head; it panics iff the branch is not listed and the fetch succeeds |
| GitWatcher.HeadNamedIs | src/storage_backends/git/mod.rs:231-245 | the head that counts is the first listed one with exactly the branch's name |
| GitWatcher.CompleteHeadIs | src/storage_backends/git/mod.rs:222-277 | a round is complete with a head iff it is that one, its commit is there, and every operation succeeds |
| GitWatcher.PanicsIs | src/storage_backends/git/mod.rs:233-267 | a round panics iff the remote can be listed, none of its heads is the branch's, and the fetch succeeds |
| GitWatcher.GitBackend.Open | src/storage_backends/git/mod.rs:24-54 | opening succeeds iff the first sync does and the branch can be read back with a UTF-8 message, and leaves branch and current version at one commit |
| GitWatcher.GitBackend.Watch | src/storage_backends/git/mod.rs:171-187 | after any rounds the local branch, the backend and the centre are at one commit, the last delivered one; what is delivered are the moves of the rounds before one that panics |
| GitWatcher.MovesAreChanges | src/storage_backends/git/mod.rs:231-287 | what is delivered are the heads that complete rounds saw, each change once; failed rounds only delay |
| GitWatcher.DeliveriesChange | src/storage_backends/git/mod.rs:238-240 | consecutive events never have the same id |
| LruCache.AddedKeeps | bindings/go/eafcc.go:213-217 | adding to the least-recently-used cache loses none of the entries near the front while the limit allows |
| LruCache.OneEntryLoses | bindings/go/eafcc.go:213-224 | with a limit of one, of two keys added the first is lost |
| GoCache.CacheKeyInjective | bindings/go/eafcc.go:227-244 | what is digested for a cache key determines the labels' digest, the key, the view and the explain flag |
| GoCache.AnswersDecompose | src/cfg_center/querier.rs:79-102 | the querier's answer to several keys is its answers to each, in order |
| GoCache.LibraryAnswers | src/cfg_center/querier.rs:20-52 | what the binding takes for a key is an answer of the querier to that key |
| GoCache.ConvertedIs | bindings/go/eafcc.go:322-339 | converting keeps each result's key, content type, value and explanation |
| GoCache.AnswerFields | bindings/go/eafcc.go:246-259 | what the binding takes for a key has, one for one, the fields of an answer of the querier |
| GoCache.AnswersAreKeyed | src/cfg_center/querier.rs:86-130 | every value answered for a key carries that key, in both views |
| GoCache.ConvertGetCFGOutput | bindings/go/eafcc.go:313-344 | groups values by key, keeping their order |
| GoCache.GroupedFields | bindings/go/eafcc.go:313-344 | the groups are, key by key, the fields of just the results that carry the key, in their order |
| GoCache.GroupedRaw | bindings/go/eafcc.go:313-344 | for any request, grouping gives each key its answer as many times over as the request has the key |
| GoCache.GroupsRightIff | bindings/go/eafcc.go:313-344 | every requested key gets its own answer iff no key with values is asked twice |
| GoCache.SafeIffDistinct | bindings/go/eafcc.go:246-259 | grouping the answers to a request gives every key its own, whatever the answers, iff the keys are distinct |
| GoCache.DoubledSpoils | bindings/go/eafcc.go:213-217 | caching an answer some times over that is not empty makes the cache wrong |
| GoNamespace.Namespace.BatchReadFromCache | bindings/go/eafcc.go:180-196 | gives the cached values and the missing keys with their repeats, and moves the hits to the front |
| GoNamespace.Namespace.GetCfgRawNoCache | bindings/go/eafcc.go:246-259 | for any request, each key's answer as often as it is asked, where that is not empty, with the fields of the querier's results that carry the key; refuses an empty request |
| GoNamespace.Namespace.Fill | bindings/go/eafcc.go:213-217 | in any order of the map, what is found afterwards was added or was there, and hits and additions stay if there is room for both |
| GoNamespace.Namespace.GetCfg | bindings/go/eafcc.go:198-225 | for any request and any limit: what each key is served; all keys are served iff the cache has room for those with values; a cache that was right stays right iff what is served is right; and the result is the uncached one iff there is room and every key with values is cached or asked once |
| GoNamespace.UncachedIff | bindings/go/eafcc.go:219-224 | what is served equals the uncached answer iff all keys are served and none with values that is not cached is asked twice |
| GoSafety.SafeIffDistinctAndFitting | bindings/go/eafcc.go:198-225 | the cached query is the uncached one for every library and every right cache iff the keys are distinct and all fit |
| WhoAmI.NewWhoAmI | src/ffi.rs:120-130 | the labels are, for each name, the value in the last line that has it; lines without `=` have no effect |
| WhoAmI.TrimDrops | src/ffi.rs:125 | trimming drops white space at both ends, and all of it |
| WhoAmI.WhiteSpace | src/ffi.rs:125 | white space is just Unicode's |
| WhoAmI.LabelIs | src/ffi.rs:124-126 | a line has a label iff it has an equals sign, and the first one parts name and value |
| WhoAmI.LinesSplit | src/ffi.rs:123 | the lines are the parts of the text between line breaks |
| WhoAmI.RoundTrip | src/ffi.rs:120-130 | printable labels, printed in any order, are read back as they were |
| WhoAmI.ParseableIsPrintable | src/ffi.rs:120-130 | some C string denotes a set of labels iff keys and values are trimmed, keys have no `=` or line break, values no line break, and neither a NUL character |

## Left out

- GoNamespace.Namespace.GetCfg: covers the time between two updates, because a refill that races with an update can be stale.
- CfgIndex.CFGIndex.LoadLinks: the panic on a link path shorter than six characters is modelled as a load that fails, and the six bytes cut off are taken as six characters.
- UpdateResults.NamespacesAreCurrent: a version whose load panics on a short link path counts as one that does not load; in the source that panic ends the updater while it holds both mutexes.
- UpdateResults.StuckIsEmbrace: leaves out the standstill after such a panic, of an updater or of a creator.
- CfgIndex.NamespaceText: covers names without slashes; a namespace with an empty, `.` or `..` component is read as text here, while path joining in the source treats some of them specially.
- WalkOrder.WalkIsRun: covers callbacks that decide what to skip by the item alone; `WalkSkips.EveryWalkIsRun` covers all callbacks.
- GitWatcher.GitBackend.Open: takes commit ids to be non-empty, as libgit2's are; a panic is reported as such, not what becomes of the process.
- The git backend's own `walk_dir`, which goes on after a callback's error; loads here use the default walk.
- FFI pointers, C strings, boxing and the last-error store: foreign memory.
- libgit2, the network, file reads, polling and timers: only their success, failure and ids appear.
- JSON decoding: files are represented by what each loader decodes from them. `tags`, `desc`, `ver`, `kind` and `schema` play no part.
- The escapes that the rule lexer lets through follow the published behaviour of the `unescape` crate, whose source is not part of this model.
- The standard library's sort algorithm, whose contract the comparator does not meet: the sort here is an insertion sort with the same comparator.
- Rounding of 32-bit priorities: priorities are real numbers.
- Collisions of the digests in the Go binding.
- Lock poisoning, callbacks that call back into the centre, and the reader lock of a store, which never blocks for long.
- `get_namespace_scoped_cfg_center` as a step of the protocol: it takes one mutex and changes nothing.
- The P2P demo, the filesystem backend's watcher, benches and generated headers.
