# A verified model of the metadata exporter's scrape pipeline

The exporter watches Kubernetes resources, follows the owner references of each anchor object, evaluates
user-supplied path expressions over the objects it finds, and emits one Prometheus series per anchor (or per
`forEach` item). This project models that pipeline in Dafny and proves what it is relied on for.

| file | models |
|---|---|
| `Sequences.dfy`, `Text.dfy` | listings of sets, element-wise relations, flattening; string order and sorting, trimming, decimal numbers, character classes |
| `PathSyntax.dfy`, `PathLanguage.dfy` | the path scanner; the language it accepts, its normal form, the documented grammar |
| `PathEval.dfy` | path evaluation over unstructured values |
| `Resources.dfy`, `Registry.dfy`, `Rules.dfy`, `Config.dfy` | resource normalisation, the registry, rule validation, configuration and discovery |
| `Objects.dfy`, `Store.dfy`, `Resolver.dfy` | cached objects, the scoped informer store, the owner-chain walk |
| `Evaluator.dfy`, `Scrape.dfy`, `LabelNames.dfy`, `NameSafety.dfy`, `Collector.dfy` | compiled rules, series and rows, label names and when they are safe, the collector and its accounting |
| `Provenance.dfy`, `Output.dfy` | what each label of a series and each row of a scrape is, from the declared rule to the objects it is read from |
| `Departures.dfy` | inputs on which the code departs from its documentation |

Run `dafny verify dfyconfig.toml` to check everything.

## How to read it

Code that works by changing things step by step is a method with loops, or a class; each method is proved
against a specification function or relation, and the laws are lemmas about that specification.

Where Go leaves an order open (a `range` over a map, a lister listing its store) the methods choose
arbitrarily, and the specification is a relation: `MayEvaluate`, `MayExtract`, `MayLabel`, `MayExpand`,
`MaySeries`, `MayBlock`, `MayScrape`, `MayCollect`. `MissIsDecided`, `PickUnique`, `ExpansionUnique`,
`ExpandUnique` and `BlockUnique` say where the relation has one answer only, and `BlocksExist` that it always
has one.

What the specification functions come to is stated separately, on the declared fields and both ways:
`NormalizesExactly` for resources, `LookupMeans` for references, `DeclaredScopes` for caches, `ParentMeans` and
`WalkLinks` for the owner walk, `EvalReaches` for paths, `RuleMeans` and `ConfigMeans` for validation,
`BlockMeans` and `ScrapeMeans` for what is sent.

Watched-resource lists (`rs`) stand for a registry: `Registry.Valid` ties the four indexes to the list, so
lookups are functions of the list (`Lookup`, `FindGVK`). `Getter` is what cache reads answer;
`StoreGetter` is the one of the scoped informers.

## Where the code and its documentation disagree

The model follows the code.

* `pkg/config/config.go:173-174` says that a kind used as a source means its first occurrence on the owner
  chain. The chain is a map that every hop overwrites, so the last occurrence is kept:
  `Resolvers.DocumentedMeaning`, `Departures.LastOccurrenceWins`.
* The grammar in `pkg/collector/pathexpr.go:31-37` allows any character in quoted text; the scanner ends a
  subscript at the first `]`, quoted or not: `PathLanguage.DocumentedGrammar`, `PathLanguage.BracketInQuotes`.
* The same comment has no hyphen in identifiers; the code and `docs/CONFIG.md:303` allow it. The scanner
  also accepts a trailing dot, an omitted dot after `]` and a dot before `[`: `PathLanguage.AcceptedLanguage`.
* `docs/CONFIG.md:326` forbids a prefix equal to a fixed label name to avoid ambiguity. That does not keep an
  expanded name from equalling a fixed one, nor from being reserved, and then a scrape sends nothing for the rule
  while it counts as ok. `Collectors.ScrapeIsExact` says which scrapes these are, `NameSafety.NeverRefusedExactly`
  which rules never have one, `NameSafety.SafeNamesChecked` which can be told safe from their declaration alone,
  `Departures.CollisionIsAccepted` and `Departures.ReservedIsAccepted` give valid rules that are not safe, and
  `Departures.UnsafeKeySilences` the anchors that silence them.

Other behaviour that a reader of the configuration may not expect:

* `maxKeys` cuts the sorted keys before values are looked at, so keys whose value is nil or empty count
  towards the limit and are dropped afterwards: `Departures.LimitCountsNil`. `Evaluators.Evaluator.LimitOnLiveKeys`
  says when that makes no difference.
* A watch entry is meant to be watched in its own namespaces. `WatchScope.ResourceFor` takes the first entry
  with that name or that kind, so an entry called like the kind of an earlier one takes over the earlier one's
  scope and selectors: `Store.OwnEntryUsed`, `Departures.ScopeIsBorrowed`.
* An empty string among the namespaces of an entry opens a cluster-wide cache that `ListAll` reads and `Get`
  never does: `Store.StoreAgreement`, `Departures.ListedButNotGot`.
* A resource may be named like a built-in source (`pkg/config/config.go:185`). The chain laws exclude that
  (`PlainNames`); `Resolvers.DeclaredPlainNames` says that only names, never kinds, can break it,
  `Resolvers.BuiltinAnyNames` what each built-in source then means, and `Departures.OwnerControllerIsTaken`
  is a declared resource that takes it.

## Model

| member | source | states |
|---|---|---|
| PathSyntax.ParsePath | pkg/collector/pathexpr.go:38-92 | the one-pass loop with cursor, flag and growing list computes `Parse`, every error with its position included |
| PathLanguage.AcceptedLanguage | pkg/collector/pathexpr.go:38-106 | an expression is accepted with given segments if and only if its body splits into maximal identifiers, valid subscripts and dots, with a field or subscript first, no two adjacent dots, and those segments as its meaning |
| PathLanguage.SplitUnique | pkg/collector/pathexpr.go:61-86 | the language is unambiguous: a text has at most one such split |
| PathLanguage.ErrorMeans | pkg/collector/pathexpr.go:52-106 | an error names the first fault: the body is empty, or it splits into tokens up to a dot too many, an unended subscript, a subscript that means nothing, or a character that starts no step, at the position reported |
| PathLanguage.SubscriptMeans | pkg/collector/pathexpr.go:94-106 | a subscript is a star, text between equal quotes, or a decimal number of 64 bits with an optional sign, whatever follows it, and nothing else |
| Text.DigitsAppend | pkg/collector/pathexpr.go:101-104 | digits are decimal: a run is worth its head shifted by the length of its tail, plus the tail |
| Text.TrimBlank | pkg/config/config.go:877-945 | trimming leaves nothing of a text if and only if it is all white space |
| Text.LexMeans | pkg/collector/evaluator.go:310-314 | the order of keys: a prefix comes first, else the first character that differs decides |
| PathLanguage.ParsedIsPrintable | pkg/collector/pathexpr.go:38-106 | an accepted expression has at least one segment, indices within int, and no `]` in a field name |
| PathLanguage.PrintRoundTrip | pkg/collector/pathexpr.go:38-106 | a segment list is recovered from its print `["name"]`, `[n]`, `[*]` if and only if it is non-empty, its indices fit an int and no name holds `]` |
| PathLanguage.NormalForm | pkg/collector/pathexpr.go:38-106 | printing what any accepted expression parsed to, and parsing again, gives the same segments |
| PathLanguage.DecorationIsInvisible | pkg/collector/pathexpr.go:39-50 | white space, `{ }`, a leading `.`, `$.` or `.$.` around a plain path leave the scanned text unchanged |
| PathLanguage.DocumentedGrammar | pkg/collector/pathexpr.go:28-92 | every sentence of the documented grammar, in any accepted decoration, parses to the segments of its derivation if and only if its indices fit an int and its quoted text holds no `]` |
| PathLanguage.BracketInQuotes | pkg/collector/pathexpr.go:31-37 | `["a]b"]` is a sentence of the documented grammar that the parser rejects |
| PathEval.Evaluate | pkg/collector/pathexpr.go:119-132 | the breadth-first frontier loop, early exit included, returns the depth-first flat-map result: the same multiset always, the same sequence when no wildcard meets a map of several entries |
| PathEval.ApplySegment | pkg/collector/pathexpr.go:134-164 | one segment selects the children of a value, up to order for a wildcard over a map |
| PathEval.EvalCompose | pkg/collector/pathexpr.go:119-132 | evaluating `p ++ q` is evaluating `q` on each result of `p`, in order |
| PathEval.EvalAllPermutes | pkg/collector/pathexpr.go:119-132 | reordering a frontier only reorders the results |
| PathEval.SinglePath | pkg/collector/pathexpr.go:119-164 | a wildcard-free path selects at most one value and never depends on map order |
| PathEval.IndexSelects | pkg/collector/pathexpr.go:142-147 | an index counts from the front of a list |
| PathEval.IndexMisses | pkg/collector/pathexpr.go:142-147 | a negative index, one past the end, and one on anything but a list select nothing |
| PathEval.FieldSelects | pkg/collector/pathexpr.go:136-141 | a field selects what a map holds under its name unless that is nil, and nothing otherwise |
| PathEval.WildcardSelects | pkg/collector/pathexpr.go:148-161 | a wildcard selects the items of a list in order, the value of each key of a map once, and nothing of anything else |
| PathEval.EvalReaches | pkg/collector/pathexpr.go:119-164 | a path yields a value if and only if following its names and positions reaches it |
| PathEval.PlainPathReaches | pkg/collector/pathexpr.go:119-164 | without wildcards it yields that value alone |
| Resources.GroupVersionRoundTrip | pkg/config/config.go:671-693 | a group/version printed and parsed again is itself if and only if neither part holds a slash |
| Resources.ParseGroupVersionMeans | pkg/config/config.go:671-680 | a string parses to a group and version if and only if it is the two with one slash between them, or the version alone |
| Resources.IdentityMeans | pkg/config/config.go:671-693 | an entry identifies a group and version if and only if its apiVersion splits into them, or it declares them itself and a full apiVersion repeats them |
| Resources.IdentityFails | pkg/config/config.go:671-693 | otherwise the error tells why: the apiVersion does not split, there is no version, a group has none, or the two declarations differ |
| Resources.NamePatterns | pkg/config/config.go:185-188 | the patterns of kinds, names, versions and plural names, by their parts |
| Resources.BuiltinTable | pkg/config/config.go:82-160 | which kinds are built in and what they are: workloads in the apps group, the top controllers flagged, Node cluster-scoped, the plural the kind in lower case with an `s` |
| Resources.LegacyDefaultsIdempotent | pkg/config/config.go:695-714 | filling in the defaults of a built-in kind twice is filling them in once |
| Resources.NormalizesExactly | pkg/config/config.go:582-669 | an entry normalises to a resource if and only if the resource is what its raw fields declare - the built-in one for the shorthand, with a scope or owner of its own if it has one, else its own identity, plural, scope and owner - and is well formed |
| Resources.PlaceholdersExactly | pkg/config/config.go:582-645 | with placeholders it also normalises, without plural and scope, if it leaves one of them to discovery, and to nothing else |
| Resources.NormalizeFails | pkg/config/config.go:582-669 | each error of normalisation names a fault that the raw entry has |
| Resources.NormalizedIdentity | pkg/config/config.go:582-669 | a normalised entry keeps its declared kind and name, both well formed; once resolved it is complete, and its apiVersion is the print of its group and version and parses back to them |
| Resources.RedeclarationIsStable | pkg/config/config.go:582-714 | declaring a resolved resource in full normalises to the identical value, whatever its selectors and namespaces; only namespaces on a cluster-scoped resource are refused |
| Resources.NormalizedScope | pkg/config/config.go:647-669 | namespaces go with namespaced resources only, and a built-in cluster-scoped resource stays cluster-scoped |
| Resources.ShorthandIsBuiltin | pkg/config/config.go:695-714 | an entry that gives only a built-in kind normalises to exactly that built-in resource, unless it puts namespaces on a cluster-scoped one |
| Configs.PlaceholdersAreConservative | pkg/config/config.go:582-645 | allowing discovery placeholders changes nothing for an entry that normalises without them |
| Registries.BuildRegistry | pkg/config/config.go:785-817 | succeeds if and only if the entries normalise to a list without a repeated name, GVR or GVK; the registry then holds that list in valid indexes; otherwise the error names the first entry that cannot stand and why |
| Registries.Registry.Add | pkg/config/config.go:798-815 | one iteration: a new entry extends the list and keeps every index in agreement; a duplicate is reported if and only if the entry clashes, under a key it does share |
| Registries.Registry.ResourceFor | pkg/config/config.go:430-447 | although an ambiguous lookup sorts the stored names in place, the answer is the linear scan of the declarations - name, else the unique kind, else an error - and the invariant holds again, so lookups never influence one another |
| Registries.Registry.ResourceForGVK | pkg/config/config.go:450-457 | the GVK index answers as a scan of the declarations |
| Registries.Registry.SourceNames | pkg/config/config.go:469-481 | exactly the built-in sources and the references that `ResourceFor` resolves |
| Registries.LookupMeans | pkg/config/config.go:430-447 | a reference stands for a declaration if and only if that has the name, or no declaration has it for a name and this one alone has it for a kind |
| Registries.LookupFails | pkg/config/config.go:430-447 | otherwise nothing is declared, nothing has the name or kind, or several have the kind, and those are listed, sorted |
| Registries.FindGVKIs | pkg/config/config.go:450-457 | a group, version and kind stand for the declaration that has all three |
| Registries.IndexedByName | pkg/config/config.go:795-813 | the name index has a key if and only if some declaration carries it, and holds such a declaration |
| Registries.IndexedByGVK | pkg/config/config.go:806-811 | the same for the GVK index |
| Registries.IndexedByGVR | pkg/config/config.go:800-805 | the same for the GVR index |
| Registries.NameIndexScans | pkg/config/config.go:434-436 | without clashes a name lookup is the first match of a scan |
| Registries.KindIndexScans | pkg/config/config.go:437-446 | the kind index counts and names the declarations of a kind, in whatever order it is stored |
| Registries.LookupIsWatched | pkg/config/config.go:430-447 | a resolved reference is a declared resource that carries it as name or kind |
| Registries.Resolvable | pkg/config/config.go:430-447 | a reference resolves if and only if it is a declared name or the kind of exactly one declaration |
| Registries.DeclaresUnique | pkg/config/config.go:785-817 | a watch list declares at most one resource list |
| Rules.ValidateSource | pkg/config/config.go:973-988 | accepts exactly the usable sources, and the error names the fault |
| Rules.ValidateExtract | pkg/config/config.go:924-941 | accepts exactly extracts with usable sources, non-blank paths and one level of fallbacks, and the error names a fault of the extract |
| Rules.ValidateExpand | pkg/config/config.go:943-966 | accepts exactly entries with a usable source, a path, a prefix that can start a label name and is not reserved, and a limit of at least 0; the error names the fault |
| Rules.ValidateRule | pkg/config/config.go:876-922 | reports an error if and only if the rule is not well formed, in whatever order its labels are visited, and the error names a fault of the rule |
| Rules.RuleMeans | pkg/config/config.go:876-988 | a rule is valid if and only if it has a visible name, a watched anchor and a label, free label names and prefixes, visible paths, one level of fallbacks, and sources that are omitted, built in (`item` only with forEach) or watched |
| Rules.WatchValidationRepeats | pkg/config/config.go:819-870 | whatever a valid rule requires of the watch list resolves to a declared name, so the check against the watch list cannot fail after it |
| Configs.Config.Validate | pkg/config/config.go:751-781 | succeeds if and only if there is a rule, the metric prefix is usable, the watch list declares, every rule is well formed and metric names are valid and distinct; the error is of the first stage that fails, and there of the first entry or rule |
| Configs.ConfigMeans | pkg/config/config.go:751-781 | a configuration is valid if and only if it has rules with different names that make metric names under its prefix, and its watch list declares resources over which each rule is valid |
| Configs.Config.ResolveDiscovery | pkg/config/config.go:497-560 | the server is asked at most once per distinct group/version, and only about entries that need it; on success every entry is filled in place, exactly those questions were asked, and the result is valid; it fails only if no filling would be valid, names why, and leaves the entries before the failing one filled |
| Configs.SelectMeans | pkg/config/config.go:529-544 | discovery settles on a resource if and only if it is the only one of its kind that is no subresource, and can be listed and watched |
| Configs.SelectFails | pkg/config/config.go:529-544 | otherwise the error says whether there is none, several, or one that cannot be listed and watched |
| Configs.QuestionMeans | pkg/config/config.go:497-528 | the server is asked about an entry if and only if it is no shorthand and lacks its kind, version, plural or scope, and about the group and version it identifies |
| Configs.FillFails | pkg/config/config.go:506-553 | an entry that is not filled has no identity or kind, its question was not answered, or the answer has no usable resource |
| Configs.FillNames | pkg/config/config.go:506-553 | a filled entry keeps its declaration and names, in the scope the server reports, the one listable and watchable resource of its kind under its own group/version |
| Configs.FillIsFinal | pkg/config/config.go:497-560 | an entry that discovery filled is complete: discovery again, with any server, asks nothing and leaves it as it is |
| Configs.SecondRun | pkg/config/config.go:497-560 | after a successful run every entry is complete and a second run asks nothing and changes nothing |
| Configs.ResolvedIsValid | pkg/config/config.go:555-560 | what discovery leaves behind is valid without placeholders, so a collector can be built from it |
| Store.OwnEntryUsed | pkg/config/config.go:277-284 | a resource is watched under its own entry if and only if no earlier entry has its name for a kind |
| Store.DeclaredScopes | pkg/collector/listers.go:60-77 | a namespaced resource is watched in exactly the namespaces of the entry that counts for it, in their order, if that has any; every other resource cluster-wide |
| Store.DeclaredCaches | pkg/collector/listers.go:51-146 | so a resource that no earlier kind shadows has one cache for each namespace its own entry declares, or the one for all |
| Store.DeclaredGet | pkg/collector/listers.go:227-257 | a read of it answers an object if and only if the cache of the namespace asked for, or the one for all, holds it under the key |
| Store.DeclaredMiss | pkg/collector/listers.go:227-257 | and the kind of miss tells whether a cache, a namespace or the object is missing |
| Store.DeclaredListed | pkg/collector/listers.go:310-323 | every object in one of these caches is listed |
| Store.ScopedInformers.constructor | pkg/collector/listers.go:51-146 | the scope tables hold for each resource its own scopes, with one empty cache per scope and no other |
| Store.ScopedInformers.HasKind | pkg/collector/listers.go:156-164 | true if and only if the reference resolves to a watched name |
| Store.ScopedInformers.Get | pkg/collector/listers.go:227-257 | answers `GetFrom`: the object cached under the requested key, or which of the four misses it was; every call counts as one read |
| Store.ScopedInformers.ListAll | pkg/collector/listers.go:310-323 | lists the cache of each scope completely and without repetition, scope after scope |
| Store.GetIsKeyed | pkg/collector/listers.go:227-250 | an object is returned under its own key: in the namespace asked for, or in none for a cluster-scoped resource |
| Store.ListedExactly | pkg/collector/listers.go:310-323 | how often `ListAll` lists an object, for any contents of the caches: once per mention of its namespace if that cache holds it, plus once per cluster-wide scope whose cache holds it |
| Store.ListedOnce | pkg/collector/listers.go:310-323 | a cached object is listed exactly once when no namespace is repeated and a cluster-wide scope stands alone |
| Store.GotIsListed | pkg/collector/listers.go:227-257 | what `Get` returns is listed by `ListAll` |
| Store.StoreAgreement | pkg/collector/listers.go:227-257 | for namespaced resources, listed and returned under its own key are the same for every object if and only if the resource is watched cluster-wide or the cache of an empty-string namespace holds nothing the others do not |
| Store.SeparateScopesAgree | pkg/collector/listers.go:60-77 | without an empty string among the namespaces, an object is listed if and only if `Get` returns it under its key |
| Store.ClusterStoreAgreement | pkg/collector/listers.go:239-241 | a cluster-scoped object is returned by name if and only if it is cached, and is then listed once |
| Resolvers.FindControllerRef | pkg/collector/resolver.go:155-165 | the first reference flagged as controller, else the first of all |
| Resolvers.RefersMeans | pkg/collector/resolver.go:133-143 | a reference names a declared resource if and only if its apiVersion splits into the group and version of that and its kind is the same, or without an apiVersion by name, else by a kind that no other has |
| Resolvers.ParentMeans | pkg/collector/resolver.go:66-107 | there is a next hop if and only if the reference that counts names a declared resource whose `owner.follow` is not false and the cache holds that name in the namespace of the child; the hop is that object |
| Resolvers.ReadsWhenFollowed | pkg/collector/resolver.go:72-83 | the cache is read for an object if and only if there is such a reference |
| Resolvers.WalkLinks | pkg/collector/resolver.go:66-118 | the walk is at most 8 such hops, each from the object before it, and if shorter ends where there is none |
| Resolvers.AnchorResource | pkg/collector/resolver.go:145-153 | the resource of an anchor is the declaration with its group, version and kind |
| Resolvers.Resolver.AddChainObject | pkg/collector/resolver.go:123-131 | writes the name, the kind if it stands for this resource, and `topController` if flagged |
| Resolvers.Resolver.FollowOwners | pkg/collector/resolver.go:66-118 | the loop folds the hops of the bounded walk into the chain, `ownerController` first, and calls `Get` once at each object whose controller reference is watched and followed |
| Resolvers.OnwardFolds | pkg/collector/resolver.go:66-118 | writing while walking is the same as walking first and then writing hop after hop |
| Resolvers.Resolver.Resolve | pkg/collector/resolver.go:50-121 | the chain is `ChainOf` the declarations, the caches and the anchor, and `Get` is called exactly `ReadsOf` times |
| Resolvers.ReadsAreBounded | pkg/collector/resolver.go:66-118 | that is once per hop, once more if the last read misses, and at most 8 times on any owner graph |
| Resolvers.WalkIsPrefix | pkg/collector/resolver.go:66-118 | a bounded walk is exactly the first min(bound, length) hops of the unbounded parent walk, cycles included |
| Resolvers.WalkIsComplete | pkg/collector/resolver.go:66-118 | a walk that ends within the bound is the complete walk |
| Resolvers.StoreKeepsNamespace | pkg/collector/listers.go:227-257 | reads of the scoped caches answer in the namespace asked for or in none |
| Resolvers.WalkKeepsNamespace | pkg/collector/resolver.go:69-118 | everything the walk reaches is in the namespace of each object before it or in none, so after an object without namespace nothing has one |
| Resolvers.ChainKeepsNamespace | pkg/collector/resolver.go:50-131 | every object of a chain, hence every label source, is the anchor, in the anchor's namespace, or in none |
| Resolvers.ChainMeaning | pkg/collector/resolver.go:50-131 | `ownerController` is the first parent, `topController` the deepest flagged object with the anchor included, and every reference that resolves is bound if and only if its resource occurs, to its last occurrence |
| Resolvers.ChainHasNoOther | pkg/collector/resolver.go:50-131 | a key that neither resolves nor is a built-in source is bound if and only if it is the anchor's kind, to the anchor; `item` is never bound |
| Resolvers.DeclaredPlainNames | pkg/config/config.go:185-186 | under a declared watch list only resource names, not kinds, can coincide with a built-in source |
| Resolvers.BuiltinAnyNames | pkg/collector/resolver.go:50-131 | whatever resources are called, each built-in key of a chain is the last parent that writes it - by its resource's name, or for `topController` by its flag -, else the first parent for `ownerController`, else the anchor if that writes it, and for `anchor` always |
| Resolvers.OwnerControllerMeaning | pkg/collector/resolver.go:108-131 | so `ownerController` is the last parent of a resource of that name, else the first parent, else the anchor if its own resource has that name |
| Resolvers.FirstIsLast | pkg/config/config.go:172-174 | on every walk, cyclic ones included, the documented first occurrence is the kept last one if the resource occurs at most once; and, where the resource repeats no object, only if |
| Resolvers.LastOfMeans | pkg/collector/resolver.go:123-131 | the last occurrence, and the last flagged object, by their positions on the walk |
| Resolvers.FirstOfMeans | pkg/config/config.go:172-174 | the first occurrence, and how many there are, by position |
| Resolvers.DocumentedMeaning | pkg/config/config.go:172-174 | a reference that resolves has its documented meaning in the chain under exactly that condition |
| Evaluators.Compile | pkg/collector/evaluator.go:65-116 | compiles to the rule with its labels in ascending name order and every path parsed; a failure is the first path, in compilation order, that does not parse, with its parse error |
| Evaluators.AllPathsParseExactly | pkg/collector/evaluator.go:65-116 | a rule has such a path if and only if not all its paths parse |
| Evaluators.FirstBadIs | pkg/collector/evaluator.go:65-153 | that path is the one of forEach, else of the first label in name order that has one, its own before its fallbacks, else of the first expand entry |
| Evaluators.CompiledParses | pkg/collector/evaluator.go:65-116 | a rule compiles only if all its paths parse |
| Evaluators.SanitizeKey | pkg/collector/evaluator.go:337-358 | the builder loop gives the sanitised key |
| Evaluators.SanitizeKeepsSafe | pkg/collector/evaluator.go:331-358 | sanitising leaves a key alone if and only if it is non-empty and holds label characters only |
| Evaluators.SanitizeMeets | pkg/collector/evaluator.go:331-358 | two keys meet after sanitising if and only if they differ only where neither has a letter or digit, the empty key standing for `_` |
| Evaluators.AllowDeny | pkg/collector/evaluator.go:300-310 | after compilation deny beats allow, and an empty allow list allows every key |
| Evaluators.Evaluator.TryExtract | pkg/collector/evaluator.go:255-272 | the first result that renders to something, if the source is there |
| Evaluators.Evaluator.EvaluateLabel | pkg/collector/evaluator.go:243-253 | the first of primary and fallbacks that yields something, else the default |
| Evaluators.Evaluator.MissIsDecided | pkg/collector/evaluator.go:255-272 | whether an extract misses never depends on the order of a map |
| Evaluators.Evaluator.PickUnique | pkg/collector/evaluator.go:243-272 | a label has one possible value when its paths enumerate no map of several entries |
| Evaluators.Evaluator.EvaluateForEach | pkg/collector/evaluator.go:224-239 | one item per result, maps as they are and other values wrapped; one empty item without forEach |
| Evaluators.Evaluator.EvaluateExpand | pkg/collector/evaluator.go:280-329 | an expansion of the first result if that is a map, nothing otherwise |
| Evaluators.Evaluator.ExpandMap | pkg/collector/evaluator.go:298-328 | filter, sort, truncate, sanitise and merge: the survivors are the least admitted keys up to the limit, and each name has the value of its greatest live survivor |
| Evaluators.SurvivesByRank | pkg/collector/evaluator.go:298-314 | a key survives if and only if it is admitted and fewer admitted keys than a positive limit come before it |
| Evaluators.Evaluator.ExpansionUnique | pkg/collector/evaluator.go:298-328 | an expansion is determined by the map and the declaration, not by iteration order |
| Evaluators.Evaluator.ExpansionBounds | pkg/collector/evaluator.go:311-328 | no exported value is empty, a positive limit bounds the number of names, and every name comes from an admitted key of the map |
| Evaluators.Evaluator.LimitOnLiveKeys | pkg/collector/evaluator.go:311-324 | what the limit leaves to export is what it would leave of the keys with a value if and only if every surviving key has one or every key that has one survives |
| Scrapes.EvaluateOneSeries | pkg/collector/collector.go:223-239 | fixed values in label order, and the expansions merged with later entries winning |
| Scrapes.MaterialiseSeries | pkg/collector/collector.go:180-219 | the pending series are the blocks of the convertible anchors in order, one series per item, and the dynamic columns are the sorted union of their keys |
| Scrapes.EmitSeries | pkg/collector/collector.go:243-271 | although one buffer is reused and never cleared, every row is its own series padded to the columns; nothing is sent if the descriptor is refused |
| Scrapes.SeriesAreFull | pkg/collector/collector.go:223-239 | no dynamic value of a series is empty |
| Scrapes.ColumnsExact | pkg/collector/collector.go:180-219 | the columns are strictly ascending, cover the keys of every series, and each is filled in some row |
| Scrapes.RowRecovers | pkg/collector/collector.go:256-261 | dropping the empty columns of a row gives the series back, for any set of columns that covers it |
| Scrapes.RowsRecoverBlocks | pkg/collector/collector.go:180-271 | every row of a scrape gives back the series of its own anchor, whatever the other anchors are |
| Scrapes.BlocksExist | pkg/collector/collector.go:180-219 | for any anchors some series are possible: the relations that model open orders are never empty |
| Scrapes.BlockPermutes | pkg/collector/collector.go:184-211 | the series of an anchor are determined up to order by the anchor, the rule and the store if no label or expand path enumerates a map for the items the anchor yields |
| Scrapes.BlockUnique | pkg/collector/collector.go:184-211 | and in order, if forEach enumerates none either |
| Scrapes.PlainPathsAreOrdered | pkg/collector/pathexpr.go:119-164 | a rule whose label and expand paths hold no `[*]` satisfies the first condition on every anchor, and both exactly where its forEach enumerates no map |
| Provenance.LabelMeans | pkg/collector/evaluator.go:243-272 | a label can have a text if and only if it is that of the first of its declared path and fallbacks to show anything, with nothing reached by those before it showing anything, or its declared default, else the empty text, if none does |
| Provenance.ExpansionMeans | pkg/collector/evaluator.go:298-328 | an expansion is determined by the declared lists, limit and prefix: a name has the text of the greatest key that is not denied, is allowed, has fewer than `maxKeys` such keys before it, shows something, and has that name |
| Provenance.SeriesMeans | pkg/collector/collector.go:223-239 | a series is possible if and only if each fixed label has such a text and the dynamic labels are such expansions, the last one winning a name |
| Provenance.BlockMeans | pkg/collector/collector.go:184-211 | the series of an anchor, both ways and from the declared rule: one per result of forEach over the anchor, in order; `item` is that result, a non-map under `_`, and every other source, `anchor` if omitted, the converted object that the owner chain binds to it |
| Provenance.PlainFound | pkg/collector/evaluator.go:255-272 | a path without `[*]` yields a text if and only if the value it reaches in the source shows it |
| Provenance.ListRoots | pkg/collector/evaluator.go:224-239 | forEach over `path[*]` takes the elements of the list at that path, in order |
| Provenance.ItemLabels | pkg/collector/collector.go:204-234 | a label that reads `item` under a plain path shows in the j-th series what that path reaches in the j-th element of the list |
| LabelNames.DynamicName | pkg/collector/evaluator.go:325-326 | under a valid prefix every key gives a valid label name, reserved if and only if the prefix is a lone `_` and the sanitised key starts with `_` |
| LabelNames.UnrestrictedReach | pkg/collector/evaluator.go:280-329 | without allow and deny, the label names that some key reaches are exactly the proper extensions of the prefix |
| LabelNames.ValidatedNames | pkg/config/config.go:896-920 | a validated and compiled rule has ascending, valid, unreserved fixed names and valid prefixes that equal none of them |
| LabelNames.EmittedNamesValid | pkg/collector/collector.go:243-246 | every emitted name is a Prometheus label name, and none is reserved when no prefix is a lone `_` |
| LabelNames.ColumnsAccepted | pkg/collector/collector.go:243-268 | the descriptor of a scrape is accepted if and only if no column has the name of a fixed label or a reserved one |
| LabelNames.PrefixesKeepNamesSafe | pkg/config/config.go:914-920 | names are safe when no prefix is a lone `_` and no fixed name begins with a prefix |
| NameSafety.SafeNamesChecked | pkg/config/config.go:914-920 | no admitted key can collide or be reserved if and only if each entry is clear: its allow list, if any, holds no such key; without one, its prefix is no lone `_` and its deny list holds every key that sanitises to the rest of a fixed name |
| NameSafety.UnlistedNamesSafe | pkg/config/config.go:914-920 | without allow and deny lists that is: no prefix is a lone `_` and no fixed name properly extends a prefix |
| NameSafety.NeverRefusedExactly | pkg/collector/collector.go:180-271 | for every rule, no scrape over any anchors is ever refused if and only if no key that some anchor may export has a colliding or reserved name |
| NameSafety.SafeNamesExact | pkg/collector/collector.go:180-271 | safe names suffice for that, and are needed where every admitted key is one that some anchor may export among whatever else it holds |
| NameSafety.BearsIsPossible | pkg/collector/evaluator.go:280-329 | a key that an anchor exports in any order of evaluation is one that it may export |
| NameSafety.LabelIsUnsafe | pkg/collector/collector.go:180-246 | one anchor that exports a colliding or reserved label for one of its items, whatever else it holds, makes the columns of its whole scrape unsafe |
| Collectors.New | pkg/collector/collector.go:59-93 | succeeds if and only if the watch list is fully resolved, every anchor is watched and every path parses; the collector then holds these rules compiled and empty caches, with distinct counters if the configuration is valid; otherwise the error names the first entry or rule at fault and why |
| Collectors.ValidatedBuilds | pkg/collector/collector.go:63-89 | a validated configuration builds if and only if all its paths parse |
| Collectors.ValidatedNamesDistinct | pkg/config/config.go:771-778 | validation keeps rule names, the keys of the counters, distinct |
| Collectors.Collector.CollectRule | pkg/collector/collector.go:147-175 | a rule whose anchor resolves sends what it may and counts one ok under its name; otherwise it sends nothing and counts one error |
| Collectors.Collector.Collect | pkg/collector/collector.go:133-139 | every rule sends in order, and the accounting invariant holds: each ok count is the number of completed scrapes and each error count is zero |
| Collectors.Run | pkg/collector/collector.go:133-175 | over any sequence of scrapes with arbitrary cache contents in between, each rule's ok count is the number of scrapes and its error count stays zero |
| Collectors.Serve | pkg/collector/collector.go:59-175 | from a validated configuration: a collector is built unless a path or the watch list is at fault, and then over any sequence of scrapes every rule counts each as ok and none as an error |
| Collectors.ScrapeIsExact | pkg/collector/collector.go:180-271 | a scrape is all or nothing: with safe columns it sends one row per series, in order, under one set of names, each row standing for its own series; otherwise it sends nothing although it has series |
| Collectors.OneLabelSilences | pkg/collector/collector.go:147-271 | one cached anchor that exports a colliding or reserved label, from any source and among whatever else, and a scrape sends nothing for the rule, whatever else the caches hold |
| Collectors.ScrapeIsFaithful | pkg/collector/collector.go:180-271 | with safe names every scrape sends one row per series, and each row stands for its own series |
| Collectors.ScrapesAgree | pkg/collector/collector.go:180-271 | two scrapes over one store that share an anchor send the same series for it, whatever else they scrape, if no path enumerates a map for it and its items; either sends nothing at all if its columns are unsafe |
| Collectors.ScrapesMayAgree | pkg/collector/collector.go:180-271 | without any condition, the series that one scrape may have for an anchor are possible in every other scrape over the store that takes it in |
| Collectors.EveryScrapeIsFaithful | pkg/collector/collector.go:122-139 | under a validated configuration whose prefixes stand apart from the fixed names, no scrape of any rule drops a row or loses a value |
| Output.ScrapeMeans | pkg/collector/collector.go:147-271 | what a scrape sends, from the declared rules to the rows: the series of each listed anchor are those of its own chain and forEach results, and unless nothing is sent there is one row for each, in order, with every label under its name and the others empty |
| Departures.CollisionIsAccepted | pkg/config/config.go:914-920 | validation accepts a rule with a fixed label that an expanded key meets |
| Departures.ReservedIsAccepted | pkg/config/config.go:951-962 | validation accepts a rule with a lone `_` as prefix, under which a key that starts with `_` becomes a reserved name |
| Departures.CompiledTwoFields | pkg/collector/evaluator.go:65-153 | what the first rule compiles to |
| Departures.CompiledOneField | pkg/collector/evaluator.go:65-153 | what the second rule compiles to |
| Departures.UnsafeKeySilences | pkg/collector/collector.go:180-271 | over any anchors among which one has such a key where the rule looks, whatever else it holds, either rule has series and sends none |
| Departures.TwoFieldsHold | pkg/collector/pathexpr.go:119-164 | an object with such a key under two nested fields, as a label under `metadata.labels`, is one |
| Departures.LimitCountsNil | pkg/collector/evaluator.go:311-324 | a nil value uses up the limit: one key allowed, the first nil, nothing exported |
| Departures.ScopeIsBorrowed | pkg/config/config.go:277-284 | an entry named like the kind of an earlier one is watched in the earlier one's namespaces |
| Departures.ListedButNotGot | pkg/collector/listers.go:60-77 | for a declared resource with an empty string for its namespace, an object is listed that `Get` does not find |
| Departures.LastOccurrenceWins | pkg/collector/resolver.go:50-131 | over the caches of a declared resource, an anchor owned by an object of its own resource: the chain keeps that owner, not the documented first occurrence |
| Departures.OwnerControllerIsTaken | pkg/config/config.go:185 | a declared resource named `ownerController` makes an anchor without owners its own `ownerController` |

## Left out

Parts of the repository that are not modelled:

* informer factories, cache synchronisation, LIST dry-runs, dynamic and discovery clients, the HTTP server, signals and flags: a cache is a map that can hold anything between scrapes, discovery a partial function
* YAML loading, file reading, logging, timings, histograms and the anchor-count gauge: only the ok and error counters are kept
* label and field selectors beyond carrying them in a watch entry, since they only shape what the caches hold
* `ToUnstructured`, `enrichTypeMetaFromScheme`, `kindOf`, `gvkOf` and `stringifyValue`: conversion is an arbitrary partial function, rendering an arbitrary function of a non-nil value, and kind and GVK are fields of an object
* the Go regular-expression engine: the validation patterns are character-class predicates
* characters beyond ASCII in path expressions outside quotes, where the scanner casts single bytes to runes, and Unicode white space in trimming
* the width limit of `fmt.Sscanf`, which no path reaches; `%d` is a signed decimal prefix that ignores what follows
* the Prometheus library: a descriptor is assumed to refuse malformed, reserved or repeated names, and `NewConstMetric` to copy the values; its refusal of values that are not valid UTF-8 is not modelled
* the scrape mutex and concurrency: `Collect` calls are sequential
* `validateAgainstWatch` as an operation of its own (`Rules.WatchValidationRepeats` says why it cannot fail), and the error result of `materialiseSeries`, which is always nil
* object names holding a slash: cache keys are pairs, not joined strings
* the texts of errors and of metric help
* `logParentChainKindGaps`, `LogDanglingSelectorWarnings`, `ListAllPods`, `NamespaceName`, the command, and the end-to-end harness

How the model is cut:

* the loops of `evaluate`, `Resolve`, `Rule.validate`, `Validate`, `ResolveDiscovery`, `New`, `Collect`, `materialiseSeries`, `Compile` and `EvaluateExpand` are methods of their own where that keeps their proofs short
* the owner chain and a series' dynamic map are values that methods return, not maps updated through an alias
* stored Go slices are sequences, so the in-place sort of `ResourceFor` is an assignment of the sorted list to the index

Contracts that say less than they could:

- Rules.ValidateRule: does not say which of several errors is reported, because Go visits the labels of a rule in no fixed order
- PathEval.Evaluate: allows every order for a wildcard over a map of several entries, because Go fixes none
- Registries.Registry.Add: says nothing about the indexes after a duplicate, because the half-updated registry is discarded
