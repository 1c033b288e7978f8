// The collector (pkg/collector/collector.go): construction from a configuration,
// scrapes over all rules, and the per-rule ok/error accounting.
module Collectors {
  import opened Wrappers
  import opened Sequences
  import opened Resources
  import opened Registries
  import opened Objects
  import opened Store
  import opened Resolvers
  import opened Rules
  import opened Evaluators
  import opened Configs
  import opened Scrapes
  import opened LabelNames
  import opened NameSafety

  datatype NewError =
    | BadWatch(registry: RegistryError)
    | BadAnchor(index: nat)
    | BadRulePath(index: nat, path: CompileError)

  // ------------------------------------------------------------ construction

  ghost predicate RuleBuilds(rs: seq<ResourceInfo>, rule: Rule)
  {
    Lookup(rs, rule.anchor).Success? && AllPathsParse(rule)
  }

  // When a collector can be built: the watch list is fully resolved, every
  // anchor is watched and every path parses.
  ghost predicate Builds(watch: seq<WatchResource>, rules: seq<Rule>)
  {
    exists rs :: Declares(watch, false, rs) && forall i | 0 <= i < |rules| :: RuleBuilds(rs, rules[i])
  }

  ghost predicate AnchorsResolve(rs: seq<ResourceInfo>, compiled: seq<CompiledRule>)
  {
    forall i | 0 <= i < |compiled| :: Lookup(rs, compiled[i].rule.anchor).Success?
  }

  lemma DoesNotBuild(watch: seq<WatchResource>, rules: seq<Rule>, rs: seq<ResourceInfo>, e: NewError)
    requires Declares(watch, false, rs) && RuleRefused(rs, rules, e)
    ensures !Builds(watch, rules)
  {
    RefusedDoesNotBuild(rs, rules, e);
    forall other | Declares(watch, false, other) ensures other == rs {
      DeclaresUnique(watch, false, other, rs);
    }
  }

  lemma RefusedDoesNotBuild(rs: seq<ResourceInfo>, rules: seq<Rule>, e: NewError)
    requires RuleRefused(rs, rules, e)
    ensures exists i | 0 <= i < |rules| :: !RuleBuilds(rs, rules[i])
  {
    match e {
      case BadAnchor(i) =>
        assert !RuleBuilds(rs, rules[i]);
      case BadRulePath(i, _) =>
        AllPathsParseExactly(rules[i]);
        assert !RuleBuilds(rs, rules[i]);
    }
  }

  // Without discovery a validated configuration builds unless a path is malformed.
  lemma ValidatedBuilds(prefix: string, watch: seq<WatchResource>, rules: seq<Rule>)
    requires ConfigOk(prefix, watch, false, rules)
    ensures Builds(watch, rules) <==> forall i | 0 <= i < |rules| :: AllPathsParse(rules[i])
  {
    var rs :| Declares(watch, false, rs) && RulesOk(prefix, rs, rules);
    if forall i | 0 <= i < |rules| :: AllPathsParse(rules[i]) {
      assert forall i | 0 <= i < |rules| :: RuleOk(rs, rules[i]) && RuleBuilds(rs, rules[i]);
    }
  }

  ghost predicate NamesDistinct(compiled: seq<CompiledRule>)
  {
    forall i, j | 0 <= i < j < |compiled| :: compiled[i].rule.name != compiled[j].rule.name
  }

  // Metric names differ, hence so do the rule names that key the counters.
  lemma ValidatedNamesDistinct(prefix: string, watch: seq<WatchResource>, placeholders: bool, rules: seq<Rule>,
                               compiled: seq<CompiledRule>)
    requires ConfigOk(prefix, watch, placeholders, rules)
    requires |compiled| == |rules| && forall i | 0 <= i < |rules| :: compiled[i].rule == rules[i]
    ensures NamesDistinct(compiled)
  {
    forall i, j | 0 <= i < j < |compiled| ensures compiled[i].rule.name != compiled[j].rule.name {
      assert prefix + rules[i].name != prefix + rules[j].name;
    }
  }

  // ------------------------------------------------------------ one rule's scrape

  // What one rule may send: the rows of all its series in `ListAll` order, or
  // nothing when the descriptor is refused.
  ghost predicate MayScrape(ev: Evaluator, cr: CompiledRule, name: string, rs: seq<ResourceInfo>,
                            watch: seq<WatchResource>, listers: Listers, ch: seq<Metric>)
  {
    exists parts, blocks ::
      && MayList(rs, watch, listers, cr.rule.anchor, parts)
      && MayBlocks(ev, cr, rs, StoreGetter(rs, watch, listers), Flatten(parts), blocks)
      && SendsBlocks(cr, name, blocks, ch)
  }

  ghost predicate MayList(rs: seq<ResourceInfo>, watch: seq<WatchResource>, listers: Listers, ref: string,
                          parts: seq<seq<Object>>)
  {
    match Lookup(rs, ref)
    case Failure(_) => parts == []
    case Success(info) => info.name in listers && Listing(ScopesOf(watch, info), listers[info.name], parts)
  }

  ghost predicate SendsBlocks(cr: CompiledRule, name: string, blocks: seq<seq<PendingSeries>>, ch: seq<Metric>)
  {
    var columns := Columns(blocks);
    if DescAccepts(name, cr.labelOrder + columns) then Emits(name, cr.labelOrder, columns, Flatten(blocks), ch)
    else ch == []
  }

  // The series that a row of a scrape stands for: its empty dynamic columns
  // are padding.
  function SeriesOfRow(cr: CompiledRule, columns: seq<string>, row: Metric): Option<PendingSeries>
  {
    if |row.values| == |cr.labelOrder| + |columns| then Some(Decode(|cr.labelOrder|, columns, row.values)) else None
  }

  ghost function RowFor(cr: CompiledRule, columns: seq<string>): (PendingSeries, Metric) -> bool
  {
    (ps: PendingSeries, row: Metric) =>
      row.labelNames == cr.labelOrder + columns && SeriesOfRow(cr, columns, row) == Some(ps)
  }

  // One row per series, in order, under one set of label names, and each row
  // stands for its own series.
  ghost predicate Faithful(cr: CompiledRule, columns: seq<string>, pending: seq<PendingSeries>, ch: seq<Metric>)
  {
    |ch| == |pending| && Related(RowFor(cr, columns), pending, ch)
  }

  lemma RowStandsFor(cr: CompiledRule, columns: seq<string>, ps: PendingSeries, row: Metric)
    requires Recovers(|cr.labelOrder|, columns, ps) && row.values == Row(ps, columns)
    ensures SeriesOfRow(cr, columns, row) == Some(ps)
  {
  }

  lemma RowsStandFor(cr: CompiledRule, name: string, columns: seq<string>, pending: seq<PendingSeries>, ch: seq<Metric>)
    requires Emits(name, cr.labelOrder, columns, pending, ch)
    requires forall i | 0 <= i < |pending| :: Recovers(|cr.labelOrder|, columns, pending[i])
    ensures Faithful(cr, columns, pending, ch)
  {
    forall i | 0 <= i < |ch| ensures RowFor(cr, columns)(pending[i], ch[i]) {
      RowStandsFor(cr, columns, pending[i], ch[i]);
    }
  }

  // A scrape of a validated rule is all or nothing: if no column has the name of
  // a fixed label or a reserved one, it loses no row and no value, and otherwise
  // it sends nothing although there are rows to send.
  lemma ScrapeIsExact(ev: Evaluator, cr: CompiledRule, name: string, rs: seq<ResourceInfo>, get: Getter,
                      anchors: seq<Object>, blocks: seq<seq<PendingSeries>>, ch: seq<Metric>)
    requires IsMetricName(name) && GoodNames(cr) && |cr.labels| == |cr.labelOrder|
    requires MayBlocks(ev, cr, rs, get, anchors, blocks) && SendsBlocks(cr, name, blocks, ch)
    ensures SafeColumns(cr, blocks) ==> Faithful(cr, Columns(blocks), Flatten(blocks), ch)
    ensures !SafeColumns(cr, blocks) ==> ch == [] && Flatten(blocks) != []
  {
    ColumnsAccepted(name, ev, cr, rs, get, anchors, blocks);
    if SafeColumns(cr, blocks) {
      RowsRecoverBlocks(ev, cr, rs, get, anchors, blocks);
      RowsStandFor(cr, name, Columns(blocks), Flatten(blocks), ch);
    }
  }

  lemma UnsafeSendsNothing(ev: Evaluator, cr: CompiledRule, name: string, rs: seq<ResourceInfo>, get: Getter,
                           anchors: seq<Object>, blocks: seq<seq<PendingSeries>>, ch: seq<Metric>)
    requires MayBlocks(ev, cr, rs, get, anchors, blocks) && SendsBlocks(cr, name, blocks, ch)
    requires !SafeColumns(cr, blocks)
    ensures ch == []
  {
    var n :| n in DynamicKeys(Flatten(blocks)) && !SafeName(cr, n);
    ListsMembers(Columns(blocks), DynamicKeys(Flatten(blocks)));
    UnsafeRejected(name, cr, Columns(blocks), n);
  }

  // One cached anchor with an unsafe label silences its rule: whatever else it
  // and the caches hold, a scrape sends nothing, and still counts as ok.
  lemma OneLabelSilences(ev: Evaluator, cr: CompiledRule, name: string, rs: seq<ResourceInfo>,
                         watch: seq<WatchResource>, listers: Listers, ch: seq<Metric>, scope: string, anchor: Object,
                         i: nat, k: string)
    requires Lookup(rs, cr.rule.anchor).Success?
    requires var info := Lookup(rs, cr.rule.anchor).value;
      && info.name in listers && scope in ScopesOf(watch, info) && scope in listers[info.name]
      && anchor in listers[info.name][scope].Values
    requires Bears(ev, cr, rs, StoreGetter(rs, watch, listers), anchor, i, k)
    requires !SafeName(cr, LabelFor(cr.expands[i], k))
    requires MayScrape(ev, cr, name, rs, watch, listers, ch)
    ensures ch == []
  {
    var get := StoreGetter(rs, watch, listers);
    var parts, blocks :|
      MayList(rs, watch, listers, cr.rule.anchor, parts) && MayBlocks(ev, cr, rs, get, Flatten(parts), blocks)
      && SendsBlocks(cr, name, blocks, ch);
    var info := Lookup(rs, cr.rule.anchor).value;
    var keys := ScopesOf(watch, info);
    var s :| 0 <= s < |keys| && keys[s] == scope;
    ListsMembers(parts[s], listers[info.name][scope].Values);
    FlattenHas(parts, s, anchor);
    var a :| 0 <= a < |Flatten(parts)| && Flatten(parts)[a] == anchor;
    LabelIsUnsafe(ev, cr, rs, get, Flatten(parts), blocks, a, i, k);
    UnsafeSendsNothing(ev, cr, name, rs, get, Flatten(parts), blocks, ch);
  }

  // A validated rule with safe names loses no row and no value.
  lemma ScrapeIsFaithful(ev: Evaluator, cr: CompiledRule, name: string, rs: seq<ResourceInfo>, get: Getter,
                         anchors: seq<Object>, blocks: seq<seq<PendingSeries>>, ch: seq<Metric>)
    requires IsMetricName(name) && GoodNames(cr) && SafeNames(cr) && |cr.labels| == |cr.labelOrder|
    requires MayBlocks(ev, cr, rs, get, anchors, blocks) && SendsBlocks(cr, name, blocks, ch)
    ensures Faithful(cr, Columns(blocks), Flatten(blocks), ch)
  {
    SafeNamesColumns(ev, cr, rs, get, anchors, blocks);
    ScrapeIsExact(ev, cr, name, rs, get, anchors, blocks, ch);
  }

  // The rows of the i-th anchor stand for these series.
  ghost predicate SendsBlock(cr: CompiledRule, columns: seq<string>, blocks: seq<seq<PendingSeries>>, ch: seq<Metric>,
                             i: nat, block: seq<PendingSeries>)
    requires i < |blocks|
  {
    RelatedFrom(RowFor(cr, columns), block, ch, Offset(blocks, i))
  }

  // Independence of the other anchors: two scrapes over the same store that
  // share an anchor send the same series for it, whatever else they scrape and
  // whatever columns that adds, unless a path enumerates a map. Either scrape
  // may still send nothing because some other anchor has an unsafe label.
  lemma ScrapesAgree(ev: Evaluator, cr: CompiledRule, name: string, rs: seq<ResourceInfo>, get: Getter,
                     anchorsA: seq<Object>, blocksA: seq<seq<PendingSeries>>, chA: seq<Metric>, i: nat,
                     anchorsB: seq<Object>, blocksB: seq<seq<PendingSeries>>, chB: seq<Metric>, j: nat)
    requires IsMetricName(name) && GoodNames(cr) && |cr.labels| == |cr.labelOrder|
    requires MayBlocks(ev, cr, rs, get, anchorsA, blocksA) && SendsBlocks(cr, name, blocksA, chA)
    requires MayBlocks(ev, cr, rs, get, anchorsB, blocksB) && SendsBlocks(cr, name, blocksB, chB)
    requires i < |anchorsA| && j < |anchorsB| && anchorsA[i] == anchorsB[j]
    requires BlockOrdered(ev, cr, rs, get, anchorsA[i])
    ensures SafeColumns(cr, blocksA) ==> SendsBlock(cr, Columns(blocksA), blocksA, chA, i, blocksA[i])
    ensures !SafeColumns(cr, blocksA) ==> chA == []
    ensures SafeColumns(cr, blocksB) ==> SendsBlock(cr, Columns(blocksB), blocksB, chB, j, blocksA[i])
    ensures !SafeColumns(cr, blocksB) ==> chB == []
  {
    assert BlockFor(ev, cr, rs, get)(anchorsA[i], blocksA[i]) && BlockFor(ev, cr, rs, get)(anchorsB[j], blocksB[j]);
    BlockUnique(ev, cr, rs, get, anchorsA[i], blocksA[i], blocksB[j]);
    ScrapeIsExact(ev, cr, name, rs, get, anchorsA, blocksA, chA);
    if SafeColumns(cr, blocksA) { RelatedBlock(RowFor(cr, Columns(blocksA)), blocksA, chA, i); }
    ScrapeIsExact(ev, cr, name, rs, get, anchorsB, blocksB, chB);
    if SafeColumns(cr, blocksB) { RelatedBlock(RowFor(cr, Columns(blocksB)), blocksB, chB, j); }
  }

  // Without any condition: whatever a scrape may send for an anchor, any other
  // scrape over the same store that takes the anchor in may send too.
  lemma ScrapesMayAgree(ev: Evaluator, cr: CompiledRule, rs: seq<ResourceInfo>, get: Getter, anchorsA: seq<Object>,
                        blocksA: seq<seq<PendingSeries>>, i: nat, anchorsB: seq<Object>, j: nat)
    returns (blocksB: seq<seq<PendingSeries>>)
    requires MayBlocks(ev, cr, rs, get, anchorsA, blocksA)
    requires i < |anchorsA| && j < |anchorsB| && anchorsA[i] == anchorsB[j]
    ensures MayBlocks(ev, cr, rs, get, anchorsB, blocksB) && blocksB[j] == blocksA[i]
  {
    var some := BlocksExist(ev, cr, rs, get, anchorsB);
    assert BlockFor(ev, cr, rs, get)(anchorsA[i], blocksA[i]);
    RelatedUpdate(BlockFor(ev, cr, rs, get), anchorsB, some, j, blocksA[i]);
    blocksB := some[j := blocksA[i]];
  }

  // --------------------------------------------------------------- the class

  class Collector {
    const registry: Registry
    const informers: ScopedInformers
    const resolver: Resolver
    const evaluator: Evaluator
    const rules: seq<CompiledRule>
    const metricNames: map<string, string>
    // The self metrics: collects per rule name and result.
    var okCount: map<string, nat>
    var errorCount: map<string, nat>
    // Completed scrapes.
    ghost var collects: nat

    // What no scrape changes.
    ghost predicate Wired()
      reads this, resolver, informers, registry
    {
      && resolver.informers == informers && resolver.registry == registry && resolver.Valid()
      && AnchorsResolve(registry.resources, rules)
      && (forall i | 0 <= i < |rules| :: |rules[i].labels| == |rules[i].labelOrder|)
      && (forall i | 0 <= i < |rules| :: rules[i].rule.name in metricNames)
    }

    ghost predicate Valid()
      reads this, resolver, informers, registry
    {
      Wired() && Accounts(rules, 0, okCount, errorCount, collects)
    }

    constructor (registry: Registry, informers: ScopedInformers, resolver: Resolver, evaluator: Evaluator,
                 rules: seq<CompiledRule>, metricNames: map<string, string>)
      requires resolver.informers == informers && resolver.registry == registry && resolver.Valid()
      requires AnchorsResolve(registry.resources, rules)
      requires forall i | 0 <= i < |rules| :: |rules[i].labels| == |rules[i].labelOrder|
      requires forall i | 0 <= i < |rules| :: rules[i].rule.name in metricNames
      ensures Valid() && collects == 0
      ensures this.registry == registry && this.informers == informers && this.evaluator == evaluator
      ensures this.rules == rules && this.metricNames == metricNames
    {
      this.registry, this.informers, this.resolver, this.evaluator := registry, informers, resolver, evaluator;
      this.rules, this.metricNames := rules, metricNames;
      var zero: map<string, nat> := map[];
      for i := 0 to |rules|
        invariant forall j | 0 <= j < i :: rules[j].rule.name in zero
        invariant forall n | n in zero :: zero[n] == 0
      {
        zero := zero[rules[i].rule.name := 0];
      }
      okCount, errorCount, collects := zero, zero, 0;
    }

    // The part of `collectRule` that lists, materialises and emits.
    method ScrapeRule(cr: CompiledRule, info: ResourceInfo) returns (ch: seq<Metric>)
      requires resolver.informers == informers && resolver.registry == registry && resolver.Valid()
      requires CachesWellKeyed(informers.listers)
      requires |cr.labels| == |cr.labelOrder| && cr.rule.name in metricNames
      requires Lookup(registry.resources, cr.rule.anchor) == Success(info)
      modifies informers`gets, registry`kindToNames
      ensures resolver.Valid()
      ensures MayScrape(evaluator, cr, metricNames[cr.rule.name], registry.resources, informers.watch,
        informers.listers, ch)
    {
      ghost var rs, watch, listers := registry.resources, informers.watch, informers.listers;
      ghost var get := resolver.Reads();
      var name := metricNames[cr.rule.name];
      LookupIsWatched(rs, cr.rule.anchor);
      LookupByName(rs, info);
      var anchors, parts := informers.ListAll(info.name);
      assert MayList(rs, watch, listers, cr.rule.anchor, parts);
      if |anchors| == 0 {
        NothingToSend(evaluator, cr, name, rs, get);
        assert Flatten(parts) == [];
        return [];
      }
      var pending, dynamicKeys, blocks := MaterialiseSeries(resolver, evaluator, cr, anchors);
      BlocksAreFull(evaluator, cr, rs, get, anchors, blocks);
      ch := EmitSeries(name, cr.labelOrder, pending, dynamicKeys);
      assert SendsBlocks(cr, name, blocks, ch);
      assert MayBlocks(evaluator, cr, rs, StoreGetter(rs, watch, listers), Flatten(parts), blocks);
    }

    // `collectRule`: the outcome is counted under the rule's name.
    method CollectRule(cr: CompiledRule) returns (ch: seq<Metric>)
      requires resolver.informers == informers && resolver.registry == registry && resolver.Valid()
      requires CachesWellKeyed(informers.listers)
      requires |cr.labels| == |cr.labelOrder|
      requires cr.rule.name in metricNames && cr.rule.name in okCount && cr.rule.name in errorCount
      modifies this`okCount, this`errorCount, informers`gets, registry`kindToNames
      ensures resolver.Valid()
      ensures Lookup(registry.resources, cr.rule.anchor).Failure? ==>
        && ch == [] && okCount == old(okCount)
        && errorCount == old(errorCount)[cr.rule.name := old(errorCount)[cr.rule.name] + 1]
      ensures Lookup(registry.resources, cr.rule.anchor).Success? ==>
        && errorCount == old(errorCount)
        && okCount == old(okCount)[cr.rule.name := old(okCount)[cr.rule.name] + 1]
        && MayScrape(evaluator, cr, metricNames[cr.rule.name], registry.resources, informers.watch,
          informers.listers, ch)
    {
      var name := cr.rule.name;
      var anchor := registry.ResourceFor(cr.rule.anchor);
      if anchor.Failure? {
        errorCount := errorCount[name := errorCount[name] + 1];
        return [];
      }
      ghost var rs, watch, listers := registry.resources, informers.watch, informers.listers;
      ch := ScrapeRule(cr, anchor.value);
      assert MayScrape(evaluator, cr, metricNames[name], rs, watch, listers, ch);
      okCount := okCount[name := okCount[name] + 1];
    }

    // The body of the loop of `Collect`.
    method CollectTurn(i: nat) returns (ch: seq<Metric>)
      requires Wired() && CachesWellKeyed(informers.listers)
      requires i < |rules| && Accounts(rules, i, okCount, errorCount, collects)
      modifies this`okCount, this`errorCount, informers`gets, registry`kindToNames
      ensures Wired() && Accounts(rules, i + 1, okCount, errorCount, collects)
      ensures MayScrape(evaluator, rules[i], metricNames[rules[i].rule.name], registry.resources, informers.watch,
                        informers.listers, ch)
    {
      ghost var ok := okCount;
      ch := CollectRule(rules[i]);
      AccountsNext(rules, i, ok, errorCount, collects);
    }

    // `Collect`: one scrape. Every rule succeeds, so each run adds one to every
    // ok count and leaves every error count at zero.
    method Collect() returns (ch: seq<Metric>, ghost outs: seq<seq<Metric>>)
      requires Valid() && CachesWellKeyed(informers.listers)
      modifies this, informers`gets, registry`kindToNames
      ensures Valid() && collects == old(collects) + 1
      ensures ch == Flatten(outs)
      ensures MayCollect(evaluator, rules, metricNames, registry.resources, informers.watch, informers.listers, outs)
    {
      ghost var rs := registry.resources;
      ghost var rel := ScrapeFor(evaluator, metricNames, rs, informers.watch, informers.listers);
      ch, outs := [], [];
      for i := 0 to |rules|
        invariant Wired() && registry.resources == rs && collects == old(collects)
        invariant Accounts(rules, i, okCount, errorCount, collects)
        invariant ch == Flatten(outs)
        invariant |outs| == i && Related(rel, rules, outs)
      {
        var sent := CollectTurn(i);
        RelatedNext(rel, rules, outs, sent);
        FlattenSnoc(outs, sent);
        ch, outs := ch + sent, outs + [sent];
      }
      collects := collects + 1;
    }
  }

  ghost function ScrapeFor(ev: Evaluator, metricNames: map<string, string>, rs: seq<ResourceInfo>,
                           watch: seq<WatchResource>, listers: Listers): (CompiledRule, seq<Metric>) -> bool
  {
    (cr: CompiledRule, sent: seq<Metric>) =>
      cr.rule.name in metricNames && MayScrape(ev, cr, metricNames[cr.rule.name], rs, watch, listers, sent)
  }

  // What a scrape may send, rule after rule.
  ghost predicate MayCollect(ev: Evaluator, rules: seq<CompiledRule>, metricNames: map<string, string>,
                             rs: seq<ResourceInfo>, watch: seq<WatchResource>, listers: Listers, outs: seq<seq<Metric>>)
  {
    |outs| == |rules| && Related(ScrapeFor(ev, metricNames, rs, watch, listers), rules, outs)
  }

  lemma NothingToSend(ev: Evaluator, cr: CompiledRule, name: string, rs: seq<ResourceInfo>, get: Getter)
    ensures MayBlocks(ev, cr, rs, get, [], []) && SendsBlocks(cr, name, [], [])
  {
  }

  // The counters when `n` rules of the current scrape are done: every rule has
  // counted every completed scrape as ok and none as an error.
  ghost predicate Accounts(rules: seq<CompiledRule>, n: nat, okCount: map<string, nat>, errorCount: map<string, nat>,
                           collects: nat)
  {
    && (forall i | 0 <= i < |rules| ::
          && rules[i].rule.name in okCount && rules[i].rule.name in errorCount
          && errorCount[rules[i].rule.name] == 0)
    && (NamesDistinct(rules) ==> forall i | 0 <= i < |rules| ::
          okCount[rules[i].rule.name] == collects + if i < n then 1 else 0)
  }

  lemma AccountsNext(rules: seq<CompiledRule>, n: nat, okCount: map<string, nat>, errorCount: map<string, nat>,
                     collects: nat)
    requires n < |rules| && Accounts(rules, n, okCount, errorCount, collects)
    ensures var name := rules[n].rule.name;
      Accounts(rules, n + 1, okCount[name := okCount[name] + 1], errorCount, collects)
  {
  }

  // What `New` knows of each rule it compiled.
  ghost function BuiltFor(rs: seq<ResourceInfo>, prefix: string, metricNames: map<string, string>)
    : (Rule, CompiledRule) -> bool
  {
    (rule: Rule, cr: CompiledRule) =>
      Compiles(rule, cr) && Lookup(rs, rule.anchor).Success? && Named(rule, prefix, metricNames)
  }

  predicate Named(rule: Rule, prefix: string, metricNames: map<string, string>)
  {
    rule.name in metricNames && metricNames[rule.name] == prefix + rule.name
  }

  ghost predicate RulesBuilt(rs: seq<ResourceInfo>, prefix: string, rules: seq<Rule>, compiled: seq<CompiledRule>,
                             metricNames: map<string, string>)
  {
    |compiled| == |rules| && Related(BuiltFor(rs, prefix, metricNames), rules, compiled)
  }

  // A rule's metric name depends on its own name only, so naming one rule more
  // keeps what is known of the others.
  lemma NamesOneMore(rs: seq<ResourceInfo>, prefix: string, rules: seq<Rule>, compiled: seq<CompiledRule>,
                     metricNames: map<string, string>, name: string)
    requires Related(BuiltFor(rs, prefix, metricNames), rules, compiled)
    ensures Related(BuiltFor(rs, prefix, metricNames[name := prefix + name]), rules, compiled)
  {
    var more := metricNames[name := prefix + name];
    forall i | 0 <= i < |compiled| ensures BuiltFor(rs, prefix, more)(rules[i], compiled[i]) {
      assert BuiltFor(rs, prefix, metricNames)(rules[i], compiled[i]);
    }
  }

  lemma BuiltRules(rs: seq<ResourceInfo>, prefix: string, rules: seq<Rule>, compiled: seq<CompiledRule>,
                   metricNames: map<string, string>)
    requires RulesBuilt(rs, prefix, rules, compiled, metricNames)
    ensures AnchorsResolve(rs, compiled)
    ensures forall i | 0 <= i < |compiled| ::
      && |compiled[i].labels| == |compiled[i].labelOrder|
      && compiled[i].rule.name in metricNames
      && metricNames[compiled[i].rule.name] == prefix + compiled[i].rule.name
    ensures forall i | 0 <= i < |rules| :: RuleBuilds(rs, rules[i]) && compiled[i].rule == rules[i]
  {
    forall i | 0 <= i < |compiled|
      ensures |compiled[i].labels| == |compiled[i].labelOrder| && compiled[i].rule == rules[i]
        && AllPathsParse(rules[i]) {
      assert Compiles(rules[i], compiled[i]);
      CompiledParses(rules[i], compiled[i]);
    }
  }

  // The first rule that `New` refuses, and why.
  ghost predicate RuleRefused(rs: seq<ResourceInfo>, rules: seq<Rule>, e: NewError)
  {
    match e
    case BadWatch(_) => false
    case BadAnchor(i) => i < |rules| && FirstBuild(rs, rules, i) && Lookup(rs, rules[i].anchor).Failure?
    case BadRulePath(i, path) =>
      && i < |rules| && FirstBuild(rs, rules, i) && Lookup(rs, rules[i].anchor).Success?
      && FirstBad(RulePaths(rules[i])) == Some(path)
  }

  ghost predicate FirstBuild(rs: seq<ResourceInfo>, rules: seq<Rule>, n: nat)
    requires n <= |rules|
  {
    forall j | 0 <= j < n :: RuleBuilds(rs, rules[j])
  }

  ghost predicate NewFault(watch: seq<WatchResource>, rules: seq<Rule>, e: NewError)
  {
    || (e.BadWatch? && Offends(watch, false, e.registry))
    || (exists rs :: Declares(watch, false, rs) && RuleRefused(rs, rules, e))
  }

  lemma BuiltSoFar(rs: seq<ResourceInfo>, prefix: string, rules: seq<Rule>, compiled: seq<CompiledRule>,
                   metricNames: map<string, string>)
    requires Related(BuiltFor(rs, prefix, metricNames), rules, compiled)
    ensures FirstBuild(rs, rules, |compiled|)
  {
    forall j | 0 <= j < |compiled| ensures RuleBuilds(rs, rules[j]) {
      assert BuiltFor(rs, prefix, metricNames)(rules[j], compiled[j]);
      CompiledParses(rules[j], compiled[j]);
    }
  }

  // The loop of `New` over the rules.
  method BuildRules(registry: Registry, prefix: string, declared: seq<Rule>)
    returns (e: Option<NewError>, rules: seq<CompiledRule>, metricNames: map<string, string>)
    requires registry.Valid()
    modifies registry`kindToNames
    ensures registry.Valid()
    ensures e.None? ==> RulesBuilt(registry.resources, prefix, declared, rules, metricNames)
    ensures e.Some? ==> RuleRefused(registry.resources, declared, e.value)
  {
    ghost var rs := registry.resources;
    e, rules, metricNames := None, [], map[];
    for i := 0 to |declared|
      invariant registry.Valid() && registry.resources == rs
      invariant |rules| == i && Related(BuiltFor(rs, prefix, metricNames), declared, rules)
    {
      var rule := declared[i];
      var anchor := registry.ResourceFor(rule.anchor);
      if anchor.Failure? {
        BuiltSoFar(rs, prefix, declared, rules, metricNames);
        return Some(BadAnchor(i)), rules, metricNames;
      }
      var compiled := Compile(rule);
      if compiled.Failure? {
        BuiltSoFar(rs, prefix, declared, rules, metricNames);
        return Some(BadRulePath(i, compiled.error)), rules, metricNames;
      }
      NamesOneMore(rs, prefix, declared, rules, metricNames, rule.name);
      metricNames := metricNames[rule.name := prefix + rule.name];
      RelatedNext(BuiltFor(rs, prefix, metricNames), declared, rules, compiled.value);
      rules := rules + [compiled.value];
    }
  }

  // `New`. It succeeds exactly when the configuration builds.
  method New(cfg: Config, evaluator: Evaluator) returns (r: Result<Collector, NewError>)
    ensures r.Success? <==> Builds(cfg.resources, cfg.rules)
    ensures r.Failure? ==> NewFault(cfg.resources, cfg.rules, r.error)
    ensures r.Success? ==>
      var c := r.value;
      && fresh(c) && fresh(c.registry) && c.Valid() && c.collects == 0 && c.evaluator == evaluator
      && Declares(cfg.resources, false, c.registry.resources)
      && c.informers.watch == cfg.resources && AllEmpty(c.informers.listers)
      && RulesBuilt(c.registry.resources, cfg.metricPrefix, cfg.rules, c.rules, c.metricNames)
      && (ConfigOk(cfg.metricPrefix, cfg.resources, cfg.discoveryEnabled, cfg.rules) ==> NamesDistinct(c.rules))
  {
    var built := BuildRegistry(cfg.resources, false);
    if built.Failure? {
      return Failure(BadWatch(built.error));
    }
    var registry := built.value;
    ghost var rs := registry.resources;
    var informers := new ScopedInformers(cfg.resources, registry);
    var resolver := new Resolver(informers, registry);
    var e, rules, metricNames := BuildRules(registry, cfg.metricPrefix, cfg.rules);
    if e.Some? {
      DoesNotBuild(cfg.resources, cfg.rules, rs, e.value);
      return Failure(e.value);
    }
    BuiltRules(rs, cfg.metricPrefix, cfg.rules, rules, metricNames);
    if ConfigOk(cfg.metricPrefix, cfg.resources, cfg.discoveryEnabled, cfg.rules) {
      ValidatedNamesDistinct(cfg.metricPrefix, cfg.resources, cfg.discoveryEnabled, cfg.rules, rules);
    }
    var c := new Collector(registry, informers, resolver, evaluator, rules, metricNames);
    return Success(c);
  }

  // No prefix is a lone `_`, and no fixed label of its rule begins with it.
  predicate PrefixesApart(rule: Rule)
  {
    forall i | 0 <= i < |rule.expandLabels| ::
      && rule.expandLabels[i].prefix != "_"
      && forall name | name in rule.labels :: !(rule.expandLabels[i].prefix <= name)
  }

  lemma PrefixesApartCompiled(rs: seq<ResourceInfo>, rule: Rule, cr: CompiledRule)
    requires RuleOk(rs, rule) && PrefixesApart(rule) && Compiles(rule, cr)
    ensures GoodNames(cr) && SafeNames(cr) && |cr.labels| == |cr.labelOrder|
  {
    ValidatedNames(rs, rule, cr);
    PrefixesApartNames(rule, cr);
    PrefixesKeepNamesSafe(cr);
  }

  lemma PrefixesApartNames(rule: Rule, cr: CompiledRule)
    requires PrefixesApart(rule) && Compiles(rule, cr)
    ensures NoLoneUnderscore(cr)
    ensures forall i, j | 0 <= i < |cr.expands| && 0 <= j < |cr.labelOrder| ::
      !(cr.expands[i].prefix <= cr.labelOrder[j])
  {
    ListsMembers(cr.labelOrder, rule.labels.Keys);
    forall i | 0 <= i < |cr.expands| ensures cr.expands[i].prefix == rule.expandLabels[i].prefix {
      assert ExpandCompiles(rule.expandLabels[i], cr.expands[i]);
    }
    forall i, j | 0 <= i < |cr.expands| && 0 <= j < |cr.labelOrder|
      ensures !(cr.expands[i].prefix <= cr.labelOrder[j]) {
      assert cr.labelOrder[j] in rule.labels;
    }
  }

  // What reaches the channel is faithful to some series of the listed anchors.
  ghost predicate FaithfulScrape(ev: Evaluator, cr: CompiledRule, rs: seq<ResourceInfo>, watch: seq<WatchResource>,
                                 listers: Listers, ch: seq<Metric>)
  {
    exists parts, blocks ::
      && MayList(rs, watch, listers, cr.rule.anchor, parts)
      && MayBlocks(ev, cr, rs, StoreGetter(rs, watch, listers), Flatten(parts), blocks)
      && Faithful(cr, Columns(blocks), Flatten(blocks), ch)
  }

  // End to end: under a validated configuration whose prefixes stand apart, no
  // scrape of any rule drops a row or loses a value.
  lemma EveryScrapeIsFaithful(ev: Evaluator, prefix: string, rs: seq<ResourceInfo>, rules: seq<Rule>,
                              compiled: seq<CompiledRule>, metricNames: map<string, string>, watch: seq<WatchResource>,
                              listers: Listers, outs: seq<seq<Metric>>, i: nat)
    requires RulesOk(prefix, rs, rules) && RulesBuilt(rs, prefix, rules, compiled, metricNames)
    requires MayCollect(ev, compiled, metricNames, rs, watch, listers, outs)
    requires i < |rules| && PrefixesApart(rules[i])
    ensures FaithfulScrape(ev, compiled[i], rs, watch, listers, outs[i])
  {
    var cr, name := compiled[i], prefix + rules[i].name;
    assert Compiles(rules[i], cr);
    PrefixesApartCompiled(rs, rules[i], cr);
    assert metricNames[cr.rule.name] == name;
    var parts, blocks :|
      && MayList(rs, watch, listers, cr.rule.anchor, parts)
      && MayBlocks(ev, cr, rs, StoreGetter(rs, watch, listers), Flatten(parts), blocks)
      && SendsBlocks(cr, name, blocks, outs[i]);
    ScrapeIsFaithful(ev, cr, name, rs, StoreGetter(rs, watch, listers), Flatten(parts), blocks, outs[i]);
  }

  ghost function CollectFor(ev: Evaluator, rules: seq<CompiledRule>, metricNames: map<string, string>,
                            rs: seq<ResourceInfo>, watch: seq<WatchResource>): (Listers, seq<seq<Metric>>) -> bool
  {
    (listers, outs) => MayCollect(ev, rules, metricNames, rs, watch, listers, outs)
  }

  // What a run may send, scrape after scrape.
  ghost predicate MayRun(ev: Evaluator, rules: seq<CompiledRule>, metricNames: map<string, string>,
                         rs: seq<ResourceInfo>, watch: seq<WatchResource>, snapshots: seq<Listers>,
                         sent: seq<seq<seq<Metric>>>)
  {
    |sent| == |snapshots| && Related(CollectFor(ev, rules, metricNames, rs, watch), snapshots, sent)
  }

  // Contents the informers of a collector can leave in its caches.
  ghost predicate Fits(informers: ScopedInformers, contents: Listers)
    reads informers
  {
    && informers.nameSet <= informers.namespaces.Keys
    && Shaped(informers.namespaces, informers.nameSet, contents)
    && CachesWellKeyed(contents)
  }

  // A whole run: between scrapes the informers leave each time other contents
  // in the caches. Every scrape completes, and every rule has counted every one
  // of them as ok and none as an error.
  method Run(c: Collector, snapshots: seq<Listers>) returns (ghost sent: seq<seq<seq<Metric>>>)
    requires c.Valid() && forall i | 0 <= i < |snapshots| :: Fits(c.informers, snapshots[i])
    modifies c, c.informers`listers, c.informers`gets, c.registry`kindToNames
    ensures c.Valid() && c.collects == old(c.collects) + |snapshots|
    ensures NamesDistinct(c.rules) ==> forall i | 0 <= i < |c.rules| ::
      c.okCount[c.rules[i].rule.name] == c.collects && c.errorCount[c.rules[i].rule.name] == 0
    ensures MayRun(c.evaluator, c.rules, c.metricNames, c.registry.resources, c.informers.watch, snapshots, sent)
  {
    ghost var rs := c.registry.resources;
    ghost var rel := CollectFor(c.evaluator, c.rules, c.metricNames, rs, c.informers.watch);
    sent := [];
    for i := 0 to |snapshots|
      invariant c.Valid() && c.registry.resources == rs
      invariant c.collects == old(c.collects) + i
      invariant |sent| == i && Related(rel, snapshots, sent)
    {
      assert Fits(c.informers, snapshots[i]);
      c.informers.Fill(snapshots[i]);
      var _, outs := c.Collect();
      RelatedNext(rel, snapshots, sent, outs);
      sent := sent + [outs];
    }
  }

  // Contents that informers started for this watch list can leave in the caches.
  ghost predicate FitsWatch(watch: seq<WatchResource>, rs: seq<ResourceInfo>, contents: Listers)
  {
    var scopes := ScopeTable(watch, rs);
    Shaped(scopes, scopes.Keys, contents) && CachesWellKeyed(contents)
  }

  // Whatever the watch list declares, the informers can leave these in the caches.
  ghost predicate AlwaysFit(watch: seq<WatchResource>, snapshots: seq<Listers>)
  {
    forall rs, i | Declares(watch, false, rs) && 0 <= i < |snapshots| :: FitsWatch(watch, rs, snapshots[i])
  }

  lemma AllFit(informers: ScopedInformers, snapshots: seq<Listers>)
    requires informers.Valid() && AlwaysFit(informers.watch, snapshots)
    requires Declares(informers.watch, false, informers.registry.resources)
    ensures forall i | 0 <= i < |snapshots| :: Fits(informers, snapshots[i])
  {
    forall i | 0 <= i < |snapshots| ensures Fits(informers, snapshots[i]) {
      assert FitsWatch(informers.watch, informers.registry.resources, snapshots[i]);
    }
  }

  lemma SameRules(rs: seq<ResourceInfo>, prefix: string, rules: seq<Rule>, compiled: seq<CompiledRule>,
                  metricNames: map<string, string>)
    requires RulesBuilt(rs, prefix, rules, compiled, metricNames)
    ensures |compiled| == |rules| && forall i | 0 <= i < |rules| :: compiled[i].rule.name == rules[i].name
  {
    BuiltRules(rs, prefix, rules, compiled, metricNames);
  }

  lemma CountsAll(c: Collector, rules: seq<Rule>)
    requires c.Valid() && NamesDistinct(c.rules)
    requires |c.rules| == |rules| && forall i | 0 <= i < |rules| :: c.rules[i].rule.name == rules[i].name
    ensures forall i | 0 <= i < |rules| ::
      && rules[i].name in c.okCount && c.okCount[rules[i].name] == c.collects
      && rules[i].name in c.errorCount && c.errorCount[rules[i].name] == 0
  {
    forall i | 0 <= i < |rules|
      ensures rules[i].name in c.okCount && c.okCount[rules[i].name] == c.collects
      ensures rules[i].name in c.errorCount && c.errorCount[rules[i].name] == 0 {
      assert c.rules[i].rule.name in c.okCount;
    }
  }

  // From a validated configuration to its counters: it serves unless a path is
  // malformed or a resource unresolved, and then, over any sequence of scrapes,
  // every rule has counted each of them as ok and none as an error.
  method Serve(cfg: Config, evaluator: Evaluator, snapshots: seq<Listers>)
    returns (r: Result<Collector, NewError>, ghost sent: seq<seq<seq<Metric>>>)
    requires ConfigOk(cfg.metricPrefix, cfg.resources, cfg.discoveryEnabled, cfg.rules)
    requires AlwaysFit(cfg.resources, snapshots)
    ensures r.Success? <==> Builds(cfg.resources, cfg.rules)
    ensures r.Success? ==> forall i | 0 <= i < |cfg.rules| ::
      && cfg.rules[i].name in r.value.okCount && r.value.okCount[cfg.rules[i].name] == |snapshots|
      && cfg.rules[i].name in r.value.errorCount && r.value.errorCount[cfg.rules[i].name] == 0
  {
    sent := [];
    r := New(cfg, evaluator);
    if r.Failure? {
      return;
    }
    var c := r.value;
    SameRules(c.registry.resources, cfg.metricPrefix, cfg.rules, c.rules, c.metricNames);
    AllFit(c.informers, snapshots);
    sent := Run(c, snapshots);
    CountsAll(c, cfg.rules);
  }
}
