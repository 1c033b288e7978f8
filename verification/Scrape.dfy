// One rule's scrape (pkg/collector/collector.go): series are materialised per
// anchor, their dynamic keys are united, and rows are padded to that union.
module Scrapes {
  import opened Wrappers
  import opened Sequences
  import opened Text
  import opened Resources
  import opened PathSyntax
  import opened PathEval
  import opened Objects
  import opened Resolvers
  import opened Rules
  import opened Evaluators

  datatype PendingSeries = PendingSeries(fixed: seq<string>, dynamic: map<string, string>)

  datatype Metric = Metric(name: string, labelNames: seq<string>, values: seq<string>)

  // ------------------------------------------------------------- one series

  // Later expand entries overwrite earlier ones.
  function MergeAll(outs: seq<map<string, string>>): map<string, string>
  {
    if outs == [] then map[] else MergeAll(outs[..|outs| - 1]) + outs[|outs| - 1]
  }

  lemma MergeSnoc(outs: seq<map<string, string>>, out: map<string, string>)
    ensures MergeAll(outs + [out]) == MergeAll(outs) + out
  {
    assert (outs + [out])[..|outs|] == outs;
  }

  ghost function TextFor(ev: Evaluator, lookup: SrcLookup): (CompiledLabel, string) -> bool
  {
    (cl, text) => ev.MayLabel(cl, lookup, text)
  }

  ghost function LabelsFor(ev: Evaluator, lookup: SrcLookup): (CompiledExpand, map<string, string>) -> bool
  {
    (ce, out) => ev.MayExpand(ce, lookup, out)
  }

  ghost predicate MayFix(ev: Evaluator, cr: CompiledRule, lookup: SrcLookup, fixed: seq<string>)
  {
    |fixed| == |cr.labels| && Related(TextFor(ev, lookup), cr.labels, fixed)
  }

  ghost predicate MayExpandAll(ev: Evaluator, cr: CompiledRule, lookup: SrcLookup, outs: seq<map<string, string>>)
  {
    |outs| == |cr.expands| && Related(LabelsFor(ev, lookup), cr.expands, outs)
  }

  ghost predicate MaySeries(ev: Evaluator, cr: CompiledRule, lookup: SrcLookup, ps: PendingSeries)
  {
    && MayFix(ev, cr, lookup, ps.fixed)
    && exists outs :: MayExpandAll(ev, cr, lookup, outs) && ps.dynamic == MergeAll(outs)
  }

  method EvaluateOneSeries(ev: Evaluator, cr: CompiledRule, lookup: SrcLookup) returns (ps: PendingSeries)
    ensures MaySeries(ev, cr, lookup, ps)
  {
    ghost var textFor, labelsFor := TextFor(ev, lookup), LabelsFor(ev, lookup);
    var fixed: seq<string> := [];
    for i := 0 to |cr.labels|
      invariant |fixed| == i && Related(textFor, cr.labels, fixed)
    {
      var text := ev.EvaluateLabel(cr.labels[i], lookup);
      RelatedNext(textFor, cr.labels, fixed, text);
      fixed := fixed + [text];
    }
    var dynamic: map<string, string> := map[];
    ghost var outs: seq<map<string, string>> := [];
    for i := 0 to |cr.expands|
      invariant |outs| == i && Related(labelsFor, cr.expands, outs)
      invariant dynamic == MergeAll(outs)
    {
      var out := ev.EvaluateExpand(cr.expands[i], lookup);
      RelatedNext(labelsFor, cr.expands, outs, out);
      MergeSnoc(outs, out);
      outs := outs + [out];
      dynamic := dynamic + out;
    }
    assert MayExpandAll(ev, cr, lookup, outs);
    return PendingSeries(fixed, dynamic);
  }

  // --------------------------------------------------- the series of an anchor

  // Chain objects that do not convert are left out of the sources.
  function SourcesOf(ev: Evaluator, chain: Chain): map<string, map<string, Value>>
  {
    map k | k in chain && ev.convert(chain[k]).Some? :: ev.convert(chain[k]).value
  }

  // A block: the series of one anchor, one per forEach item, none if the anchor
  // does not convert. It depends on the anchor, the rule and the store alone.
  ghost predicate MayBlock(ev: Evaluator, cr: CompiledRule, rs: seq<ResourceInfo>, get: Getter, anchor: Object,
                           block: seq<PendingSeries>)
  {
    match ev.convert(anchor)
    case None => block == []
    case Some(m) =>
      exists items :: MayItems(cr.forEach, m, items)
        && MayItemBlock(ev, cr, SourcesOf(ev, ChainOf(rs, get, anchor)), items, block)
  }

  ghost function SeriesFor(ev: Evaluator, cr: CompiledRule, sources: map<string, map<string, Value>>)
    : (Option<map<string, Value>>, PendingSeries) -> bool
  {
    (item, ps) => MaySeries(ev, cr, SrcLookup(sources, item), ps)
  }

  ghost predicate MayItemBlock(ev: Evaluator, cr: CompiledRule, sources: map<string, map<string, Value>>,
                               items: seq<Option<map<string, Value>>>, block: seq<PendingSeries>)
  {
    |block| == |items| && Related(SeriesFor(ev, cr, sources), items, block)
  }

  ghost function BlockFor(ev: Evaluator, cr: CompiledRule, rs: seq<ResourceInfo>, get: Getter)
    : (Object, seq<PendingSeries>) -> bool
  {
    (anchor, block) => MayBlock(ev, cr, rs, get, anchor, block)
  }

  ghost predicate MayBlocks(ev: Evaluator, cr: CompiledRule, rs: seq<ResourceInfo>, get: Getter, anchors: seq<Object>,
                            blocks: seq<seq<PendingSeries>>)
  {
    |blocks| == |anchors| && Related(BlockFor(ev, cr, rs, get), anchors, blocks)
  }

  method SourceMaps(ev: Evaluator, chain: Chain) returns (sources: map<string, map<string, Value>>)
    ensures sources == SourcesOf(ev, chain)
  {
    sources := map[];
    var todo := chain.Keys;
    while todo != {}
      invariant todo <= chain.Keys
      invariant sources == map k | k in chain && k !in todo && ev.convert(chain[k]).Some? :: ev.convert(chain[k]).value
      decreases todo
    {
      var k :| k in todo;
      todo := todo - {k};
      var m := ev.convert(chain[k]);
      if m.None? {
        continue;
      }
      sources := sources[k := m.value];
    }
  }

  // The dynamic label names of a list of series.
  function DynamicKeys(pending: seq<PendingSeries>): set<string>
  {
    if pending == [] then {} else DynamicKeys(pending[..|pending| - 1]) + pending[|pending| - 1].dynamic.Keys
  }

  // The dynamic columns of a scrape: the union of the keys, sorted.
  ghost function Columns(blocks: seq<seq<PendingSeries>>): seq<string>
  {
    Ascending(DynamicKeys(Flatten(blocks)))
  }

  // The body of its outer loop: the series of one anchor.
  method AnchorSeries(resolver: Resolver, ev: Evaluator, cr: CompiledRule, anchor: Object)
    returns (series: seq<PendingSeries>, keys: set<string>)
    requires resolver.Valid()
    modifies resolver.informers`gets, resolver.registry`kindToNames
    ensures resolver.Valid()
    ensures resolver.informers.gets <= old(resolver.informers.gets) + MAX_DEPTH
    ensures MayBlock(ev, cr, resolver.registry.resources, resolver.Reads(), anchor, series)
    ensures keys == DynamicKeys(series)
  {
    var anchorMap := ev.convert(anchor);
    if anchorMap.None? {
      return [], {};
    }
    ReadsAreBounded(resolver.registry.resources, resolver.Reads(), anchor);
    var chain := resolver.Resolve(anchor);
    var sources := SourceMaps(ev, chain);
    var items := ev.EvaluateForEach(cr.forEach, anchorMap.value);
    series, keys := ItemSeries(ev, cr, sources, items);
  }

  // `materialiseSeries`. Its error result is always nil and is not modelled.
  method MaterialiseSeries(resolver: Resolver, ev: Evaluator, cr: CompiledRule, anchors: seq<Object>)
    returns (pending: seq<PendingSeries>, dynamicKeys: seq<string>, ghost blocks: seq<seq<PendingSeries>>)
    requires resolver.Valid()
    modifies resolver.informers`gets, resolver.registry`kindToNames
    ensures resolver.Valid()
    ensures resolver.informers.gets <= old(resolver.informers.gets) + MAX_DEPTH * |anchors|
    ensures pending == Flatten(blocks)
    ensures MayBlocks(ev, cr, resolver.registry.resources, resolver.Reads(), anchors, blocks)
    ensures dynamicKeys == Columns(blocks)
  {
    ghost var rs, get := resolver.registry.resources, resolver.Reads();
    ghost var rel := BlockFor(ev, cr, rs, get);
    pending, blocks := [], [];
    var dynamicSet: set<string> := {};
    for i := 0 to |anchors|
      invariant resolver.Valid() && resolver.registry.resources == rs && resolver.Reads() == get
      invariant resolver.informers.gets <= old(resolver.informers.gets) + MAX_DEPTH * i
      invariant pending == Flatten(blocks) && dynamicSet == DynamicKeys(pending)
      invariant |blocks| == i && Related(rel, anchors, blocks)
    {
      var series, keys := AnchorSeries(resolver, ev, cr, anchors[i]);
      DynamicKeysAppend(pending, series);
      FlattenSnoc(blocks, series);
      RelatedNext(rel, anchors, blocks, series);
      dynamicSet := dynamicSet + keys;
      pending := pending + series;
      blocks := blocks + [series];
    }
    dynamicKeys := RangeSet(dynamicSet);
    SortedListing(dynamicKeys, dynamicSet);
    dynamicKeys := SortStrings(dynamicKeys);
  }

  // The inner loop: one series per item.
  method ItemSeries(ev: Evaluator, cr: CompiledRule, sources: map<string, map<string, Value>>,
                    items: seq<Option<map<string, Value>>>) returns (series: seq<PendingSeries>, keys: set<string>)
    ensures MayItemBlock(ev, cr, sources, items, series)
    ensures keys == DynamicKeys(series)
  {
    ghost var rel := SeriesFor(ev, cr, sources);
    series, keys := [], {};
    for j := 0 to |items|
      invariant |series| == j && Related(rel, items, series)
      invariant keys == DynamicKeys(series)
    {
      var ps := EvaluateOneSeries(ev, cr, SrcLookup(sources, items[j]));
      RelatedNext(rel, items, series, ps);
      DynamicKeysNext(series, ps);
      keys := keys + ps.dynamic.Keys;
      series := series + [ps];
    }
  }

  lemma DynamicKeysNext(series: seq<PendingSeries>, ps: PendingSeries)
    ensures DynamicKeys(series + [ps]) == DynamicKeys(series) + ps.dynamic.Keys
  {
    assert (series + [ps])[..|series|] == series;
  }

  lemma {:induction false} DynamicKeysAppend(a: seq<PendingSeries>, b: seq<PendingSeries>)
    ensures DynamicKeys(a + b) == DynamicKeys(a) + DynamicKeys(b)
    decreases |b|
  {
    if b == [] {
      assert a + b == a;
    } else {
      assert (a + b)[..|a + b| - 1] == a + b[..|b| - 1];
      DynamicKeysAppend(a, b[..|b| - 1]);
    }
  }

  // ------------------------------------------------------------------ emission

  // When `NewDesc` yields a usable descriptor; `NewConstMetric` fails otherwise.
  predicate DescAccepts(name: string, labelNames: seq<string>)
  {
    && IsMetricName(name)
    && (forall i | 0 <= i < |labelNames| :: IsLabelName(labelNames[i]) && !IsReserved(labelNames[i]))
    && Distinct(labelNames)
  }

  function Cell(ps: PendingSeries, key: string): string
  {
    if key in ps.dynamic then ps.dynamic[key] else ""
  }

  // A series padded to the columns of the scrape.
  function Row(ps: PendingSeries, dynamicKeys: seq<string>): (row: seq<string>)
    ensures |row| == |ps.fixed| + |dynamicKeys|
  {
    ps.fixed + seq(|dynamicKeys|, i requires 0 <= i < |dynamicKeys| => Cell(ps, dynamicKeys[i]))
  }

  ghost predicate Emits(name: string, fixedNames: seq<string>, dynamicKeys: seq<string>, pending: seq<PendingSeries>,
                        ch: seq<Metric>)
  {
    && |ch| == |pending|
    && forall i | 0 <= i < |ch| :: ch[i] == Metric(name, fixedNames + dynamicKeys, Row(pending[i], dynamicKeys))
  }

  // `emitSeries`. Every row is built in one buffer that is never cleared.
  method EmitSeries(name: string, labelOrder: seq<string>, pending: seq<PendingSeries>, dynamicKeys: seq<string>)
    returns (ch: seq<Metric>)
    requires forall i | 0 <= i < |pending| :: |pending[i].fixed| == |labelOrder|
    ensures DescAccepts(name, labelOrder + dynamicKeys) ==> Emits(name, labelOrder, dynamicKeys, pending, ch)
    ensures !DescAccepts(name, labelOrder + dynamicKeys) ==> ch == []
  {
    var labelNames := labelOrder + dynamicKeys;
    var usable := DescAccepts(name, labelNames);
    var n := |labelOrder|;
    var values := new string[|labelNames|](_ => "");
    ch := [];
    for k := 0 to |pending|
      invariant usable ==> Emits(name, labelOrder, dynamicKeys, pending[..k], ch)
      invariant !usable ==> ch == []
    {
      var ps := pending[k];
      for i := 0 to n
        invariant forall j | 0 <= j < i :: values[j] == ps.fixed[j]
      {
        values[i] := ps.fixed[i];
      }
      for i := 0 to |dynamicKeys|
        invariant forall j | 0 <= j < n :: values[j] == ps.fixed[j]
        invariant forall j | 0 <= j < i :: values[n + j] == Cell(ps, dynamicKeys[j])
      {
        values[n + i] := if dynamicKeys[i] in ps.dynamic then ps.dynamic[dynamicKeys[i]] else "";
      }
      assert values[..] == Row(ps, dynamicKeys);
      assert pending[..k + 1] == pending[..k] + [ps];
      if !usable {
        continue;
      }
      ch := ch + [Metric(name, labelNames, values[..])];
    }
    assert pending[..|pending|] == pending;
  }

  // ---------------------------------------------------- alignment is lossless

  // Reads a row back, dropping the empty dynamic columns.
  function Decode(fixedCount: nat, dynamicKeys: seq<string>, row: seq<string>): PendingSeries
    requires |row| == fixedCount + |dynamicKeys|
  {
    PendingSeries(row[..fixedCount], DecodeCells(dynamicKeys, row[fixedCount..]))
  }

  function DecodeCells(keys: seq<string>, cells: seq<string>): map<string, string>
    requires |keys| == |cells|
  {
    if keys == [] then map[]
    else
      var rest := DecodeCells(keys[1..], cells[1..]);
      if cells[0] == "" then rest else rest[keys[0] := cells[0]]
  }

  ghost predicate Full(ps: PendingSeries)
  {
    forall k | k in ps.dynamic :: ps.dynamic[k] != ""
  }

  lemma {:induction false} DecodeCellsAt(keys: seq<string>, cells: seq<string>, k: string)
    requires |keys| == |cells| && Distinct(keys)
    ensures k in DecodeCells(keys, cells) <==> exists i | 0 <= i < |keys| :: keys[i] == k && cells[i] != ""
    ensures forall i | 0 <= i < |keys| && keys[i] == k && cells[i] != "" :: DecodeCells(keys, cells)[k] == cells[i]
  {
    if keys != [] {
      DecodeCellsAt(keys[1..], cells[1..], k);
      assert forall i | 0 < i < |keys| :: keys[i] == keys[1..][i - 1] && cells[i] == cells[1..][i - 1];
    }
  }

  // Padding loses nothing: whatever columns a scrape has, a row gives back its
  // own series, as long as they include the keys of the series.
  lemma RowRecovers(ps: PendingSeries, dynamicKeys: seq<string>)
    requires Full(ps) && Distinct(dynamicKeys) && forall k | k in ps.dynamic :: k in dynamicKeys
    ensures Decode(|ps.fixed|, dynamicKeys, Row(ps, dynamicKeys)) == ps
  {
    var row := Row(ps, dynamicKeys);
    var cells := row[|ps.fixed|..];
    assert row[..|ps.fixed|] == ps.fixed;
    assert forall i | 0 <= i < |dynamicKeys| :: cells[i] == Cell(ps, dynamicKeys[i]);
    CellsRecover(ps, dynamicKeys, cells);
  }

  lemma CellsRecover(ps: PendingSeries, keys: seq<string>, cells: seq<string>)
    requires Full(ps) && Distinct(keys) && forall k | k in ps.dynamic :: k in keys
    requires |cells| == |keys| && forall i | 0 <= i < |keys| :: cells[i] == Cell(ps, keys[i])
    ensures DecodeCells(keys, cells) == ps.dynamic
  {
    var decoded := DecodeCells(keys, cells);
    forall k ensures k in decoded <==> k in ps.dynamic
             ensures k in decoded ==> decoded[k] == ps.dynamic[k] {
      DecodeCellsAt(keys, cells, k);
    }
  }

  // Every series the evaluator may produce has only non-empty dynamic values.
  lemma SeriesAreFull(ev: Evaluator, cr: CompiledRule, lookup: SrcLookup, ps: PendingSeries)
    requires MaySeries(ev, cr, lookup, ps)
    ensures Full(ps)
  {
    var outs :| MayExpandAll(ev, cr, lookup, outs) && ps.dynamic == MergeAll(outs);
    forall k | k in ps.dynamic ensures ps.dynamic[k] != "" {
      var i := MergedFrom(outs, k);
      ev.ExpandIsFull(cr.expands[i], lookup, outs[i]);
    }
  }

  lemma {:induction false} MergedFrom(outs: seq<map<string, string>>, k: string) returns (i: nat)
    requires k in MergeAll(outs)
    ensures i < |outs| && k in outs[i] && outs[i][k] == MergeAll(outs)[k]
    ensures forall j | i < j < |outs| :: k !in outs[j]
  {
    i := |outs| - 1;
    if k !in outs[i] {
      i := MergedFrom(outs[..|outs| - 1], k);
    }
  }

  lemma {:induction false} MergeHas(outs: seq<map<string, string>>, i: nat, k: string)
    requires i < |outs| && k in outs[i]
    ensures k in MergeAll(outs)
  {
    if i < |outs| - 1 { MergeHas(outs[..|outs| - 1], i, k); }
  }

  // ----------------------------------------------------------- column exactness

  // The columns are exactly the dynamic names some series carries, strictly
  // ascending, and every column is filled in at least one row.
  lemma ColumnsExact(pending: seq<PendingSeries>)
    requires forall i | 0 <= i < |pending| :: Full(pending[i])
    ensures var columns := Ascending(DynamicKeys(pending));
      && StrictlySorted(columns)
      && (forall i, k | 0 <= i < |pending| && k in pending[i].dynamic :: k in columns)
      && (forall k | k in columns :: exists i | 0 <= i < |pending| :: Cell(pending[i], k) != "")
  {
    var columns := Ascending(DynamicKeys(pending));
    ListsMembers(columns, DynamicKeys(pending));
    forall i, k | 0 <= i < |pending| && k in pending[i].dynamic ensures k in columns { DynamicKeyOf(pending, k); }
    forall j | 0 <= j < |columns| ensures exists i | 0 <= i < |pending| :: Cell(pending[i], columns[j]) != "" {
      FilledColumn(pending, columns[j]);
    }
  }

  lemma FilledColumn(pending: seq<PendingSeries>, k: string)
    requires k in DynamicKeys(pending) && forall i | 0 <= i < |pending| :: Full(pending[i])
    ensures exists i | 0 <= i < |pending| :: Cell(pending[i], k) != ""
  {
    DynamicKeyOf(pending, k);
    var i :| 0 <= i < |pending| && k in pending[i].dynamic;
    assert Cell(pending[i], k) != "";
  }

  lemma {:induction false} DynamicKeyOf(pending: seq<PendingSeries>, k: string)
    ensures k in DynamicKeys(pending) <==> exists i | 0 <= i < |pending| :: k in pending[i].dynamic
  {
    if pending != [] {
      var init, last := pending[..|pending| - 1], |pending| - 1;
      DynamicKeyOf(init, k);
      assert forall i | 0 <= i < last :: init[i] == pending[i];
      if k in DynamicKeys(init) {
        var i :| 0 <= i < |init| && k in init[i].dynamic;
        assert k in pending[i].dynamic;
      }
    }
  }

  // --------------------------------------------------- a scrape, end to end

  lemma BlockIsFull(ev: Evaluator, cr: CompiledRule, rs: seq<ResourceInfo>, get: Getter, anchor: Object,
                    block: seq<PendingSeries>)
    requires MayBlock(ev, cr, rs, get, anchor, block)
    ensures forall ps | ps in block :: Full(ps) && |ps.fixed| == |cr.labels|
  {
    if ev.convert(anchor).Some? {
      var sources := SourcesOf(ev, ChainOf(rs, get, anchor));
      var items :| MayItems(cr.forEach, ev.convert(anchor).value, items) && MayItemBlock(ev, cr, sources, items, block);
      forall ps | ps in block ensures Full(ps) && |ps.fixed| == |cr.labels| {
        var j :| 0 <= j < |block| && block[j] == ps;
        SeriesAreFull(ev, cr, SrcLookup(sources, items[j]), ps);
      }
    }
  }

  lemma BlocksAreFull(ev: Evaluator, cr: CompiledRule, rs: seq<ResourceInfo>, get: Getter, anchors: seq<Object>,
                      blocks: seq<seq<PendingSeries>>)
    requires MayBlocks(ev, cr, rs, get, anchors, blocks)
    ensures forall i | 0 <= i < |Flatten(blocks)| ::
      Full(Flatten(blocks)[i]) && |Flatten(blocks)[i].fixed| == |cr.labels|
  {
    forall ps | ps in Flatten(blocks) ensures Full(ps) && |ps.fixed| == |cr.labels| {
      FlattenMember(blocks, ps);
      var i :| 0 <= i < |blocks| && ps in blocks[i];
      BlockIsFull(ev, cr, rs, get, anchors[i], blocks[i]);
    }
  }

  // Alignment is lossless: every row of a scrape gives back the series of its
  // own anchor, block after block in anchor order, whatever the other anchors.
  lemma RowsRecoverBlocks(ev: Evaluator, cr: CompiledRule, rs: seq<ResourceInfo>, get: Getter, anchors: seq<Object>,
                          blocks: seq<seq<PendingSeries>>)
    requires MayBlocks(ev, cr, rs, get, anchors, blocks)
    ensures forall i | 0 <= i < |Flatten(blocks)| :: |Flatten(blocks)[i].fixed| == |cr.labels|
    ensures forall i | 0 <= i < |Flatten(blocks)| :: Recovers(|cr.labels|, Columns(blocks), Flatten(blocks)[i])
  {
    var pending, columns := Flatten(blocks), Columns(blocks);
    BlocksAreFull(ev, cr, rs, get, anchors, blocks);
    ColumnsExact(pending);
    forall i | 0 <= i < |pending| ensures Recovers(|cr.labels|, columns, pending[i]) {
      RowRecovers(pending[i], columns);
    }
  }

  // The padded row of a series decodes to the series.
  ghost predicate Recovers(fixedCount: nat, columns: seq<string>, ps: PendingSeries)
  {
    |ps.fixed| == fixedCount && Decode(fixedCount, columns, Row(ps, columns)) == ps
  }

  // ------------------------------------------------- a scrape always has a result

  lemma SeriesExists(ev: Evaluator, cr: CompiledRule, lookup: SrcLookup) returns (ps: PendingSeries)
    ensures MaySeries(ev, cr, lookup, ps)
  {
    forall cl | cl in cr.labels ensures exists text :: TextFor(ev, lookup)(cl, text) {
      var text := ev.PickExists([cl.primary] + cl.fallbacks, cl.onMissing, lookup);
      assert TextFor(ev, lookup)(cl, text);
    }
    var fixed := RelatedExists(TextFor(ev, lookup), cr.labels);
    forall ce | ce in cr.expands ensures exists out :: LabelsFor(ev, lookup)(ce, out) {
      var out := ev.ExpandExists(ce, lookup);
      assert LabelsFor(ev, lookup)(ce, out);
    }
    var outs := RelatedExists(LabelsFor(ev, lookup), cr.expands);
    ps := PendingSeries(fixed, MergeAll(outs));
    assert MayExpandAll(ev, cr, lookup, outs);
  }

  lemma BlockExists(ev: Evaluator, cr: CompiledRule, rs: seq<ResourceInfo>, get: Getter, anchor: Object)
    returns (block: seq<PendingSeries>)
    ensures MayBlock(ev, cr, rs, get, anchor, block)
  {
    match ev.convert(anchor) {
      case None => block := [];
      case Some(m) =>
        var sources := SourcesOf(ev, ChainOf(rs, get, anchor));
        var items := ItemsExist(cr.forEach, m);
        forall item | item in items ensures exists ps :: SeriesFor(ev, cr, sources)(item, ps) {
          var ps := SeriesExists(ev, cr, SrcLookup(sources, item));
          assert SeriesFor(ev, cr, sources)(item, ps);
        }
        block := RelatedExists(SeriesFor(ev, cr, sources), items);
        assert MayItemBlock(ev, cr, sources, items, block);
    }
  }

  lemma ItemsExist(forEach: Option<seq<Segment>>, m: map<string, Value>)
    returns (items: seq<Option<map<string, Value>>>)
    ensures MayItems(forEach, m, items)
  {
    match forEach {
      case None => items := [None];
      case Some(path) =>
        assert MayEvaluate(Map(m), path, Eval(Map(m), path));
        items := ItemsOf(Eval(Map(m), path));
    }
  }

  lemma BlocksExist(ev: Evaluator, cr: CompiledRule, rs: seq<ResourceInfo>, get: Getter, anchors: seq<Object>)
    returns (blocks: seq<seq<PendingSeries>>)
    ensures MayBlocks(ev, cr, rs, get, anchors, blocks)
  {
    forall anchor | anchor in anchors ensures exists block :: BlockFor(ev, cr, rs, get)(anchor, block) {
      var block := BlockExists(ev, cr, rs, get, anchor);
      assert BlockFor(ev, cr, rs, get)(anchor, block);
    }
    blocks := RelatedExists(BlockFor(ev, cr, rs, get), anchors);
  }

  // ------------------------------------------------------------- determinism

  // No path of the rule enumerates a map of several entries in these sources.
  ghost predicate SeriesOrdered(cr: CompiledRule, lookup: SrcLookup)
  {
    && (forall i, j | 0 <= i < |cr.labels| && 0 <= j < |Extracts(cr.labels[i])| ::
          lookup.Orders(Extracts(cr.labels[i])[j].source, Extracts(cr.labels[i])[j].path))
    && (forall i | 0 <= i < |cr.expands| :: lookup.Orders(cr.expands[i].source, cr.expands[i].path))
  }

  function Extracts(cl: CompiledLabel): seq<CompiledExtract>
  {
    [cl.primary] + cl.fallbacks
  }

  // The items of an anchor, in the order of its canonical evaluation.
  ghost function Items(forEach: Option<seq<Segment>>, m: map<string, Value>): seq<Option<map<string, Value>>>
  {
    match forEach
    case None => [None]
    case Some(path) => ItemsOf(Eval(Map(m), path))
  }

  ghost predicate ItemsOrdered(forEach: Option<seq<Segment>>, m: map<string, Value>)
  {
    forEach.Some? ==> Ordered(Map(m), forEach.value)
  }

  // No label or expand path enumerates a map of several entries, for any item
  // of this anchor.
  ghost predicate SeriesDecided(ev: Evaluator, cr: CompiledRule, rs: seq<ResourceInfo>, get: Getter, anchor: Object)
  {
    ev.convert(anchor).Some? ==>
      forall item | item in Items(cr.forEach, ev.convert(anchor).value) ::
        SeriesOrdered(cr, SrcLookup(SourcesOf(ev, ChainOf(rs, get, anchor)), item))
  }

  // Nor does forEach.
  ghost predicate BlockOrdered(ev: Evaluator, cr: CompiledRule, rs: seq<ResourceInfo>, get: Getter, anchor: Object)
  {
    && SeriesDecided(ev, cr, rs, get, anchor)
    && (ev.convert(anchor).Some? ==> ItemsOrdered(cr.forEach, ev.convert(anchor).value))
  }

  lemma SeriesUnique(ev: Evaluator, cr: CompiledRule, lookup: SrcLookup, a: PendingSeries, b: PendingSeries)
    requires SeriesOrdered(cr, lookup) && MaySeries(ev, cr, lookup, a) && MaySeries(ev, cr, lookup, b)
    ensures a == b
  {
    forall i | 0 <= i < |cr.labels| ensures a.fixed[i] == b.fixed[i] {
      ev.PickUnique(Extracts(cr.labels[i]), cr.labels[i].onMissing, lookup, a.fixed[i], b.fixed[i]);
    }
    var x :| MayExpandAll(ev, cr, lookup, x) && a.dynamic == MergeAll(x);
    var y :| MayExpandAll(ev, cr, lookup, y) && b.dynamic == MergeAll(y);
    forall i | 0 <= i < |cr.expands| ensures x[i] == y[i] {
      ev.ExpandUnique(cr.expands[i], lookup, x[i], y[i]);
    }
    assert x == y;
  }

  // The series of an anchor are the same in every scrape it takes part in, up to
  // the order of its items, if no label or expand path enumerates a map.
  lemma BlockPermutes(ev: Evaluator, cr: CompiledRule, rs: seq<ResourceInfo>, get: Getter, anchor: Object,
                      a: seq<PendingSeries>, b: seq<PendingSeries>)
    requires SeriesDecided(ev, cr, rs, get, anchor)
    requires MayBlock(ev, cr, rs, get, anchor, a) && MayBlock(ev, cr, rs, get, anchor, b)
    ensures multiset(a) == multiset(b)
  {
    if ev.convert(anchor).Some? {
      var m, sources := ev.convert(anchor).value, SourcesOf(ev, ChainOf(rs, get, anchor));
      var x :| MayItems(cr.forEach, m, x) && MayItemBlock(ev, cr, sources, x, a);
      var y :| MayItems(cr.forEach, m, y) && MayItemBlock(ev, cr, sources, y, b);
      ItemsPermuted(cr.forEach, m, x);
      ItemsPermuted(cr.forEach, m, y);
      var rel := SeriesFor(ev, cr, sources);
      forall item, u, v | item in x && rel(item, u) && rel(item, v) ensures u == v {
        assert item in multiset(x);
        SeriesUnique(ev, cr, SrcLookup(sources, item), u, v);
      }
      RelatedPermutes(rel, x, y, a, b);
    }
  }

  // And in the same order, if forEach does not enumerate a map either.
  lemma BlockUnique(ev: Evaluator, cr: CompiledRule, rs: seq<ResourceInfo>, get: Getter, anchor: Object,
                    a: seq<PendingSeries>, b: seq<PendingSeries>)
    requires BlockOrdered(ev, cr, rs, get, anchor)
    requires MayBlock(ev, cr, rs, get, anchor, a) && MayBlock(ev, cr, rs, get, anchor, b)
    ensures a == b
  {
    if ev.convert(anchor).Some? {
      var m, sources := ev.convert(anchor).value, SourcesOf(ev, ChainOf(rs, get, anchor));
      var x :| MayItems(cr.forEach, m, x) && MayItemBlock(ev, cr, sources, x, a);
      var y :| MayItems(cr.forEach, m, y) && MayItemBlock(ev, cr, sources, y, b);
      ItemsPermuted(cr.forEach, m, x);
      ItemsPermuted(cr.forEach, m, y);
      forall j | 0 <= j < |a| ensures a[j] == b[j] {
        assert SeriesFor(ev, cr, sources)(x[j], a[j]) && SeriesFor(ev, cr, sources)(y[j], b[j]);
        SeriesUnique(ev, cr, SrcLookup(sources, x[j]), a[j], b[j]);
      }
    }
  }

  lemma ItemsPermuted(forEach: Option<seq<Segment>>, m: map<string, Value>, items: seq<Option<map<string, Value>>>)
    requires MayItems(forEach, m, items)
    ensures multiset(items) == multiset(Items(forEach, m))
    ensures ItemsOrdered(forEach, m) ==> items == Items(forEach, m)
  {
    if forEach.Some? {
      var results: seq<Value> :| MayEvaluate(Map(m), forEach.value, results) && items == ItemsOf(results);
      var rel := (v: Value, item: Option<map<string, Value>>) => item == Some(ItemOf(v));
      RelatedPermutes(rel, results, Eval(Map(m), forEach.value), items, Items(forEach, m));
    }
  }

  predicate NoWildcard(path: seq<Segment>)
  {
    forall k | 0 <= k < |path| :: !path[k].Wildcard?
  }

  // A rule whose label and expand paths hold no `[*]` is deterministic on every
  // anchor; `forEach` may still walk lists.
  lemma PlainPathsAreOrdered(ev: Evaluator, cr: CompiledRule, rs: seq<ResourceInfo>, get: Getter, anchor: Object)
    requires forall i, j | 0 <= i < |cr.labels| && 0 <= j < |Extracts(cr.labels[i])| ::
      NoWildcard(Extracts(cr.labels[i])[j].path)
    requires forall i | 0 <= i < |cr.expands| :: NoWildcard(cr.expands[i].path)
    ensures SeriesDecided(ev, cr, rs, get, anchor)
    ensures BlockOrdered(ev, cr, rs, get, anchor) <==>
      (ev.convert(anchor).Some? ==> ItemsOrdered(cr.forEach, ev.convert(anchor).value))
  {
    if ev.convert(anchor).Some? {
      forall item | item in Items(cr.forEach, ev.convert(anchor).value)
        ensures SeriesOrdered(cr, SrcLookup(SourcesOf(ev, ChainOf(rs, get, anchor)), item)) {
        PlainSeriesOrdered(cr, SrcLookup(SourcesOf(ev, ChainOf(rs, get, anchor)), item));
      }
    }
  }

  lemma PlainSeriesOrdered(cr: CompiledRule, lookup: SrcLookup)
    requires forall i, j | 0 <= i < |cr.labels| && 0 <= j < |Extracts(cr.labels[i])| ::
      NoWildcard(Extracts(cr.labels[i])[j].path)
    requires forall i | 0 <= i < |cr.expands| :: NoWildcard(cr.expands[i].path)
    ensures SeriesOrdered(cr, lookup)
  {
    forall i, j | 0 <= i < |cr.labels| && 0 <= j < |Extracts(cr.labels[i])|
      ensures lookup.Orders(Extracts(cr.labels[i])[j].source, Extracts(cr.labels[i])[j].path) {
      var e := Extracts(cr.labels[i])[j];
      if lookup.At(e.source).Some? { SinglePath(Map(lookup.At(e.source).value), e.path); }
    }
    forall i | 0 <= i < |cr.expands| ensures lookup.Orders(cr.expands[i].source, cr.expands[i].path) {
      var e := cr.expands[i];
      if lookup.At(e.source).Some? { SinglePath(Map(lookup.At(e.source).value), e.path); }
    }
  }
}
