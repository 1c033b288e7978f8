// When the names of a rule are safe: a condition that can be read off the rule,
// and what every scrape makes of it.
module NameSafety {
  import opened Wrappers
  import opened Sequences
  import opened Resources
  import opened PathEval
  import opened Objects
  import opened Resolvers
  import opened Rules
  import opened Evaluators
  import opened Scrapes
  import opened LabelNames

  // ------------------------------------------------- read off the declaration

  // The deny list holds every key `before + t` whose `t` sanitises to `s`: any
  // character that is no letter or digit stands behind a `_`.
  predicate DeniesAll(deny: set<string>, before: string, s: string)
    decreases |s|
  {
    if s == "" then before in deny
    else if s[0] == '_' then forall c: char | IsBlank(c) :: DeniesAll(deny, before + [c], s[1..])
    else DeniesAll(deny, before + [s[0]], s[1..])
  }

  // The entry denies every key that sanitises to `s`, the empty key included.
  predicate RestDenied(ce: CompiledExpand, s: string)
  {
    ce.denySet.Some? && DeniesAll(ce.denySet.value, "", s) && (s == "_" ==> "" in ce.denySet.value)
  }

  // With an allow list, none of its keys lands on a fixed or reserved name.
  // Without one, the prefix is no lone `_` and each fixed name that extends it
  // is denied.
  predicate EntryClear(cr: CompiledRule, ce: CompiledExpand)
  {
    match ce.allowSet
    case Some(allow) => forall k | k in allow :: Admits(ce, k) ==> SafeName(cr, LabelFor(ce, k))
    case None =>
      && ce.prefix != "_"
      && forall i | 0 <= i < |cr.labelOrder| ::
           ce.prefix < cr.labelOrder[i] ==> RestDenied(ce, cr.labelOrder[i][|ce.prefix|..])
  }

  predicate SanitizesTo(t: string, s: string)
  {
    |t| == |s| && forall i | 0 <= i < |s| :: s[i] == if IsLabelPart(t[i]) then t[i] else '_'
  }

  lemma {:induction false} DeniesAllMeans(deny: set<string>, before: string, s: string)
    requires forall i | 0 <= i < |s| :: IsLabelPart(s[i])
    ensures DeniesAll(deny, before, s) <==> forall t | SanitizesTo(t, s) :: before + t in deny
    decreases |s|
  {
    if s == "" {
      assert before + "" == before;
      assert SanitizesTo("", s);
    } else {
      if DeniesAll(deny, before, s) {
        forall t | SanitizesTo(t, s) ensures before + t in deny {
          DeniesAllMeans(deny, before + [t[0]], s[1..]);
          assert SanitizesTo(t[1..], s[1..]);
          assert before + [t[0]] + t[1..] == before + t;
        }
      } else {
        var c: char :| (if s[0] == '_' then IsBlank(c) else c == s[0]) && !DeniesAll(deny, before + [c], s[1..]);
        DeniesAllMeans(deny, before + [c], s[1..]);
        var t :| SanitizesTo(t, s[1..]) && before + [c] + t !in deny;
        assert before + [c] + t == before + ([c] + t);
        assert SanitizesTo([c] + t, s);
      }
    }
  }

  lemma RestDeniedMeans(ce: CompiledExpand, s: string)
    requires ce.allowSet.None? && s != "" && forall i | 0 <= i < |s| :: IsLabelPart(s[i])
    ensures RestDenied(ce, s) <==> forall k | SanitizeLabelKey(k) == s :: !Admits(ce, k)
  {
    forall k ensures SanitizeLabelKey(k) == s <==> SanitizesTo(Padded(k), s) { SanitizedPadded(k, s); }
    if ce.denySet.Some? {
      var deny := ce.denySet.value;
      DeniesAllMeans(deny, "", s);
      if RestDenied(ce, s) {
        forall k | SanitizeLabelKey(k) == s ensures !Admits(ce, k) { assert "" + Padded(k) == Padded(k); }
      } else {
        var k := DeniedMissing(deny, s);
        assert Admits(ce, k);
      }
    } else {
      SanitizeKeepsSafe(s);
      assert Admits(ce, s);
    }
  }

  lemma DeniedMissing(deny: set<string>, s: string) returns (k: string)
    requires s != "" && forall i | 0 <= i < |s| :: IsLabelPart(s[i])
    requires !DeniesAll(deny, "", s) || (s == "_" && "" !in deny)
    ensures SanitizeLabelKey(k) == s && k !in deny
  {
    if s == "_" && "" !in deny {
      k := "";
    } else {
      DeniesAllMeans(deny, "", s);
      k :| SanitizesTo(k, s) && "" + k !in deny;
      assert "" + k == k;
      SanitizedPadded(k, s);
    }
  }

  lemma SanitizedPadded(k: string, s: string)
    ensures SanitizeLabelKey(k) == s <==> SanitizesTo(Padded(k), s)
  {
    if k != "" && SanitizesTo(k, s) {
      assert SanitizeLabelKey(k) == s;
    }
  }

  // A key that starts with `_` and is not denied.
  lemma FreshKey(deny: set<string>) returns (k: string)
    ensures k != "" && k[0] == '_' && k !in deny
  {
    var n := LongerThanAll(deny);
    k := seq(n + 1, _ => '_');
  }

  lemma {:induction false} LongerThanAll(deny: set<string>) returns (n: nat)
    ensures forall k | k in deny :: |k| <= n
    decreases deny
  {
    if deny == {} {
      n := 0;
    } else {
      var x :| x in deny;
      var m := LongerThanAll(deny - {x});
      n := if m < |x| then |x| else m;
    }
  }

  lemma EntryClearMeans(cr: CompiledRule, ce: CompiledExpand)
    requires GoodNames(cr) && PrefixOk(ce.prefix)
    ensures EntryClear(cr, ce) <==> forall k | Admits(ce, k) :: SafeName(cr, LabelFor(ce, k))
  {
    if ce.allowSet.None? {
      if EntryClear(cr, ce) {
        forall k | Admits(ce, k) ensures SafeName(cr, LabelFor(ce, k)) { ClearKeyIsSafe(cr, ce, k); }
      }
      if forall k | Admits(ce, k) :: SafeName(cr, LabelFor(ce, k)) {
        SafeEntryIsClear(cr, ce);
      }
    }
  }

  lemma ClearKeyIsSafe(cr: CompiledRule, ce: CompiledExpand, k: string)
    requires GoodNames(cr) && PrefixOk(ce.prefix) && ce.allowSet.None? && EntryClear(cr, ce) && Admits(ce, k)
    ensures SafeName(cr, LabelFor(ce, k))
  {
    var n := LabelFor(ce, k);
    DynamicName(ce, k);
    assert n[|ce.prefix|..] == SanitizeLabelKey(k);
    forall i | 0 <= i < |cr.labelOrder| ensures cr.labelOrder[i] != n {
      if ce.prefix < cr.labelOrder[i] {
        RestDeniedMeans(ce, cr.labelOrder[i][|ce.prefix|..]);
      }
    }
  }

  lemma SafeEntryIsClear(cr: CompiledRule, ce: CompiledExpand)
    requires GoodNames(cr) && PrefixOk(ce.prefix) && ce.allowSet.None?
    requires forall k | Admits(ce, k) :: SafeName(cr, LabelFor(ce, k))
    ensures EntryClear(cr, ce)
  {
    if ce.prefix == "_" {
      var k := FreshKey(if ce.denySet.Some? then ce.denySet.value else {});
      DynamicName(ce, k);
      assert SanitizeLabelKey(k)[0] == '_';
      assert Admits(ce, k);
    }
    forall i | 0 <= i < |cr.labelOrder| && ce.prefix < cr.labelOrder[i]
      ensures RestDenied(ce, cr.labelOrder[i][|ce.prefix|..]) {
      var n := cr.labelOrder[i];
      var s := n[|ce.prefix|..];
      assert n == ce.prefix + s && IsLabelName(n);
      RestDeniedMeans(ce, s);
      forall k | SanitizeLabelKey(k) == s ensures !Admits(ce, k) { assert LabelFor(ce, k) == n; }
    }
  }

  // Names are safe exactly when every entry of the rule is clear.
  lemma SafeNamesChecked(cr: CompiledRule)
    requires GoodNames(cr)
    ensures SafeNames(cr) <==> forall i | 0 <= i < |cr.expands| :: EntryClear(cr, cr.expands[i])
  {
    forall i | 0 <= i < |cr.expands|
      ensures EntryClear(cr, cr.expands[i]) <==>
        forall k | Admits(cr.expands[i], k) :: SafeName(cr, LabelFor(cr.expands[i], k)) {
      EntryClearMeans(cr, cr.expands[i]);
    }
  }

  // Without allow and deny lists: no prefix is a lone `_`, and no fixed name
  // properly extends a prefix.
  lemma UnlistedNamesSafe(cr: CompiledRule)
    requires GoodNames(cr) && forall i | 0 <= i < |cr.expands| ::
      cr.expands[i].allowSet.None? && cr.expands[i].denySet.None?
    ensures SafeNames(cr) <==>
      && NoLoneUnderscore(cr)
      && forall i, j | 0 <= i < |cr.expands| && 0 <= j < |cr.labelOrder| :: !(cr.expands[i].prefix < cr.labelOrder[j])
  {
    SafeNamesChecked(cr);
  }

  // ------------------------------------------------------ what a scrape makes of it

  // The first result is a map, whatever else it holds, from which the entry
  // exports this key.
  ghost predicate YieldsKey(ev: Evaluator, ce: CompiledExpand, results: seq<Value>, k: string)
  {
    && results != [] && results[0].Map?
    && Survives(ce, results[0].fields.Keys, k) && ev.Live(results[0].fields, k)
  }

  lemma KeyIsExported(ev: Evaluator, ce: CompiledExpand, results: seq<Value>, k: string, out: map<string, string>)
    requires YieldsKey(ev, ce, results, k) && ev.MayExpandFirst(ce, results, out)
    ensures LabelFor(ce, k) in out
  {
    var m := results[0].fields;
    var a :| Survivors(ce, m.Keys, a) && k in a;
    var b :| Survivors(ce, m.Keys, b) && ev.Exports(ce, m, b, out);
    SurvivorsUnique(ce, m.Keys, a, b);
  }

  lemma ExportedKey(ev: Evaluator, ce: CompiledExpand, results: seq<Value>, n: string, out: map<string, string>)
    returns (k: string)
    requires ev.MayExpandFirst(ce, results, out) && n in out
    ensures YieldsKey(ev, ce, results, k) && Admits(ce, k) && LabelFor(ce, k) == n
  {
    var m := results[0].fields;
    var kept :| Survivors(ce, m.Keys, kept) && ev.Exports(ce, m, kept, out);
    k :| ev.Wins(ce, m, kept, k, n) && out[n] == ev.stringify(m[k]);
    assert k in Admitted(ce, m.Keys);
  }

  // What the i-th expand entry reads for one item of an anchor.
  function LookupFor(ev: Evaluator, rs: seq<ResourceInfo>, get: Getter, anchor: Object,
                     item: Option<map<string, Value>>) : SrcLookup
  {
    SrcLookup(SourcesOf(ev, ChainOf(rs, get, anchor)), item)
  }

  // The entry exports the key from this source, in any order of evaluation...
  ghost predicate ReadsKey(ev: Evaluator, ce: CompiledExpand, lookup: SrcLookup, k: string)
  {
    && lookup.At(ce.source).Some? && lookup.Orders(ce.source, ce.path)
    && YieldsKey(ev, ce, Eval(Map(lookup.At(ce.source).value), ce.path), k)
  }

  // ... or in some.
  ghost predicate MayReadKey(ev: Evaluator, ce: CompiledExpand, lookup: SrcLookup, k: string)
  {
    && lookup.At(ce.source).Some?
    && exists results ::
         MayEvaluate(Map(lookup.At(ce.source).value), ce.path, results) && YieldsKey(ev, ce, results, k)
  }

  // The i-th entry of the rule exports the key for some item of the anchor, in
  // any order of evaluation or in some.
  ghost predicate Bears(ev: Evaluator, cr: CompiledRule, rs: seq<ResourceInfo>, get: Getter, anchor: Object, i: nat,
                        k: string)
  {
    && i < |cr.expands| && ev.convert(anchor).Some?
    && exists item | item in Items(cr.forEach, ev.convert(anchor).value) ::
         ReadsKey(ev, cr.expands[i], LookupFor(ev, rs, get, anchor, item), k)
  }

  ghost predicate MayBear(ev: Evaluator, cr: CompiledRule, rs: seq<ResourceInfo>, get: Getter, anchor: Object, i: nat,
                          k: string)
  {
    && i < |cr.expands| && ev.convert(anchor).Some?
    && exists item | item in Items(cr.forEach, ev.convert(anchor).value) ::
         MayReadKey(ev, cr.expands[i], LookupFor(ev, rs, get, anchor, item), k)
  }

  lemma BearsIsPossible(ev: Evaluator, cr: CompiledRule, rs: seq<ResourceInfo>, get: Getter, anchor: Object, i: nat,
                        k: string)
    requires Bears(ev, cr, rs, get, anchor, i, k)
    ensures MayBear(ev, cr, rs, get, anchor, i, k)
  {
    var ce := cr.expands[i];
    var item :| item in Items(cr.forEach, ev.convert(anchor).value)
      && ReadsKey(ev, ce, LookupFor(ev, rs, get, anchor, item), k);
    var lookup := LookupFor(ev, rs, get, anchor, item);
    var v := Map(lookup.At(ce.source).value);
    assert MayEvaluate(v, ce.path, Eval(v, ce.path));
    assert MayReadKey(ev, ce, lookup, k);
  }

  lemma LabelIsExported(ev: Evaluator, ce: CompiledExpand, lookup: SrcLookup, k: string, out: map<string, string>)
    requires ReadsKey(ev, ce, lookup, k) && ev.MayExpand(ce, lookup, out)
    ensures LabelFor(ce, k) in out
  {
    var v := Map(lookup.At(ce.source).value);
    var results: seq<Value> :| MayEvaluate(v, ce.path, results) && ev.MayExpandFirst(ce, results, out);
    KeyIsExported(ev, ce, results, k, out);
  }

  lemma LabelIsASeriesKey(ev: Evaluator, cr: CompiledRule, lookup: SrcLookup, ps: PendingSeries, i: nat, k: string)
    requires i < |cr.expands| && ReadsKey(ev, cr.expands[i], lookup, k) && MaySeries(ev, cr, lookup, ps)
    ensures LabelFor(cr.expands[i], k) in ps.dynamic
  {
    var outs :| MayExpandAll(ev, cr, lookup, outs) && ps.dynamic == MergeAll(outs);
    assert LabelsFor(ev, lookup)(cr.expands[i], outs[i]);
    LabelIsExported(ev, cr.expands[i], lookup, k, outs[i]);
    MergeHas(outs, i, LabelFor(cr.expands[i], k));
  }

  lemma LabelIsAColumn(ev: Evaluator, cr: CompiledRule, rs: seq<ResourceInfo>, get: Getter, anchor: Object,
                       block: seq<PendingSeries>, i: nat, k: string) returns (j: nat)
    requires Bears(ev, cr, rs, get, anchor, i, k) && MayBlock(ev, cr, rs, get, anchor, block)
    ensures j < |block| && LabelFor(cr.expands[i], k) in block[j].dynamic
  {
    var m, sources := ev.convert(anchor).value, SourcesOf(ev, ChainOf(rs, get, anchor));
    var items :| MayItems(cr.forEach, m, items) && MayItemBlock(ev, cr, sources, items, block);
    var item :| item in Items(cr.forEach, m) && ReadsKey(ev, cr.expands[i], LookupFor(ev, rs, get, anchor, item), k);
    ItemsPermuted(cr.forEach, m, items);
    assert item in multiset(items);
    j :| 0 <= j < |items| && items[j] == item;
    assert SeriesFor(ev, cr, sources)(items[j], block[j]);
    LabelIsASeriesKey(ev, cr, SrcLookup(sources, item), block[j], i, k);
  }

  // One anchor with an unsafe label makes the columns of the scrape unsafe.
  lemma LabelIsUnsafe(ev: Evaluator, cr: CompiledRule, rs: seq<ResourceInfo>, get: Getter, anchors: seq<Object>,
                      blocks: seq<seq<PendingSeries>>, a: nat, i: nat, k: string)
    requires MayBlocks(ev, cr, rs, get, anchors, blocks) && a < |anchors|
    requires Bears(ev, cr, rs, get, anchors[a], i, k) && !SafeName(cr, LabelFor(cr.expands[i], k))
    ensures !SafeColumns(cr, blocks)
  {
    assert BlockFor(ev, cr, rs, get)(anchors[a], blocks[a]);
    var j := LabelIsAColumn(ev, cr, rs, get, anchors[a], blocks[a], i, k);
    SeriesKeyIsAColumn(blocks, a, j, LabelFor(cr.expands[i], k));
  }

  lemma SeriesKeyIsAColumn(blocks: seq<seq<PendingSeries>>, a: nat, j: nat, n: string)
    requires a < |blocks| && j < |blocks[a]| && n in blocks[a][j].dynamic
    ensures n in DynamicKeys(Flatten(blocks))
  {
    FlattenHas(blocks, a, blocks[a][j]);
    var p :| 0 <= p < |Flatten(blocks)| && Flatten(blocks)[p] == blocks[a][j];
    DynamicKeyOf(Flatten(blocks), n);
  }

  // ------------------------------------------------------------ exact for a rule

  // No scrape of the rule, over any anchors, is refused.
  ghost predicate NeverRefused(name: string, ev: Evaluator, cr: CompiledRule, rs: seq<ResourceInfo>, get: Getter)
  {
    forall anchors, blocks | MayBlocks(ev, cr, rs, get, anchors, blocks) :: DescAccepts(name, EmittedNames(cr, blocks))
  }

  // A series in which the i-th entry exports what it may.
  lemma SeriesWith(ev: Evaluator, cr: CompiledRule, lookup: SrcLookup, i: nat, out: map<string, string>)
    returns (ps: PendingSeries)
    requires i < |cr.expands| && ev.MayExpand(cr.expands[i], lookup, out)
    ensures MaySeries(ev, cr, lookup, ps) && out.Keys <= ps.dynamic.Keys
  {
    var some := SeriesExists(ev, cr, lookup);
    var outs :| MayExpandAll(ev, cr, lookup, outs) && some.dynamic == MergeAll(outs);
    RelatedUpdate(LabelsFor(ev, lookup), cr.expands, outs, i, out);
    var with := outs[i := out];
    ps := PendingSeries(some.fixed, MergeAll(with));
    assert MayExpandAll(ev, cr, lookup, with);
    forall n | n in out ensures n in ps.dynamic { MergeHas(with, i, n); }
  }

  // A key that may be borne appears in some scrape.
  lemma ScrapeBearing(ev: Evaluator, cr: CompiledRule, rs: seq<ResourceInfo>, get: Getter, anchor: Object, i: nat,
                      k: string) returns (blocks: seq<seq<PendingSeries>>)
    requires MayBear(ev, cr, rs, get, anchor, i, k)
    ensures MayBlocks(ev, cr, rs, get, [anchor], blocks)
    ensures LabelFor(cr.expands[i], k) in DynamicKeys(Flatten(blocks))
  {
    var ce, m := cr.expands[i], ev.convert(anchor).value;
    var items := Items(cr.forEach, m);
    var item :| item in items && MayReadKey(ev, ce, LookupFor(ev, rs, get, anchor, item), k);
    var j :| 0 <= j < |items| && items[j] == item;
    var lookup := LookupFor(ev, rs, get, anchor, item);
    var out := LabelsBearing(ev, ce, lookup, k);
    var ps := SeriesWith(ev, cr, lookup, i, out);
    var block := BlockWith(ev, cr, rs, get, anchor, j, ps);
    RelatedNext(BlockFor(ev, cr, rs, get), [anchor], [], block);
    blocks := [block];
    assert [] + [block] == blocks;
    SeriesKeyIsAColumn(blocks, 0, j, LabelFor(ce, k));
  }

  lemma LabelsBearing(ev: Evaluator, ce: CompiledExpand, lookup: SrcLookup, k: string)
    returns (out: map<string, string>)
    requires MayReadKey(ev, ce, lookup, k)
    ensures ev.MayExpand(ce, lookup, out) && LabelFor(ce, k) in out
  {
    var v := Map(lookup.At(ce.source).value);
    var results: seq<Value> :| MayEvaluate(v, ce.path, results) && YieldsKey(ev, ce, results, k);
    out := ev.ExpansionExists(ce, results[0].fields);
    assert ev.MayExpandFirst(ce, results, out);
    KeyIsExported(ev, ce, results, k, out);
  }

  lemma BlockWith(ev: Evaluator, cr: CompiledRule, rs: seq<ResourceInfo>, get: Getter, anchor: Object, j: nat,
                  ps: PendingSeries) returns (block: seq<PendingSeries>)
    requires ev.convert(anchor).Some? && j < |Items(cr.forEach, ev.convert(anchor).value)|
    requires MaySeries(ev, cr, LookupFor(ev, rs, get, anchor, Items(cr.forEach, ev.convert(anchor).value)[j]), ps)
    ensures MayBlock(ev, cr, rs, get, anchor, block) && j < |block| && block[j] == ps
  {
    var m, sources := ev.convert(anchor).value, SourcesOf(ev, ChainOf(rs, get, anchor));
    var items := Items(cr.forEach, m);
    if cr.forEach.Some? { assert MayEvaluate(Map(m), cr.forEach.value, Eval(Map(m), cr.forEach.value)); }
    assert MayItems(cr.forEach, m, items);
    forall item | item in items ensures exists s :: SeriesFor(ev, cr, sources)(item, s) {
      var s := SeriesExists(ev, cr, SrcLookup(sources, item));
      assert SeriesFor(ev, cr, sources)(item, s);
    }
    var some := RelatedExists(SeriesFor(ev, cr, sources), items);
    RelatedUpdate(SeriesFor(ev, cr, sources), items, some, j, ps);
    block := some[j := ps];
    assert MayItemBlock(ev, cr, sources, items, block);
  }

  // A column of a scrape is the name of a key that one of its anchors may bear.
  lemma ColumnIsBorne(ev: Evaluator, cr: CompiledRule, rs: seq<ResourceInfo>, get: Getter, anchors: seq<Object>,
                      blocks: seq<seq<PendingSeries>>, n: string) returns (anchor: Object, i: nat, k: string)
    requires MayBlocks(ev, cr, rs, get, anchors, blocks) && n in DynamicKeys(Flatten(blocks))
    ensures anchor in anchors && MayBear(ev, cr, rs, get, anchor, i, k) && LabelFor(cr.expands[i], k) == n
    ensures Admits(cr.expands[i], k)
  {
    DynamicKeyOf(Flatten(blocks), n);
    var p :| 0 <= p < |Flatten(blocks)| && n in Flatten(blocks)[p].dynamic;
    FlattenMember(blocks, Flatten(blocks)[p]);
    var b :| 0 <= b < |blocks| && Flatten(blocks)[p] in blocks[b];
    var j :| 0 <= j < |blocks[b]| && blocks[b][j] == Flatten(blocks)[p];
    anchor := anchors[b];
    assert BlockFor(ev, cr, rs, get)(anchor, blocks[b]);
    i, k := SeriesKeyIsBorne(ev, cr, rs, get, anchor, blocks[b], j, n);
  }

  lemma SeriesKeyIsBorne(ev: Evaluator, cr: CompiledRule, rs: seq<ResourceInfo>, get: Getter, anchor: Object,
                         block: seq<PendingSeries>, j: nat, n: string) returns (i: nat, k: string)
    requires MayBlock(ev, cr, rs, get, anchor, block) && j < |block| && n in block[j].dynamic
    ensures MayBear(ev, cr, rs, get, anchor, i, k) && LabelFor(cr.expands[i], k) == n && Admits(cr.expands[i], k)
  {
    var m, sources := ev.convert(anchor).value, SourcesOf(ev, ChainOf(rs, get, anchor));
    var items :| MayItems(cr.forEach, m, items) && MayItemBlock(ev, cr, sources, items, block);
    var lookup := SrcLookup(sources, items[j]);
    assert SeriesFor(ev, cr, sources)(items[j], block[j]);
    var outs :| MayExpandAll(ev, cr, lookup, outs) && block[j].dynamic == MergeAll(outs);
    i := MergedFrom(outs, n);
    assert LabelsFor(ev, lookup)(cr.expands[i], outs[i]);
    k := KeyBehind(ev, cr.expands[i], lookup, n, outs[i]);
    ItemsPermuted(cr.forEach, m, items);
    assert items[j] in multiset(items);
    assert items[j] in Items(cr.forEach, m);
    assert MayReadKey(ev, cr.expands[i], LookupFor(ev, rs, get, anchor, items[j]), k);
  }

  lemma KeyBehind(ev: Evaluator, ce: CompiledExpand, lookup: SrcLookup, n: string, out: map<string, string>)
    returns (k: string)
    requires ev.MayExpand(ce, lookup, out) && n in out
    ensures MayReadKey(ev, ce, lookup, k) && Admits(ce, k) && LabelFor(ce, k) == n
  {
    var v := Map(lookup.At(ce.source).value);
    var results: seq<Value> :| MayEvaluate(v, ce.path, results) && ev.MayExpandFirst(ce, results, out);
    k := ExportedKey(ev, ce, results, n, out);
  }

  // No key that any anchor may bear has an unsafe name.
  ghost predicate BorneSafely(ev: Evaluator, cr: CompiledRule, rs: seq<ResourceInfo>, get: Getter, anchor: Object,
                              i: nat, k: string)
  {
    MayBear(ev, cr, rs, get, anchor, i, k) ==> SafeName(cr, LabelFor(cr.expands[i], k))
  }

  ghost predicate BorneNamesSafe(ev: Evaluator, cr: CompiledRule, rs: seq<ResourceInfo>, get: Getter)
  {
    forall anchor, i: nat, k :: BorneSafely(ev, cr, rs, get, anchor, i, k)
  }

  // For every rule, over all anchors there could be: no scrape is ever refused
  // exactly when no key that an anchor may bear has an unsafe name.
  lemma NeverRefusedExactly(name: string, ev: Evaluator, cr: CompiledRule, rs: seq<ResourceInfo>, get: Getter)
    requires IsMetricName(name) && GoodNames(cr)
    ensures NeverRefused(name, ev, cr, rs, get) <==> BorneNamesSafe(ev, cr, rs, get)
  {
    if BorneNamesSafe(ev, cr, rs, get) {
      forall anchors, blocks | MayBlocks(ev, cr, rs, get, anchors, blocks)
        ensures DescAccepts(name, EmittedNames(cr, blocks)) {
        BorneColumnsSafe(ev, cr, rs, get, anchors, blocks);
        ColumnsAccepted(name, ev, cr, rs, get, anchors, blocks);
      }
    } else {
      var anchor, i: nat, k :| !BorneSafely(ev, cr, rs, get, anchor, i, k);
      RefusedWhenBorne(name, ev, cr, rs, get, anchor, i, k);
    }
  }

  lemma BorneColumnsSafe(ev: Evaluator, cr: CompiledRule, rs: seq<ResourceInfo>, get: Getter, anchors: seq<Object>,
                         blocks: seq<seq<PendingSeries>>)
    requires BorneNamesSafe(ev, cr, rs, get) && MayBlocks(ev, cr, rs, get, anchors, blocks)
    ensures SafeColumns(cr, blocks)
  {
    forall n | n in DynamicKeys(Flatten(blocks)) ensures SafeName(cr, n) {
      var anchor, i, k := ColumnIsBorne(ev, cr, rs, get, anchors, blocks, n);
      assert BorneSafely(ev, cr, rs, get, anchor, i, k);
    }
  }

  lemma RefusedWhenBorne(name: string, ev: Evaluator, cr: CompiledRule, rs: seq<ResourceInfo>, get: Getter,
                         anchor: Object, i: nat, k: string)
    requires IsMetricName(name) && GoodNames(cr) && !BorneSafely(ev, cr, rs, get, anchor, i, k)
    ensures !NeverRefused(name, ev, cr, rs, get)
  {
    var blocks := ScrapeBearing(ev, cr, rs, get, anchor, i, k);
    ColumnsAccepted(name, ev, cr, rs, get, [anchor], blocks);
    assert MayBlocks(ev, cr, rs, get, [anchor], blocks) && !DescAccepts(name, EmittedNames(cr, blocks));
  }

  // Every key that an entry admits is one that some anchor may bear, among
  // whatever else it holds.
  ghost predicate Borne(ev: Evaluator, cr: CompiledRule, rs: seq<ResourceInfo>, get: Getter, i: nat, k: string)
  {
    exists anchor :: MayBear(ev, cr, rs, get, anchor, i, k)
  }

  ghost predicate KeysBorne(ev: Evaluator, cr: CompiledRule, rs: seq<ResourceInfo>, get: Getter)
  {
    forall i: nat, k | i < |cr.expands| && Admits(cr.expands[i], k) :: Borne(ev, cr, rs, get, i, k)
  }

  // Safe names are enough for any rule, and needed where every key can occur.
  lemma SafeNamesExact(name: string, ev: Evaluator, cr: CompiledRule, rs: seq<ResourceInfo>, get: Getter)
    requires IsMetricName(name) && GoodNames(cr)
    ensures SafeNames(cr) ==> NeverRefused(name, ev, cr, rs, get)
    ensures KeysBorne(ev, cr, rs, get) && NeverRefused(name, ev, cr, rs, get) ==> SafeNames(cr)
  {
    NeverRefusedExactly(name, ev, cr, rs, get);
    if SafeNames(cr) { SafeNamesBorne(ev, cr, rs, get); }
    if KeysBorne(ev, cr, rs, get) && BorneNamesSafe(ev, cr, rs, get) { BorneNamesAll(ev, cr, rs, get); }
  }

  lemma SafeNamesBorne(ev: Evaluator, cr: CompiledRule, rs: seq<ResourceInfo>, get: Getter)
    requires SafeNames(cr)
    ensures BorneNamesSafe(ev, cr, rs, get)
  {
    forall anchor, i: nat, k ensures BorneSafely(ev, cr, rs, get, anchor, i, k) {
      if MayBear(ev, cr, rs, get, anchor, i, k) { BorneIsAdmitted(ev, cr, rs, get, anchor, i, k); }
    }
  }

  lemma BorneNamesAll(ev: Evaluator, cr: CompiledRule, rs: seq<ResourceInfo>, get: Getter)
    requires KeysBorne(ev, cr, rs, get) && BorneNamesSafe(ev, cr, rs, get)
    ensures SafeNames(cr)
  {
    forall i: nat, k | i < |cr.expands| && Admits(cr.expands[i], k) ensures SafeName(cr, LabelFor(cr.expands[i], k)) {
      assert Borne(ev, cr, rs, get, i, k);
      var anchor :| MayBear(ev, cr, rs, get, anchor, i, k);
      assert BorneSafely(ev, cr, rs, get, anchor, i, k);
    }
  }

  lemma BorneIsAdmitted(ev: Evaluator, cr: CompiledRule, rs: seq<ResourceInfo>, get: Getter, anchor: Object, i: nat,
                        k: string)
    requires MayBear(ev, cr, rs, get, anchor, i, k)
    ensures Admits(cr.expands[i], k)
  {
    var ce := cr.expands[i];
    var item :| item in Items(cr.forEach, ev.convert(anchor).value)
      && MayReadKey(ev, ce, LookupFor(ev, rs, get, anchor, item), k);
    var v := Map(LookupFor(ev, rs, get, anchor, item).At(ce.source).value);
    var results: seq<Value> :| MayEvaluate(v, ce.path, results) && YieldsKey(ev, ce, results, k);
    var kept :| Survivors(ce, results[0].fields.Keys, kept) && k in kept;
    assert k in Admitted(ce, results[0].fields.Keys);
  }
}
