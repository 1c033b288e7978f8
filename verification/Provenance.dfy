// Where the labels of a series come from: from a declared rule to the objects,
// paths and keys that are read (pkg/collector/collector.go, evaluator.go).
module Provenance {
  import opened Wrappers
  import opened Sequences
  import opened Text
  import opened Resources
  import opened PathSyntax
  import opened PathEval
  import opened Objects
  import opened Resolvers
  import opened Rules
  import opened Evaluators
  import opened Scrapes

  // What one series is evaluated on: the objects bound by the owner chain, and
  // its forEach result if the rule has a forEach.
  datatype Place = Place(chain: Chain, root: Option<Value>)

  // ---------------------------------------------------------------- sources

  // What a declared source stands for: the forEach result, under `_` if it is no
  // map; else the object that the chain binds to it, the anchor by default.
  ghost predicate Stands(ev: Evaluator, at: Place, source: string, m: map<string, Value>)
  {
    if source == "item" then
      at.root.Some? && m == if at.root.value.Map? then at.root.value.fields else map["_" := at.root.value]
    else
      var key := if source == "" then "anchor" else source;
      key in at.chain && ev.convert(at.chain[key]) == Some(m)
  }

  function LookupAt(ev: Evaluator, at: Place): SrcLookup
  {
    SrcLookup(SourcesOf(ev, at.chain), ItemAt(at.root))
  }

  function ItemAt(root: Option<Value>): Option<map<string, Value>>
  {
    match root
    case None => None
    case Some(v) => Some(ItemOf(v))
  }

  lemma SourceStands(ev: Evaluator, at: Place, source: string, m: map<string, Value>)
    ensures LookupAt(ev, at).At(EffectiveSource(source)) == Some(m) <==> Stands(ev, at, source, m)
  {
  }

  // ------------------------------------------------------------------ labels

  // Some evaluation of the path over the source first shows this text.
  ghost predicate Found(ev: Evaluator, at: Place, source: string, path: string, text: string)
  {
    exists m, segments, results :: FoundIn(ev, at, source, path, m, segments, results) && ev.FirstRenders(results, text)
  }

  ghost predicate FoundIn(ev: Evaluator, at: Place, source: string, path: string, m: map<string, Value>,
                          segments: seq<Segment>, results: seq<Value>)
  {
    Stands(ev, at, source, m) && Parse(path) == Success(segments) && MayEvaluate(Map(m), segments, results)
  }

  // Nothing that the path reaches in the source shows anything.
  ghost predicate Missing(ev: Evaluator, at: Place, source: string, path: string)
  {
    forall m, segments, v | Stands(ev, at, source, m) && Parse(path) == Success(segments)
      && Reaches(Map(m), segments, v) ::
      v == Null || ev.stringify(v) == ""
  }

  lemma FoundMeans(ev: Evaluator, at: Place, e: Extract, ce: CompiledExtract, text: string)
    requires ExtractCompiles(e, ce)
    ensures ev.MayExtract(ce, LookupAt(ev, at), Some(text)) <==> Found(ev, at, e.source, e.path, text)
  {
    var source := LookupAt(ev, at).At(ce.source);
    forall m ensures source == Some(m) <==> Stands(ev, at, e.source, m) { SourceStands(ev, at, e.source, m); }
    if ev.MayExtract(ce, LookupAt(ev, at), Some(text)) {
      var results :| MayEvaluate(Map(source.value), ce.path, results) && ev.FirstText(results) == Some(text);
      ev.FirstTextMeans(results, text);
      assert FoundIn(ev, at, e.source, e.path, source.value, ce.path, results);
    }
    if Found(ev, at, e.source, e.path, text) {
      var m, segments, results: seq<Value> :|
        FoundIn(ev, at, e.source, e.path, m, segments, results) && ev.FirstRenders(results, text);
      ev.FirstTextMeans(results, text);
    }
  }

  lemma MissingMeans(ev: Evaluator, at: Place, e: Extract, ce: CompiledExtract)
    requires ExtractCompiles(e, ce)
    ensures ev.MayExtract(ce, LookupAt(ev, at), None) <==> Missing(ev, at, e.source, e.path)
  {
    var source := LookupAt(ev, at).At(ce.source);
    forall m ensures source == Some(m) <==> Stands(ev, at, e.source, m) { SourceStands(ev, at, e.source, m); }
    if source.Some? { MissesReached(ev, source.value, ce, LookupAt(ev, at)); }
  }

  lemma MissesReached(ev: Evaluator, m: map<string, Value>, ce: CompiledExtract, lookup: SrcLookup)
    requires lookup.At(ce.source) == Some(m)
    ensures ev.MayExtract(ce, lookup, None) <==>
      forall v | Reaches(Map(m), ce.path, v) :: v == Null || ev.stringify(v) == ""
  {
    var all := Eval(Map(m), ce.path);
    forall v ensures v in all <==> Reaches(Map(m), ce.path, v) { EvalReaches(Map(m), ce.path, v); }
    ev.NoTextMeans(all);
    assert MayEvaluate(Map(m), ce.path, all);
    if ev.MayExtract(ce, lookup, None) {
      assert ev.MayExtract(ce, lookup, ev.FirstText(all));
      ev.MissIsDecided(ce, lookup, ev.FirstText(all));
    }
  }

  // The text of a fixed label: of the label's own source and path and then its
  // fallbacks, the first that shows something; if none does, its default, which
  // is empty unless declared.
  ghost predicate LabelText(ev: Evaluator, at: Place, e: Extract, text: string)
  {
    var options := [e] + e.fallbacks;
    || (exists i | 0 <= i < |options| :: Chosen(ev, at, options, i, text))
    || (text == (if e.onMissing.Some? then e.onMissing.value else "") && NoneBefore(ev, at, options, |options|))
  }

  ghost predicate Chosen(ev: Evaluator, at: Place, options: seq<Extract>, i: nat, text: string)
    requires i < |options|
  {
    Found(ev, at, options[i].source, options[i].path, text) && NoneBefore(ev, at, options, i)
  }

  ghost predicate NoneBefore(ev: Evaluator, at: Place, options: seq<Extract>, n: nat)
    requires n <= |options|
  {
    forall j | 0 <= j < n :: Missing(ev, at, options[j].source, options[j].path)
  }

  ghost predicate OptionsCompile(options: seq<Extract>, all: seq<CompiledExtract>)
  {
    |all| == |options| && forall i | 0 <= i < |all| :: ExtractCompiles(options[i], all[i])
  }

  lemma LabelMeans(ev: Evaluator, at: Place, name: string, e: Extract, cl: CompiledLabel, text: string)
    requires LabelCompiles(name, e, cl)
    ensures ev.MayLabel(cl, LookupAt(ev, at), text) <==> LabelText(ev, at, e, text)
  {
    var options, all := [e] + e.fallbacks, [cl.primary] + cl.fallbacks;
    forall i | 0 <= i < |all| ensures ExtractCompiles(options[i], all[i]) {
      if i > 0 { assert ExtractCompiles(e.fallbacks[i - 1], cl.fallbacks[i - 1]); }
    }
    ev.PickMeans(all, cl.onMissing, LookupAt(ev, at), text);
    OptionMeans(ev, at, options, all, text);
  }

  lemma OptionMeans(ev: Evaluator, at: Place, options: seq<Extract>, all: seq<CompiledExtract>, text: string)
    requires OptionsCompile(options, all)
    ensures forall i | 0 <= i < |all| ::
      ev.PicksAt(all, LookupAt(ev, at), i, text) <==> Chosen(ev, at, options, i, text)
    ensures (forall j | 0 <= j < |all| :: ev.MayExtract(all[j], LookupAt(ev, at), None))
      <==> NoneBefore(ev, at, options, |options|)
  {
    forall i | 0 <= i < |all|
      ensures ev.MayExtract(all[i], LookupAt(ev, at), Some(text)) <==>
        Found(ev, at, options[i].source, options[i].path, text)
      ensures ev.MayExtract(all[i], LookupAt(ev, at), None) <==>
        Missing(ev, at, options[i].source, options[i].path) {
      FoundMeans(ev, at, options[i], all[i], text);
      MissingMeans(ev, at, options[i], all[i]);
    }
  }

  // -------------------------------------------------------------- expansions

  predicate Passes(e: ExpandLabel, k: string)
  {
    k !in e.deny && (e.allow == [] || k in e.allow)
  }

  // Denied keys and, if there is an allow list, keys not on it are dropped; of
  // the rest, in ascending order, the first `maxKeys` are kept.
  ghost predicate Kept(e: ExpandLabel, keys: set<string>, k: string)
  {
    && k in keys && Passes(e, k)
    && (e.maxKeys <= 0 || |set j | j in keys && Passes(e, j) && LexLt(j, k)| < e.maxKeys)
  }

  // The label name of a key: the prefix, and the key with `_` for every
  // character but letters, digits and `_`.
  predicate Suffixed(prefix: string, k: string, n: string)
  {
    && prefix <= n
    && var s := n[|prefix|..];
       if k == "" then s == "_"
       else |s| == |k| && forall i | 0 <= i < |k| :: s[i] == if IsWordChar(k[i]) then k[i] else '_'
  }

  // A kept key with something to show, under its label name.
  ghost predicate Shows(ev: Evaluator, e: ExpandLabel, m: map<string, Value>, k: string, n: string)
  {
    Kept(e, m.Keys, k) && m[k] != Null && ev.stringify(m[k]) != "" && Suffixed(e.prefix, k, n)
  }

  // The greatest of them gives the name its value.
  ghost predicate Gives(ev: Evaluator, e: ExpandLabel, m: map<string, Value>, k: string, n: string, text: string)
  {
    && Shows(ev, e, m, k, n) && ev.stringify(m[k]) == text
    && forall j | Shows(ev, e, m, j, n) :: LexLe(j, k)
  }

  ghost predicate Exported(ev: Evaluator, e: ExpandLabel, m: map<string, Value>, out: map<string, string>)
  {
    && (forall k, n | Shows(ev, e, m, k, n) :: n in out)
    && (forall n | n in out :: exists k :: Gives(ev, e, m, k, n, out[n]))
  }

  lemma SuffixedMeans(ce: CompiledExpand, k: string, n: string)
    ensures LabelFor(ce, k) == n <==> Suffixed(ce.prefix, k, n)
  {
    var s := SanitizeLabelKey(k);
    assert LabelFor(ce, k)[|ce.prefix|..] == s;
    if Suffixed(ce.prefix, k, n) {
      assert n[|ce.prefix|..] == s;
      assert n == n[..|ce.prefix|] + n[|ce.prefix|..];
    }
  }

  lemma KeptMeans(e: ExpandLabel, ce: CompiledExpand, keys: set<string>, kept: set<string>, k: string)
    requires ExpandCompiles(e, ce) && Survivors(ce, keys, kept)
    ensures k in kept <==> Kept(e, keys, k)
  {
    SurvivesByRank(ce, keys, k);
    forall j ensures Admits(ce, j) <==> Passes(e, j) { AllowDeny(e, ce, j); }
    assert (set j | j in keys && Passes(e, j) && LexLt(j, k)) == Ahead(ce, keys, k);
    if Survives(ce, keys, k) {
      var other :| Survivors(ce, keys, other) && k in other;
      SurvivorsUnique(ce, keys, kept, other);
    }
  }

  lemma ShowsMeans(ev: Evaluator, e: ExpandLabel, ce: CompiledExpand, m: map<string, Value>, kept: set<string>,
                   k: string, n: string)
    requires ExpandCompiles(e, ce) && Survivors(ce, m.Keys, kept)
    ensures k in kept && ev.Live(m, k) && LabelFor(ce, k) == n <==> Shows(ev, e, m, k, n)
  {
    KeptMeans(e, ce, m.Keys, kept, k);
    SuffixedMeans(ce, k, n);
  }

  lemma WinsMeans(ev: Evaluator, e: ExpandLabel, ce: CompiledExpand, m: map<string, Value>, kept: set<string>,
                  k: string, n: string, text: string)
    requires ExpandCompiles(e, ce) && Survivors(ce, m.Keys, kept)
    ensures ev.Wins(ce, m, kept, k, n) && ev.stringify(m[k]) == text <==> Gives(ev, e, m, k, n, text)
  {
    forall j ensures j in kept && ev.Live(m, j) && LabelFor(ce, j) == n <==> Shows(ev, e, m, j, n) {
      ShowsMeans(ev, e, ce, m, kept, j, n);
    }
  }

  lemma ExportsMean(ev: Evaluator, e: ExpandLabel, ce: CompiledExpand, m: map<string, Value>, kept: set<string>,
                    out: map<string, string>)
    requires ExpandCompiles(e, ce) && Survivors(ce, m.Keys, kept) && ev.Exports(ce, m, kept, out)
    ensures Exported(ev, e, m, out)
  {
    forall k, n | Shows(ev, e, m, k, n) ensures n in out { ShowsMeans(ev, e, ce, m, kept, k, n); }
    forall n | n in out ensures exists k :: Gives(ev, e, m, k, n, out[n]) {
      var k :| ev.Wins(ce, m, kept, k, n) && out[n] == ev.stringify(m[k]);
      WinsMeans(ev, e, ce, m, kept, k, n, out[n]);
    }
  }

  // An expansion, by the rank of the keys: this and nothing else.
  lemma ExpansionMeans(ev: Evaluator, e: ExpandLabel, ce: CompiledExpand, m: map<string, Value>,
                       out: map<string, string>)
    requires ExpandCompiles(e, ce)
    ensures ev.IsExpansion(ce, m, out) <==> Exported(ev, e, m, out)
  {
    if ev.IsExpansion(ce, m, out) {
      var kept :| Survivors(ce, m.Keys, kept) && ev.Exports(ce, m, kept, out);
      ExportsMean(ev, e, ce, m, kept, out);
    }
    if Exported(ev, e, m, out) {
      var other := ev.ExpansionExists(ce, m);
      var kept :| Survivors(ce, m.Keys, kept) && ev.Exports(ce, m, kept, other);
      ExportsMean(ev, e, ce, m, kept, other);
      ExportedUnique(ev, e, m, out, other);
    }
  }

  lemma ExportedUnique(ev: Evaluator, e: ExpandLabel, m: map<string, Value>, a: map<string, string>,
                       b: map<string, string>)
    requires Exported(ev, e, m, a) && Exported(ev, e, m, b)
    ensures a == b
  {
    ExportedIncluded(ev, e, m, a, b);
    ExportedIncluded(ev, e, m, b, a);
  }

  lemma ExportedIncluded(ev: Evaluator, e: ExpandLabel, m: map<string, Value>, a: map<string, string>,
                         b: map<string, string>)
    requires Exported(ev, e, m, a) && Exported(ev, e, m, b)
    ensures forall n | n in a :: n in b && a[n] == b[n]
  {
    forall n | n in a ensures n in b && a[n] == b[n] {
      var k :| Gives(ev, e, m, k, n, a[n]);
      assert n in b;
      var j :| Gives(ev, e, m, j, n, b[n]);
      LexAntisymmetric(j, k);
    }
  }

  // What an expand entry adds to a series: the export of the first result of its
  // path over its source, if there is one and it is a map.
  ghost predicate ExpandText(ev: Evaluator, at: Place, e: ExpandLabel, out: map<string, string>)
  {
    || (out == map[] && forall m :: !Stands(ev, at, e.source, m))
    || exists m, segments, results :: FoundIn(ev, at, e.source, e.path, m, segments, results)
                                      && FirstExported(ev, e, results, out)
  }

  ghost predicate FirstExported(ev: Evaluator, e: ExpandLabel, results: seq<Value>, out: map<string, string>)
  {
    if results != [] && results[0].Map? then Exported(ev, e, results[0].fields, out) else out == map[]
  }

  lemma ExpandMeans(ev: Evaluator, at: Place, e: ExpandLabel, ce: CompiledExpand, out: map<string, string>)
    requires ExpandCompiles(e, ce)
    ensures ev.MayExpand(ce, LookupAt(ev, at), out) <==> ExpandText(ev, at, e, out)
  {
    var source := LookupAt(ev, at).At(ce.source);
    forall m ensures source == Some(m) <==> Stands(ev, at, e.source, m) { SourceStands(ev, at, e.source, m); }
    forall results: seq<Value> ensures ev.MayExpandFirst(ce, results, out) <==> FirstExported(ev, e, results, out) {
      if results != [] && results[0].Map? { ExpansionMeans(ev, e, ce, results[0].fields, out); }
    }
    if source.Some? && ev.MayExpand(ce, LookupAt(ev, at), out) {
      var results :| MayEvaluate(Map(source.value), ce.path, results) && ev.MayExpandFirst(ce, results, out);
      assert FoundIn(ev, at, e.source, e.path, source.value, ce.path, results);
    }
  }

  // ------------------------------------------------------------------ series

  // The dynamic labels of a series: of the entries that export a name, the last.
  ghost predicate Overlaid(outs: seq<map<string, string>>, all: map<string, string>)
  {
    && (forall i, n | 0 <= i < |outs| && n in outs[i] :: n in all)
    && (forall n | n in all :: exists i | 0 <= i < |outs| :: LastGives(outs, i, n, all[n]))
  }

  ghost predicate LastGives(outs: seq<map<string, string>>, i: nat, n: string, text: string)
    requires i < |outs|
  {
    n in outs[i] && outs[i][n] == text && forall j | i < j < |outs| :: n !in outs[j]
  }

  lemma MergeOverlays(outs: seq<map<string, string>>, all: map<string, string>)
    ensures all == MergeAll(outs) <==> Overlaid(outs, all)
  {
    var merged := MergeAll(outs);
    forall i, n | 0 <= i < |outs| && n in outs[i] ensures n in merged { MergeHas(outs, i, n); }
    forall n | n in merged ensures exists i | 0 <= i < |outs| :: LastGives(outs, i, n, merged[n]) {
      var i := MergedFrom(outs, n);
      assert LastGives(outs, i, n, merged[n]);
    }
    if Overlaid(outs, all) { OverlaidUnique(outs, all, merged); }
  }

  lemma OverlaidUnique(outs: seq<map<string, string>>, a: map<string, string>, b: map<string, string>)
    requires Overlaid(outs, a) && Overlaid(outs, b)
    ensures a == b
  {
    OverlaidIncluded(outs, a, b);
    OverlaidIncluded(outs, b, a);
  }

  lemma OverlaidIncluded(outs: seq<map<string, string>>, a: map<string, string>, b: map<string, string>)
    requires Overlaid(outs, a) && Overlaid(outs, b)
    ensures forall n | n in a :: n in b && a[n] == b[n]
  {
    forall n | n in a ensures n in b && a[n] == b[n] {
      var i :| 0 <= i < |outs| && LastGives(outs, i, n, a[n]);
      assert n in b;
      var j :| 0 <= j < |outs| && LastGives(outs, j, n, b[n]);
    }
  }

  // One text per fixed label, under these names.
  ghost predicate FixedText(ev: Evaluator, at: Place, labels: map<string, Extract>, names: seq<string>,
                            fixed: seq<string>)
  {
    && |fixed| == |names|
    && forall i | 0 <= i < |names| :: names[i] in labels && LabelText(ev, at, labels[names[i]], fixed[i])
  }

  // One addition per expand entry, later ones over earlier ones.
  ghost predicate DynamicText(ev: Evaluator, at: Place, expands: seq<ExpandLabel>, dynamic: map<string, string>)
  {
    exists outs :: Overlaid(outs, dynamic) && ExpandTexts(ev, at, expands, outs)
  }

  ghost predicate ExpandTexts(ev: Evaluator, at: Place, expands: seq<ExpandLabel>, outs: seq<map<string, string>>)
  {
    |outs| == |expands| && forall i | 0 <= i < |expands| :: ExpandText(ev, at, expands[i], outs[i])
  }

  ghost predicate SeriesText(ev: Evaluator, rule: Rule, at: Place, ps: PendingSeries)
  {
    && FixedText(ev, at, rule.labels, Ascending(rule.labels.Keys), ps.fixed)
    && DynamicText(ev, at, rule.expandLabels, ps.dynamic)
  }

  lemma FixedMeans(ev: Evaluator, at: Place, labels: map<string, Extract>, names: seq<string>, cls: seq<CompiledLabel>,
                   fixed: seq<string>)
    requires LabelsCompile(labels, names, cls) && |fixed| == |names|
    ensures Related(TextFor(ev, LookupAt(ev, at)), cls, fixed) <==> FixedText(ev, at, labels, names, fixed)
  {
    forall i | 0 <= i < |names|
      ensures names[i] in labels
      ensures TextFor(ev, LookupAt(ev, at))(cls[i], fixed[i]) <==> LabelText(ev, at, labels[names[i]], fixed[i]) {
      assert LabelFrom(labels)(names[i], cls[i]);
      LabelMeans(ev, at, names[i], labels[names[i]], cls[i], fixed[i]);
    }
  }

  lemma ExpandsMean(ev: Evaluator, at: Place, expands: seq<ExpandLabel>, ces: seq<CompiledExpand>,
                    outs: seq<map<string, string>>)
    requires ExpandsCompile(expands, ces) && |outs| == |expands|
    ensures Related(LabelsFor(ev, LookupAt(ev, at)), ces, outs) <==> ExpandTexts(ev, at, expands, outs)
  {
    forall i | 0 <= i < |expands|
      ensures LabelsFor(ev, LookupAt(ev, at))(ces[i], outs[i]) <==> ExpandText(ev, at, expands[i], outs[i]) {
      assert ExpandFrom()(expands[i], ces[i]);
      ExpandMeans(ev, at, expands[i], ces[i], outs[i]);
    }
  }

  lemma DynamicMeans(ev: Evaluator, at: Place, cr: CompiledRule, dynamic: map<string, string>)
    requires ExpandsCompile(cr.rule.expandLabels, cr.expands)
    ensures (exists outs :: MayExpandAll(ev, cr, LookupAt(ev, at), outs) && dynamic == MergeAll(outs))
      <==> DynamicText(ev, at, cr.rule.expandLabels, dynamic)
  {
    if outs :| MayExpandAll(ev, cr, LookupAt(ev, at), outs) && dynamic == MergeAll(outs) {
      MergeOverlays(outs, dynamic);
      ExpandsMean(ev, at, cr.rule.expandLabels, cr.expands, outs);
    }
    if DynamicText(ev, at, cr.rule.expandLabels, dynamic) {
      var outs :| Overlaid(outs, dynamic) && ExpandTexts(ev, at, cr.rule.expandLabels, outs);
      MergeOverlays(outs, dynamic);
      ExpandsMean(ev, at, cr.rule.expandLabels, cr.expands, outs);
      assert MayExpandAll(ev, cr, LookupAt(ev, at), outs);
    }
  }

  // The series of a compiled rule, in terms of the rule as declared.
  lemma SeriesMeans(ev: Evaluator, rule: Rule, cr: CompiledRule, at: Place, ps: PendingSeries)
    requires Compiles(rule, cr)
    ensures MaySeries(ev, cr, LookupAt(ev, at), ps) <==> SeriesText(ev, rule, at, ps)
  {
    DynamicMeans(ev, at, cr, ps.dynamic);
    if |ps.fixed| == |cr.labels| { FixedMeans(ev, at, rule.labels, cr.labelOrder, cr.labels, ps.fixed); }
  }

  // ------------------------------------------------------------------ blocks

  // What the series of an anchor are evaluated on: without forEach once, else
  // once for each result of its path over the anchor.
  ghost predicate Roots(forEach: string, m: map<string, Value>, roots: seq<Option<Value>>)
  {
    if forEach == "" then roots == [None]
    else exists segments, results ::
      Parse(forEach) == Success(segments) && MayEvaluate(Map(m), segments, results) && AreRoots(results, roots)
  }

  ghost predicate AreRoots(results: seq<Value>, roots: seq<Option<Value>>)
  {
    |roots| == |results| && forall j | 0 <= j < |roots| :: roots[j] == Some(results[j])
  }

  ghost predicate BlockText(ev: Evaluator, rule: Rule, chain: Chain, roots: seq<Option<Value>>,
                            block: seq<PendingSeries>)
  {
    |block| == |roots| && forall j | 0 <= j < |block| :: SeriesText(ev, rule, Place(chain, roots[j]), block[j])
  }

  function ItemsAt(roots: seq<Option<Value>>): (items: seq<Option<map<string, Value>>>)
    ensures |items| == |roots| && forall j | 0 <= j < |items| :: items[j] == ItemAt(roots[j])
  {
    seq(|roots|, j requires 0 <= j < |roots| => ItemAt(roots[j]))
  }

  lemma RootsMean(rule: Rule, cr: CompiledRule, m: map<string, Value>, roots: seq<Option<Value>>)
    requires Compiles(rule, cr) && Roots(rule.forEach, m, roots)
    ensures MayItems(cr.forEach, m, ItemsAt(roots))
  {
    if rule.forEach != "" {
      var segments, results :|
        Parse(rule.forEach) == Success(segments) && MayEvaluate(Map(m), segments, results) && AreRoots(results, roots);
      assert ItemsAt(roots) == ItemsOf(results);
    }
  }

  lemma ItemsHaveRoots(rule: Rule, cr: CompiledRule, m: map<string, Value>, items: seq<Option<map<string, Value>>>)
    returns (roots: seq<Option<Value>>)
    requires Compiles(rule, cr) && MayItems(cr.forEach, m, items)
    ensures Roots(rule.forEach, m, roots) && items == ItemsAt(roots)
  {
    roots := [None];
    if rule.forEach != "" {
      var results: seq<Value> :| MayEvaluate(Map(m), cr.forEach.value, results) && items == ItemsOf(results);
      roots := seq(|results|, j requires 0 <= j < |results| => Some(results[j]));
      assert AreRoots(results, roots);
    }
  }

  lemma ItemBlockMeans(ev: Evaluator, rule: Rule, cr: CompiledRule, chain: Chain, roots: seq<Option<Value>>,
                       block: seq<PendingSeries>)
    requires Compiles(rule, cr)
    ensures MayItemBlock(ev, cr, SourcesOf(ev, chain), ItemsAt(roots), block)
      <==> BlockText(ev, rule, chain, roots, block)
  {
    var rel, items := SeriesFor(ev, cr, SourcesOf(ev, chain)), ItemsAt(roots);
    forall j | 0 <= j < |block| && |block| == |roots|
      ensures rel(items[j], block[j]) <==> SeriesText(ev, rule, Place(chain, roots[j]), block[j]) {
      SeriesMeans(ev, rule, cr, Place(chain, roots[j]), block[j]);
    }
  }

  ghost predicate AnchorText(ev: Evaluator, rule: Rule, chain: Chain, anchor: Object, block: seq<PendingSeries>)
  {
    match ev.convert(anchor)
    case None => block == []
    case Some(m) => exists roots :: Roots(rule.forEach, m, roots) && BlockText(ev, rule, chain, roots, block)
  }

  // The series of an anchor, end to end: none if it does not convert, else one
  // per root, and each label is read where the rule declares it, from the owner
  // chain of the anchor or from its own forEach result.
  lemma BlockMeans(ev: Evaluator, rule: Rule, cr: CompiledRule, rs: seq<ResourceInfo>, get: Getter, anchor: Object,
                   block: seq<PendingSeries>)
    requires Compiles(rule, cr)
    ensures MayBlock(ev, cr, rs, get, anchor, block) <==> AnchorText(ev, rule, ChainOf(rs, get, anchor), anchor, block)
  {
    var chain := ChainOf(rs, get, anchor);
    if ev.convert(anchor).Some? {
      var m := ev.convert(anchor).value;
      if MayBlock(ev, cr, rs, get, anchor, block) {
        var items :| MayItems(cr.forEach, m, items) && MayItemBlock(ev, cr, SourcesOf(ev, chain), items, block);
        var roots := ItemsHaveRoots(rule, cr, m, items);
        ItemBlockMeans(ev, rule, cr, chain, roots, block);
      }
      if roots :| Roots(rule.forEach, m, roots) && BlockText(ev, rule, chain, roots, block) {
        RootsMean(rule, cr, m, roots);
        ItemBlockMeans(ev, rule, cr, chain, roots, block);
      }
    }
  }

  // --------------------------------------------------- plain paths and lists

  // A path without wildcards yields what it reaches, or nothing.
  lemma PlainFound(ev: Evaluator, at: Place, source: string, path: string, segments: seq<Segment>, text: string)
    requires Parse(path) == Success(segments) && NoWildcard(segments)
    ensures Found(ev, at, source, path, text) <==>
      exists m, v :: Stands(ev, at, source, m) && Reaches(Map(m), segments, v)
                     && v != Null && text != "" && ev.stringify(v) == text
  {
    if Found(ev, at, source, path, text) {
      var m, segs, results: seq<Value> :|
        FoundIn(ev, at, source, path, m, segs, results) && ev.FirstRenders(results, text);
      SinglePath(Map(m), segments);
      var i :| 0 <= i < |results| && ev.RendersAt(results, i, text);
      EvalReaches(Map(m), segments, results[i]);
    }
    if m, v :| Stands(ev, at, source, m) && Reaches(Map(m), segments, v) && v != Null && text != ""
               && ev.stringify(v) == text {
      SinglePath(Map(m), segments);
      PlainPathReaches(Map(m), segments, v);
      assert FoundIn(ev, at, source, path, m, segments, [v]) && ev.RendersAt([v], 0, text);
    }
  }

  // A forEach that ends in `[*]` over a list has its elements for roots, in order.
  lemma ListRoots(forEach: string, m: map<string, Value>, before: seq<Segment>, elements: seq<Value>,
                  roots: seq<Option<Value>>)
    requires forEach != "" && Parse(forEach) == Success(before + [Wildcard]) && NoWildcard(before)
    requires Reaches(Map(m), before, List(elements)) && Roots(forEach, m, roots)
    ensures AreRoots(elements, roots)
  {
    var path := before + [Wildcard];
    PlainPathReaches(Map(m), before, List(elements));
    EvalCompose(Map(m), before, [Wildcard]);
    WildcardSelects(List(elements));
    assert EvalAll([List(elements)], [Wildcard]) == Eval(List(elements), [Wildcard]) + EvalAll([], [Wildcard]);
    ListOrdered(Map(m), before, elements);
  }

  lemma {:induction false} ListOrdered(v: Value, before: seq<Segment>, elements: seq<Value>)
    requires NoWildcard(before) && Reaches(v, before, List(elements))
    ensures Ordered(v, before + [Wildcard])
    decreases |before|
  {
    var path := before + [Wildcard];
    if before == [] {
      assert path[1..] == [];
    } else {
      assert path[1..] == before[1..] + [Wildcard];
      forall c | c in Children(v, path[0]) ensures Ordered(c, path[1..]) {
        ListOrdered(c, before[1..], elements);
      }
    }
  }

  // One series per element of the list that forEach walks, and a label that
  // reads the item under a plain path shows what that path reaches in the
  // series' own element, an element that is no map being reached under `_`.
  lemma ItemLabels(ev: Evaluator, rule: Rule, cr: CompiledRule, rs: seq<ResourceInfo>, get: Getter, anchor: Object,
                   block: seq<PendingSeries>, before: seq<Segment>, elements: seq<Value>, i: nat,
                   segments: seq<Segment>)
    requires Compiles(rule, cr) && MayBlock(ev, cr, rs, get, anchor, block) && ev.convert(anchor).Some?
    requires rule.forEach != "" && Parse(rule.forEach) == Success(before + [Wildcard]) && NoWildcard(before)
    requires Reaches(Map(ev.convert(anchor).value), before, List(elements))
    requires i < |cr.labelOrder| && cr.labelOrder[i] in rule.labels
    requires rule.labels[cr.labelOrder[i]].source == "item" && NoWildcard(segments)
    requires Parse(rule.labels[cr.labelOrder[i]].path) == Success(segments)
    ensures |block| == |elements| && forall j | 0 <= j < |block| :: i < |block[j].fixed|
    ensures forall j, v | 0 <= j < |block| && v != Null && ev.stringify(v) != "" ::
      Reaches(Map(if elements[j].Map? then elements[j].fields else map["_" := elements[j]]), segments, v)
      ==> block[j].fixed[i] == ev.stringify(v)
  {
    var m, chain, e := ev.convert(anchor).value, ChainOf(rs, get, anchor), rule.labels[cr.labelOrder[i]];
    BlockMeans(ev, rule, cr, rs, get, anchor, block);
    var roots :| Roots(rule.forEach, m, roots) && BlockText(ev, rule, chain, roots, block);
    ListRoots(rule.forEach, m, before, elements, roots);
    forall j | 0 <= j < |block| ensures LabelText(ev, Place(chain, Some(elements[j])), e, block[j].fixed[i]) {
      assert SeriesText(ev, rule, Place(chain, roots[j]), block[j]);
    }
    forall j, v | 0 <= j < |block| && v != Null && ev.stringify(v) != ""
      && Reaches(Map(if elements[j].Map? then elements[j].fields else map["_" := elements[j]]), segments, v)
      ensures block[j].fixed[i] == ev.stringify(v) {
      ItemShows(ev, Place(chain, Some(elements[j])), e, segments, v, block[j].fixed[i]);
    }
  }

  lemma ItemShows(ev: Evaluator, at: Place, e: Extract, segments: seq<Segment>, v: Value, text: string)
    requires e.source == "item" && Parse(e.path) == Success(segments) && NoWildcard(segments)
    requires at.root.Some? && v != Null && ev.stringify(v) != ""
    requires Reaches(Map(if at.root.value.Map? then at.root.value.fields else map["_" := at.root.value]), segments, v)
    requires LabelText(ev, at, e, text)
    ensures text == ev.stringify(v)
  {
    var m := if at.root.value.Map? then at.root.value.fields else map["_" := at.root.value];
    assert Stands(ev, at, e.source, m);
    assert !Missing(ev, at, e.source, e.path);
    assert ([e] + e.fallbacks)[0] == e;
    if Found(ev, at, e.source, e.path, text) {
      PlainFound(ev, at, e.source, e.path, segments, text);
      var n, w :| Stands(ev, at, e.source, n) && Reaches(Map(n), segments, w)
                  && w != Null && text != "" && ev.stringify(w) == text;
      PlainPathReaches(Map(m), segments, v);
      PlainPathReaches(Map(m), segments, w);
    }
  }

  // -------------------------------------------------------------------- rows

  // A row shows this series: its fixed labels under their names and in their
  // order, then every dynamic label, and nothing under any other name.
  ghost predicate RowText(row: Metric, name: string, fixedNames: seq<string>, ps: PendingSeries)
  {
    && row.name == name && |row.values| == |row.labelNames|
    && fixedNames <= row.labelNames && |fixedNames| <= |ps.fixed|
    && (forall p | 0 <= p < |fixedNames| :: row.values[p] == ps.fixed[p])
    && (forall p | |fixedNames| <= p < |row.labelNames| :: ShowsCell(ps, row.labelNames[p], row.values[p]))
    && (forall n | n in ps.dynamic :: n in row.labelNames[|fixedNames|..])
  }

  predicate ShowsCell(ps: PendingSeries, n: string, text: string)
  {
    if n in ps.dynamic then text == ps.dynamic[n] else text == ""
  }

  lemma PaddedShows(name: string, fixedNames: seq<string>, columns: seq<string>, ps: PendingSeries)
    requires |ps.fixed| == |fixedNames| && forall n | n in ps.dynamic :: n in columns
    ensures RowText(Metric(name, fixedNames + columns, Row(ps, columns)), name, fixedNames, ps)
  {
    var row := Metric(name, fixedNames + columns, Row(ps, columns));
    assert row.labelNames[|fixedNames|..] == columns;
    forall p | |fixedNames| <= p < |row.labelNames| ensures ShowsCell(ps, row.labelNames[p], row.values[p]) {
      assert row.labelNames[p] == columns[p - |fixedNames|];
      assert row.values[p] == Cell(ps, columns[p - |fixedNames|]);
    }
  }
}
