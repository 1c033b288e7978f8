// Which label names a validated rule can emit, and when Prometheus takes them
// (pkg/config/config.go, pkg/collector/evaluator.go, pkg/collector/collector.go).
module LabelNames {
  import opened Sequences
  import opened Text
  import opened Resources
  import opened Objects
  import opened Resolvers
  import opened Rules
  import opened Evaluators
  import opened Scrapes

  lemma PrefixIsName(prefix: string)
    requires PrefixOk(prefix)
    ensures prefix != "" && IsLabelName(prefix)
  {
    assert forall i | 0 <= i < |prefix| :: (prefix + "x")[i] == prefix[i];
    assert prefix == "" ==> TrimSpace(prefix) == "";
  }

  // Whatever the key, a valid prefix gives a valid label name. It is reserved
  // exactly when the prefix is a lone `_` and the sanitised key starts with `_`.
  lemma DynamicName(ce: CompiledExpand, k: string)
    requires PrefixOk(ce.prefix)
    ensures IsLabelName(LabelFor(ce, k))
    ensures IsReserved(LabelFor(ce, k)) <==> ce.prefix == "_" && SanitizeLabelKey(k)[0] == '_'
  {
    var prefix, s, n := ce.prefix, SanitizeLabelKey(k), LabelFor(ce, k);
    PrefixIsName(prefix);
    assert n[0] == prefix[0] && n[1] == if |prefix| > 1 then prefix[1] else s[0];
    assert IsReserved(n) <==> n[0] == '_' && n[1] == '_';
    assert |prefix| > 1 ==> (IsReserved(prefix) <==> prefix[0] == '_' && prefix[1] == '_');
    assert |prefix| == 1 ==> (prefix == "_" <==> prefix[0] == '_');
  }

  // Without allow or deny a name is reachable exactly if it properly extends
  // the prefix.
  lemma UnrestrictedReach(ce: CompiledExpand, n: string)
    requires ce.allowSet.None? && ce.denySet.None? && IsLabelName(n)
    ensures (exists k :: Admits(ce, k) && LabelFor(ce, k) == n) <==> ce.prefix < n
  {
    if ce.prefix < n {
      var k := n[|ce.prefix|..];
      SanitizeKeepsSafe(k);
      assert Admits(ce, k) && LabelFor(ce, k) == n;
    }
  }

  // No admitted key of any expand entry lands on a fixed or reserved name.
  ghost predicate SafeNames(cr: CompiledRule)
  {
    forall i, k | 0 <= i < |cr.expands| && Admits(cr.expands[i], k) :: SafeName(cr, LabelFor(cr.expands[i], k))
  }

  predicate SafeName(cr: CompiledRule, n: string)
  {
    n !in cr.labelOrder && !IsReserved(n)
  }

  // What validation and compilation leave to rely on: ascending, valid, not
  // reserved fixed names, and valid prefixes.
  ghost predicate GoodNames(cr: CompiledRule)
  {
    && StrictlySorted(cr.labelOrder)
    && (forall i | 0 <= i < |cr.labelOrder| :: IsLabelName(cr.labelOrder[i]) && !IsReserved(cr.labelOrder[i]))
    && (forall i | 0 <= i < |cr.expands| :: PrefixOk(cr.expands[i].prefix))
  }

  lemma ValidatedNames(rs: seq<ResourceInfo>, rule: Rule, cr: CompiledRule)
    requires RuleOk(rs, rule) && Compiles(rule, cr)
    ensures GoodNames(cr)
    ensures forall i | 0 <= i < |cr.expands| :: cr.expands[i].prefix !in cr.labelOrder
  {
    ListsMembers(cr.labelOrder, rule.labels.Keys);
    forall i | 0 <= i < |cr.expands| ensures PrefixOk(cr.expands[i].prefix) && cr.expands[i].prefix !in cr.labelOrder {
      assert ExpandCompiles(rule.expandLabels[i], cr.expands[i]);
      assert ExpandOk(rs, rule.expandLabels[i], rule.forEach != "");
    }
  }

  // Every column comes from an admitted key of some expand entry.
  lemma ColumnOrigin(ev: Evaluator, cr: CompiledRule, lookup: SrcLookup, ps: PendingSeries, n: string)
    requires MaySeries(ev, cr, lookup, ps) && n in ps.dynamic
    ensures exists i, k | 0 <= i < |cr.expands| :: Admits(cr.expands[i], k) && LabelFor(cr.expands[i], k) == n
  {
    var outs :| MayExpandAll(ev, cr, lookup, outs) && ps.dynamic == MergeAll(outs);
    var i := MergedFrom(outs, n);
    ev.ExpandIsFull(cr.expands[i], lookup, outs[i]);
  }

  lemma BlockColumnOrigin(ev: Evaluator, cr: CompiledRule, rs: seq<ResourceInfo>, get: Getter, anchors: seq<Object>,
                          blocks: seq<seq<PendingSeries>>, n: string)
    requires MayBlocks(ev, cr, rs, get, anchors, blocks) && n in DynamicKeys(Flatten(blocks))
    ensures exists i, k | 0 <= i < |cr.expands| :: Admits(cr.expands[i], k) && LabelFor(cr.expands[i], k) == n
  {
    var pending := Flatten(blocks);
    DynamicKeyOf(pending, n);
    var p :| 0 <= p < |pending| && n in pending[p].dynamic;
    FlattenMember(blocks, pending[p]);
    var b :| 0 <= b < |blocks| && pending[p] in blocks[b];
    assert MayBlock(ev, cr, rs, get, anchors[b], blocks[b]);
    var m, sources := ev.convert(anchors[b]).value, SourcesOf(ev, ChainOf(rs, get, anchors[b]));
    var items :| MayItems(cr.forEach, m, items) && MayItemBlock(ev, cr, sources, items, blocks[b]);
    var j :| 0 <= j < |blocks[b]| && blocks[b][j] == pending[p];
    ColumnOrigin(ev, cr, SrcLookup(sources, items[j]), pending[p], n);
  }

  // The names a scrape emits, in row order.
  ghost function EmittedNames(cr: CompiledRule, blocks: seq<seq<PendingSeries>>): seq<string>
  {
    cr.labelOrder + Columns(blocks)
  }

  predicate NoLoneUnderscore(cr: CompiledRule)
  {
    forall i | 0 <= i < |cr.expands| :: cr.expands[i].prefix != "_"
  }

  lemma ColumnName(ev: Evaluator, cr: CompiledRule, rs: seq<ResourceInfo>, get: Getter, anchors: seq<Object>,
                   blocks: seq<seq<PendingSeries>>, n: string)
    requires GoodNames(cr) && MayBlocks(ev, cr, rs, get, anchors, blocks) && n in DynamicKeys(Flatten(blocks))
    ensures IsLabelName(n)
    ensures NoLoneUnderscore(cr) ==> !IsReserved(n)
    ensures SafeNames(cr) ==> SafeName(cr, n)
  {
    BlockColumnOrigin(ev, cr, rs, get, anchors, blocks, n);
    var e, k :| 0 <= e < |cr.expands| && Admits(cr.expands[e], k) && LabelFor(cr.expands[e], k) == n;
    DynamicName(cr.expands[e], k);
  }

  // Every emitted name is a Prometheus label name, and without a lone `_` for a
  // prefix none is reserved.
  lemma EmittedNamesValid(ev: Evaluator, cr: CompiledRule, rs: seq<ResourceInfo>, get: Getter, anchors: seq<Object>,
                          blocks: seq<seq<PendingSeries>>)
    requires GoodNames(cr) && MayBlocks(ev, cr, rs, get, anchors, blocks)
    ensures forall i | 0 <= i < |EmittedNames(cr, blocks)| :: IsLabelName(EmittedNames(cr, blocks)[i])
    ensures NoLoneUnderscore(cr) ==>
      forall i | 0 <= i < |EmittedNames(cr, blocks)| :: !IsReserved(EmittedNames(cr, blocks)[i])
  {
    var columns := Columns(blocks);
    ListsMembers(columns, DynamicKeys(Flatten(blocks)));
    forall i | 0 <= i < |columns|
      ensures IsLabelName(columns[i]) && (NoLoneUnderscore(cr) ==> !IsReserved(columns[i])) {
      ColumnName(ev, cr, rs, get, anchors, blocks, columns[i]);
    }
  }

  // No column of this scrape has the name of a fixed label or a reserved one.
  ghost predicate SafeColumns(cr: CompiledRule, blocks: seq<seq<PendingSeries>>)
  {
    forall n | n in DynamicKeys(Flatten(blocks)) :: SafeName(cr, n)
  }

  lemma SafeNamesColumns(ev: Evaluator, cr: CompiledRule, rs: seq<ResourceInfo>, get: Getter, anchors: seq<Object>,
                         blocks: seq<seq<PendingSeries>>)
    requires GoodNames(cr) && SafeNames(cr) && MayBlocks(ev, cr, rs, get, anchors, blocks)
    ensures SafeColumns(cr, blocks)
  {
    forall n | n in DynamicKeys(Flatten(blocks)) ensures SafeName(cr, n) {
      ColumnName(ev, cr, rs, get, anchors, blocks, n);
    }
  }

  // The descriptor of a scrape is accepted exactly when its columns are safe.
  lemma ColumnsAccepted(name: string, ev: Evaluator, cr: CompiledRule, rs: seq<ResourceInfo>, get: Getter,
                        anchors: seq<Object>, blocks: seq<seq<PendingSeries>>)
    requires IsMetricName(name) && GoodNames(cr) && MayBlocks(ev, cr, rs, get, anchors, blocks)
    ensures DescAccepts(name, EmittedNames(cr, blocks)) <==> SafeColumns(cr, blocks)
    ensures !SafeColumns(cr, blocks) ==> Flatten(blocks) != []
  {
    var columns := Columns(blocks);
    ListsMembers(columns, DynamicKeys(Flatten(blocks)));
    if SafeColumns(cr, blocks) {
      forall i | 0 <= i < |columns| ensures IsLabelName(columns[i]) && SafeName(cr, columns[i]) {
        ColumnName(ev, cr, rs, get, anchors, blocks, columns[i]);
      }
      JoinAccepted(name, cr, columns);
    } else {
      var n :| n in DynamicKeys(Flatten(blocks)) && !SafeName(cr, n);
      UnsafeRejected(name, cr, columns, n);
    }
  }

  lemma JoinAccepted(name: string, cr: CompiledRule, columns: seq<string>)
    requires IsMetricName(name) && GoodNames(cr) && StrictlySorted(columns)
    requires forall i | 0 <= i < |columns| :: IsLabelName(columns[i]) && SafeName(cr, columns[i])
    ensures DescAccepts(name, cr.labelOrder + columns)
  {
    DisjointSorted(cr.labelOrder, columns);
  }

  lemma DisjointSorted(a: seq<string>, b: seq<string>)
    requires StrictlySorted(a) && StrictlySorted(b) && forall i | 0 <= i < |b| :: b[i] !in a
    ensures Distinct(a + b)
  {
  }

  lemma UnsafeRejected(name: string, cr: CompiledRule, columns: seq<string>, n: string)
    requires n in columns && !SafeName(cr, n)
    ensures !DescAccepts(name, cr.labelOrder + columns)
  {
    var all := cr.labelOrder + columns;
    var j :| 0 <= j < |columns| && columns[j] == n;
    assert all[|cr.labelOrder| + j] == n;
    if n in cr.labelOrder {
      var i :| 0 <= i < |cr.labelOrder| && cr.labelOrder[i] == n;
      assert all[i] == n;
    }
  }

  // The documented precaution is enough: no prefix is a lone `_`, and no fixed
  // name begins with a prefix.
  lemma PrefixesKeepNamesSafe(cr: CompiledRule)
    requires GoodNames(cr)
    requires NoLoneUnderscore(cr)
    requires forall i, j | 0 <= i < |cr.expands| && 0 <= j < |cr.labelOrder| ::
      !(cr.expands[i].prefix <= cr.labelOrder[j])
    ensures SafeNames(cr)
  {
    forall i, k | 0 <= i < |cr.expands| && Admits(cr.expands[i], k) ensures SafeName(cr, LabelFor(cr.expands[i], k)) {
      DynamicName(cr.expands[i], k);
      assert cr.expands[i].prefix <= LabelFor(cr.expands[i], k);
    }
  }
}
