// What a scrape sends, from the declared rule to the rows (pkg/collector/collector.go).
module Output {
  import opened Sequences
  import opened Text
  import opened Resources
  import opened Objects
  import opened Resolvers
  import opened Rules
  import opened Evaluators
  import opened Scrapes
  import opened Collectors
  import opened Provenance

  // What a scrape sends, end to end. Each listed anchor has the series that the
  // declared rule reads from its owner chain and its forEach results, and unless
  // nothing is sent, the rows are these series, one each and in that order.
  ghost predicate ScrapeText(ev: Evaluator, rule: Rule, name: string, rs: seq<ResourceInfo>, get: Getter,
                             anchors: seq<Object>, blocks: seq<seq<PendingSeries>>, ch: seq<Metric>)
  {
    && |blocks| == |anchors|
    && (forall a | 0 <= a < |anchors| :: AnchorText(ev, rule, ChainOf(rs, get, anchors[a]), anchors[a], blocks[a]))
    && (ch != [] ==> |ch| == |Flatten(blocks)|)
    && forall r | 0 <= r < |ch| ::
         r < |Flatten(blocks)| && RowText(ch[r], name, Ascending(rule.labels.Keys), Flatten(blocks)[r])
  }

  lemma ScrapeMeans(ev: Evaluator, rule: Rule, cr: CompiledRule, name: string, rs: seq<ResourceInfo>, get: Getter,
                    anchors: seq<Object>, blocks: seq<seq<PendingSeries>>, ch: seq<Metric>)
    requires Compiles(rule, cr)
    requires MayBlocks(ev, cr, rs, get, anchors, blocks) && SendsBlocks(cr, name, blocks, ch)
    ensures ScrapeText(ev, rule, name, rs, get, anchors, blocks, ch)
  {
    forall a | 0 <= a < |anchors|
      ensures AnchorText(ev, rule, ChainOf(rs, get, anchors[a]), anchors[a], blocks[a]) {
      assert BlockFor(ev, cr, rs, get)(anchors[a], blocks[a]);
      BlockMeans(ev, rule, cr, rs, get, anchors[a], blocks[a]);
    }
    if ch != [] {
      BlocksAreFull(ev, cr, rs, get, anchors, blocks);
      RowsShow(name, cr, blocks, ch);
    }
  }

  lemma RowsShow(name: string, cr: CompiledRule, blocks: seq<seq<PendingSeries>>, ch: seq<Metric>)
    requires |cr.labels| == |cr.labelOrder| && SendsBlocks(cr, name, blocks, ch) && ch != []
    requires forall i | 0 <= i < |Flatten(blocks)| ::
      Full(Flatten(blocks)[i]) && |Flatten(blocks)[i].fixed| == |cr.labels|
    ensures |ch| == |Flatten(blocks)|
    ensures forall r | 0 <= r < |ch| :: RowText(ch[r], name, cr.labelOrder, Flatten(blocks)[r])
  {
    var pending, columns := Flatten(blocks), Columns(blocks);
    ColumnsExact(pending);
    forall r | 0 <= r < |ch| ensures RowText(ch[r], name, cr.labelOrder, pending[r]) {
      PaddedShows(name, cr.labelOrder, columns, pending[r]);
    }
  }
}
