// Inputs on which the exporter departs from its documentation, or from what a
// reader of the configuration would expect. The exact conditions are proved
// beside the definitions; these are the smallest cases outside them.
module Departures {
  import opened Wrappers
  import opened Sequences
  import opened Text
  import opened Resources
  import opened Registries
  import opened PathSyntax
  import opened PathLanguage
  import opened PathEval
  import opened Objects
  import opened Store
  import opened Resolvers
  import opened Rules
  import opened Evaluators
  import opened Scrapes
  import opened LabelNames
  import opened NameSafety
  import opened Collectors

  // ------------------------------------------------------- colliding names

  // A rule with one fixed label and one expand entry without lists or limit.
  function OneLabelRule(anchor: string, fixed: string, path: string, prefix: string): Rule
  {
    Rule("info", anchor, "", map[fixed := Extract("anchor", "metadata.name", [], None)],
         [ExpandLabel("anchor", path, prefix, [], [], 0)])
  }

  lemma OneLabelRuleOk(info: ResourceInfo, fixed: string, path: string, prefix: string)
    requires IsLabelName(fixed) && !IsReserved(fixed) && PrefixOk(prefix) && prefix != fixed
    requires path != "" && !IsSpace(path[0])
    ensures RuleOk([info], OneLabelRule(info.name, fixed, path, prefix))
  {
    var rule := OneLabelRule(info.name, fixed, path, prefix);
    Visible("info");
    Visible("metadata.name");
    Visible(path);
    assert FindName([info], info.name) == Some(info);
    assert LabelOk([info], rule, fixed);
    assert ExpandEntryOk([info], rule, rule.expandLabels[0]);
  }

  // A path of one field, as `data`, and of two, as `metadata.labels`.
  lemma FieldPath(a: string)
    requires IsIdent(a)
    ensures Parse(a) == Success([Field(a)])
  {
    TokensCons(Ident(a), []);
    assert [Ident(a)] + [] == [Ident(a)];
    assert a + "" == a && [Field(a)] + [] == [Field(a)];
    TokensParse([Ident(a)]);
  }

  lemma TwoFieldPath(a: string, b: string)
    requires IsIdent(a) && IsIdent(b)
    ensures Parse(a + "." + b) == Success([Field(a), Field(b)])
  {
    var ts := [Ident(a), Dot, Ident(b)];
    TokensCons(Ident(b), []);
    assert [Ident(b)] + [] == [Ident(b)];
    TokensCons(Dot, [Ident(b)]);
    assert [Dot] + [Ident(b)] == [Dot, Ident(b)];
    TokensCons(Ident(a), [Dot, Ident(b)]);
    assert [Ident(a)] + [Dot, Ident(b)] == ts;
    assert a + ("." + (b + "")) == a + "." + b;
    assert [Field(a)] + ([] + ([Field(b)] + [])) == [Field(a), Field(b)];
    TokensParse(ts);
  }

  lemma IdentIsVisible(a: string, rest: string)
    requires IsIdent(a)
    ensures a + rest != "" && !IsSpace((a + rest)[0])
  {
    assert (a + rest)[0] == a[0];
  }

  // What is left of such a rule once compiled.
  ghost predicate OneLabel(cr: CompiledRule, fixed: string, path: seq<Segment>, prefix: string)
  {
    && cr.forEach == None && fixed in cr.labelOrder && |cr.expands| == 1
    && cr.expands[0] == CompiledExpand("anchor", path, prefix, None, None, 0)
  }

  lemma CompiledOneLabel(anchor: string, fixed: string, text: string, path: seq<Segment>, prefix: string,
                         cr: CompiledRule)
    requires Compiles(OneLabelRule(anchor, fixed, text, prefix), cr) && Parse(text) == Success(path)
    ensures OneLabel(cr, fixed, path, prefix)
  {
    var rule := OneLabelRule(anchor, fixed, text, prefix);
    ListsMembers(cr.labelOrder, rule.labels.Keys);
    assert fixed in rule.labels.Keys;
    assert ExpandFrom()(rule.expandLabels[0], cr.expands[0]);
  }

  lemma CompiledOneField(anchor: string, fixed: string, a: string, prefix: string, cr: CompiledRule)
    requires IsIdent(a) && Compiles(OneLabelRule(anchor, fixed, a, prefix), cr)
    ensures OneLabel(cr, fixed, [Field(a)], prefix)
  {
    FieldPath(a);
    CompiledOneLabel(anchor, fixed, a, [Field(a)], prefix, cr);
  }

  lemma CompiledTwoFields(anchor: string, fixed: string, a: string, b: string, prefix: string, cr: CompiledRule)
    requires IsIdent(a) && IsIdent(b) && Compiles(OneLabelRule(anchor, fixed, a + "." + b, prefix), cr)
    ensures OneLabel(cr, fixed, [Field(a), Field(b)], prefix)
  {
    TwoFieldPath(a, b);
    CompiledOneLabel(anchor, fixed, a + "." + b, [Field(a), Field(b)], prefix, cr);
  }

  // The object holds this key in a map under this path, among whatever else.
  ghost predicate HoldsKey(ev: Evaluator, o: Object, path: seq<Segment>, k: string)
  {
    && ev.convert(o).Some?
    && var found := Eval(Map(ev.convert(o).value), path);
    && found != [] && found[0].Map? && ev.Live(found[0].fields, k)
  }

  // So does a pod that has the label, whatever else it consists of.
  lemma TwoFieldsHold(ev: Evaluator, o: Object, a: string, b: string, k: string)
    requires ev.convert(o).Some? && a in ev.convert(o).value && ev.convert(o).value[a].Map?
    requires b in ev.convert(o).value[a].fields && ev.convert(o).value[a].fields[b].Map?
    requires ev.Live(ev.convert(o).value[a].fields[b].fields, k)
    ensures HoldsKey(ev, o, [Field(a), Field(b)], k)
  {
    var m := ev.convert(o).value;
    assert [Field(a), Field(b)] == [Field(a)] + [Field(b)];
    EvalCompose(Map(m), [Field(a)], [Field(b)]);
    FieldSelects(Map(m), a);
    FieldSelects(m[a], b);
    assert EvalAll([m[a]], [Field(b)]) == Eval(m[a], [Field(b)]) + EvalAll([], [Field(b)]);
  }

  lemma HolderBears(ev: Evaluator, info: ResourceInfo, fixed: string, path: seq<Segment>, prefix: string, k: string,
                    cr: CompiledRule, get: Getter, o: Object)
    requires OneLabel(cr, fixed, path, prefix) && NoWildcard(path) && HoldsKey(ev, o, path, k)
    requires PlainNames([info]) && o.kind !in BUILTIN_SOURCES
    ensures Bears(ev, cr, [info], get, o, 0, k)
  {
    var m := ev.convert(o).value;
    var lookup := LookupFor(ev, [info], get, o, None);
    AnchorIsItself([info], get, o);
    assert lookup.At("anchor") == Some(m);
    SinglePath(Map(m), path);
    FewSurvive(cr.expands[0], Eval(Map(m), path)[0].fields.Keys, k);
    assert ReadsKey(ev, cr.expands[0], lookup, k);
    assert None in Items(cr.forEach, m);
  }

  lemma UnsafeLabel(fixed: string, path: seq<Segment>, prefix: string, k: string, cr: CompiledRule)
    requires OneLabel(cr, fixed, path, prefix)
    requires SanitizeLabelKey(k) == k && (prefix + k == fixed || IsReserved(prefix + k))
    ensures !SafeName(cr, LabelFor(cr.expands[0], k))
  {
  }

  // Any anchor with a key that meets a fixed or a reserved name silences such a
  // rule, whatever else it holds and whatever else is scraped: there are series
  // to send, and nothing is sent. So does a pod with the label `app` under
  // `metadata.labels`, and a config map with the key `_x` under `data`.
  lemma UnsafeKeySilences(ev: Evaluator, info: ResourceInfo, fixed: string, path: seq<Segment>, prefix: string,
                          k: string, cr: CompiledRule, get: Getter, anchors: seq<Object>, o: Object,
                          blocks: seq<seq<PendingSeries>>, ch: seq<Metric>)
    requires OneLabel(cr, fixed, path, prefix) && NoWildcard(path) && HoldsKey(ev, o, path, k)
    requires PlainNames([info]) && o.kind !in BUILTIN_SOURCES && o in anchors
    requires SanitizeLabelKey(k) == k && (prefix + k == fixed || IsReserved(prefix + k))
    requires MayBlocks(ev, cr, [info], get, anchors, blocks) && SendsBlocks(cr, "info", blocks, ch)
    ensures Flatten(blocks) != [] && ch == []
  {
    HolderBears(ev, info, fixed, path, prefix, k, cr, get, o);
    UnsafeLabel(fixed, path, prefix, k, cr);
    UnsafeBearer(ev, cr, [info], get, anchors, o, k, "info", blocks, ch);
  }

  lemma UnsafeBearer(ev: Evaluator, cr: CompiledRule, rs: seq<ResourceInfo>, get: Getter, anchors: seq<Object>,
                     o: Object, k: string, name: string, blocks: seq<seq<PendingSeries>>, ch: seq<Metric>)
    requires o in anchors && Bears(ev, cr, rs, get, o, 0, k) && !SafeName(cr, LabelFor(cr.expands[0], k))
    requires MayBlocks(ev, cr, rs, get, anchors, blocks) && SendsBlocks(cr, name, blocks, ch)
    ensures Flatten(blocks) != [] && ch == []
  {
    var a :| 0 <= a < |anchors| && anchors[a] == o;
    LabelIsUnsafe(ev, cr, rs, get, anchors, blocks, a, 0, k);
    UnsafeSendsNothing(ev, cr, name, rs, get, anchors, blocks, ch);
  }

  lemma ExtendsPrefix(fixed: string, prefix: string, k: string)
    requires PrefixOk(prefix) && fixed == prefix + k
    requires k != "" && forall i | 0 <= i < |k| :: IsLabelPart(k[i])
    ensures IsLabelName(fixed) && fixed != prefix
  {
    PrefixIsName(prefix);
  }

  // Validation lets a fixed label and an expanded one share a name, as a fixed
  // `label_app` and the key `app` under the prefix `label_` do.
  lemma CollisionIsAccepted(info: ResourceInfo, fixed: string, a: string, b: string, prefix: string, k: string)
    requires IsIdent(a) && IsIdent(b) && PrefixOk(prefix) && fixed == prefix + k && !IsReserved(fixed)
    requires k != "" && forall i | 0 <= i < |k| :: IsLabelPart(k[i])
    ensures RuleOk([info], OneLabelRule(info.name, fixed, a + "." + b, prefix))
  {
    ExtendsPrefix(fixed, prefix, k);
    IdentIsVisible(a, "." + b);
    assert a + ("." + b) == a + "." + b;
    OneLabelRuleOk(info, fixed, a + "." + b, prefix);
  }

  // Validation accepts a lone `_` for a prefix, which makes a reserved name of
  // every key that starts with `_`.
  lemma ReservedIsAccepted(info: ResourceInfo, fixed: string, a: string, k: string)
    requires IsIdent(a) && IsLabelName(fixed) && !IsReserved(fixed) && fixed != "_"
    requires k != "" && k[0] == '_'
    ensures RuleOk([info], OneLabelRule(info.name, fixed, a, "_")) && IsReserved("_" + k)
  {
    LoneUnderscore(k);
    IdentIsVisible(a, "");
    assert a + "" == a;
    OneLabelRuleOk(info, fixed, a, "_");
  }

  lemma LoneUnderscore(k: string)
    requires k != "" && k[0] == '_'
    ensures PrefixOk("_") && IsReserved("_" + k)
  {
    Visible("_");
    var n := "_" + k;
    assert n[0] == '_' && n[1] == '_';
  }

  // --------------------------------------------------------- keys and limits

  // The limit counts keys whose value is then dropped: one key is allowed, the
  // first is nil, and the second is never exported.
  lemma LimitCountsNil(ev: Evaluator, ce: CompiledExpand, v: Value, out: map<string, string>)
    requires ce.allowSet.None? && ce.denySet.None? && ce.maxKeys == 1
    requires ev.IsExpansion(ce, map["a" := Null, "b" := v], out)
    ensures out == map[]
  {
    var m := map["a" := Null, "b" := v];
    assert m.Keys == {"a", "b"};
    assert Admitted(ce, m.Keys) == {"a", "b"};
    assert "a" != "b" && |{"a", "b"}| == 2;
    assert LexLe("a", "b");
    assert Survivors(ce, m.Keys, {"a"});
    assert ev.Exports(ce, m, {"a"}, map[]);
    ev.ExpansionUnique(ce, m, out, map[]);
  }

  // ------------------------------------------------------------ watch scopes

  function Entry(name: string, kind: string, plural: string, namespace: string): WatchResource
  {
    WatchResource(name, "v1", "", "v1", plural, kind, SCOPE_NAMESPACED, [namespace], "", "", DEFAULT_OWNER)
  }

  // An entry called like the kind of an earlier one is watched in the namespaces
  // of the earlier one.
  lemma ScopeIsBorrowed(name: string, kind: string, other: string, plural: string, otherPlural: string)
    requires IsResourceName(name) && IsKindName(kind) && IsKindName(other) && IsPluralName(plural)
      && IsPluralName(otherPlural)
    requires name != kind && kind != other && plural != otherPlural
    requires SupportedResource(kind).None? && SupportedResource(other).None?
    ensures var watch := [Entry(name, kind, plural, "a"), Entry(kind, other, otherPlural, "b")];
      exists rs: seq<ResourceInfo> ::
        Declares(watch, false, rs) && rs[1].name == kind && ScopesOf(watch, rs[1]) == ["a"]
  {
    var watch := [Entry(name, kind, plural, "a"), Entry(kind, other, otherPlural, "b")];
    var rs := [EntryInfo(name, kind, plural), EntryInfo(kind, other, otherPlural)];
    EntryNormalizes(name, kind, plural, "a");
    EntryNormalizes(kind, other, otherPlural, "b");
    assert !Clash(rs[0], rs[1]);
    assert Declares(watch, false, rs);
    assert WatchFor(watch, kind) == Some(watch[0]);
    assert rs[1].name == kind && ScopesOf(watch, rs[1]) == ["a"];
  }

  function EntryInfo(name: string, kind: string, plural: string): ResourceInfo
  {
    ResourceInfo(name, kind, "v1", "", "v1", plural, SCOPE_NAMESPACED, DEFAULT_OWNER)
  }

  lemma EntryNormalizes(name: string, kind: string, plural: string, namespace: string)
    requires IsResourceName(name) && IsKindName(kind) && IsPluralName(plural)
    requires SupportedResource(kind).None?
    ensures NormalizeResource(Entry(name, kind, plural, namespace), false) == Success(EntryInfo(name, kind, plural))
    ensures ApplyLegacyDefaults(Entry(name, kind, plural, namespace)) == Entry(name, kind, plural, namespace)
  {
    var r := Entry(name, kind, plural, namespace);
    Visible(kind);
    GroupVersionRoundTrip(GroupVersion("", "v1"));
    assert ApplyLegacyDefaults(r) == r;
    assert GroupVersionFor(r) == Success(GroupVersion("", "v1"));
  }

  // ------------------------------------------------------------- owner chains

  function ObjectOf(info: ResourceInfo, name: string, owners: seq<OwnerReference>): Object
  {
    Object(info.kind, info.GVK(), Some(ObjectMeta("ns", name, owners)), map[])
  }

  // Two objects of one resource in the cache of its namespace, `a` owned by `b`.
  function OwnedBy(info: ResourceInfo): Object
  {
    ObjectOf(info, "a", [OwnerReference("v1", info.kind, "b", Some(true))])
  }

  function Both(info: ResourceInfo): Listers
  {
    map[info.name := map["ns" := map[ObjectKey("ns", "a") := OwnedBy(info), ObjectKey("ns", "b") := ObjectOf(info,
      "b", [])]]]
  }

  lemma LooksUpItself(info: ResourceInfo)
    requires info.version != "" && info.kind != ""
    ensures Lookup([info], info.name) == Success(info) && Lookup([info], info.kind) == Success(info)
    ensures FindGVK([info], info.GVK()) == Some(info)
  {
    var rest: seq<ResourceInfo> := [];
    assert [info][1..] == rest;
    assert FindName(rest, info.kind) == None;
    assert OfKind([info], info.kind) == [info] + OfKind(rest, info.kind) == [info];
  }

  // The registry and caches of a watch list with one custom resource.
  lemma OneResource(name: string, kind: string, plural: string)
    requires IsResourceName(name) && IsKindName(kind) && IsPluralName(plural) && SupportedResource(kind).None?
    ensures var watch, info := [Entry(name, kind, plural, "ns")], EntryInfo(name, kind, plural);
      && Declares(watch, false, [info]) && CachesWellKeyed(Both(info))
      && StoreGetter([info], watch, Both(info))(name, "ns", "b") == Some(ObjectOf(info, "b", []))
  {
    var watch, info := [Entry(name, kind, plural, "ns")], EntryInfo(name, kind, plural);
    EntryNormalizes(name, kind, plural, "ns");
    LooksUpItself(info);
    assert WatchFor(watch, name) == Some(watch[0]);
    assert ObjectKey("ns", "a") != ObjectKey("ns", "b");
    assert GetFrom([info], watch, Both(info), name, "ns", "b") == Success(ObjectOf(info, "b", []));
  }

  lemma OneHop(info: ResourceInfo, get: Getter)
    requires info.version == "v1" && info.group == "" && info.kind != "" && info.owner == DEFAULT_OWNER
    requires get(info.name, "ns", "b") == Some(ObjectOf(info, "b", []))
    ensures Walk([info], get, OwnedBy(info), MAX_DEPTH) == [Hop(info, ObjectOf(info, "b", []))]
  {
    var a, b, rs := OwnedBy(info), ObjectOf(info, "b", []), [info];
    GroupVersionRoundTrip(GroupVersion("", "v1"));
    LooksUpItself(info);
    assert FindControllerRef(a.meta.value.owners) == Some(a.meta.value.owners[0]);
    assert Parent(rs, get, a) == Some(Hop(info, b));
    assert Parent(rs, get, b) == None;
    assert Trail(NextOf(rs, get), b, MAX_DEPTH - 1) == [];
  }

  // The empty string among the namespaces of an entry opens a cluster-wide cache
  // that `ListAll` reads and `Get` never does.
  lemma ListedButNotGot(name: string, kind: string, plural: string, o: Object, parts: seq<seq<Object>>)
    requires IsResourceName(name) && IsKindName(kind) && IsPluralName(plural) && SupportedResource(kind).None?
    requires o.meta.Some? && o.meta.value.namespace != ""
    requires var info, key := EntryInfo(name, kind, plural), ObjectKey(o.meta.value.namespace, o.meta.value.name);
      Listing(ScopesOf([Entry(name, kind, plural, "")], info), map["" := map[key := o]], parts)
    ensures var watch, info := [Entry(name, kind, plural, "")], EntryInfo(name, kind, plural);
      var listers: Listers := map[name := map["" := map[ObjectKey(o.meta.value.namespace, o.meta.value.name) := o]]];
      && Declares(watch, false, [info]) && CachesWellKeyed(listers)
      && o in Flatten(parts)
      && GetFrom([info], watch, listers, name, o.meta.value.namespace, o.meta.value.name) == Failure(NoLister)
  {
    var watch, info := [Entry(name, kind, plural, "")], EntryInfo(name, kind, plural);
    var k := ObjectKey(o.meta.value.namespace, o.meta.value.name);
    var scopes: map<string, Cache> := map["" := map[k := o]];
    EntryNormalizes(name, kind, plural, "");
    LooksUpItself(info);
    assert WatchFor(watch, name) == Some(watch[0]);
    assert ScopesOf(watch, info) == [""];
    assert [""][0] in scopes && Lists(parts[0], scopes[""].Values);
    ListsMembers(parts[0], scopes[""].Values);
    assert scopes[""][k] in scopes[""].Values;
  }

  // Two objects of one resource on a walk: the documentation keeps the first,
  // the chain the last. The anchor `a` is owned by `b`, of the same resource.
  lemma LastOccurrenceWins(name: string, kind: string, plural: string)
    requires IsResourceName(name) && IsKindName(kind) && IsPluralName(plural) && SupportedResource(kind).None?
    requires name !in BUILTIN_SOURCES
    ensures var watch, info := [Entry(name, kind, plural, "ns")], EntryInfo(name, kind, plural);
      var get, a := StoreGetter([info], watch, Both(info)), OwnedBy(info);
      && Declares(watch, false, [info]) && CachesWellKeyed(Both(info))
      && FirstOf(Stops([info], get, a), name) == Some(a)
      && At(ChainOf([info], get, a), name) == Some(ObjectOf(info, "b", [])) != Some(a)
  {
    var watch, info := [Entry(name, kind, plural, "ns")], EntryInfo(name, kind, plural);
    var get, a, b := StoreGetter([info], watch, Both(info)), OwnedBy(info), ObjectOf(info, "b", []);
    OneResource(name, kind, plural);
    OneHop(info, get);
    LooksUpItself(info);
    assert Stops([info], get, a) == [Hop(info, a), Hop(info, b)];
    assert a.meta.value.name != b.meta.value.name;
    KindIsNotBuiltin(kind);
    assert PlainNames([info]) && WellDeclared([info]);
    ReferenceMeaning([info], get, a, name);
  }

  // A resource may be called `ownerController`. An anchor of that resource then
  // is its own `ownerController`, although it has no owner.
  lemma OwnerControllerIsTaken(kind: string, plural: string, get: Getter)
    requires IsKindName(kind) && IsPluralName(plural) && SupportedResource(kind).None?
    ensures var info := EntryInfo("ownerController", kind, plural);
      var o := ObjectOf(info, "b", []);
      && Declares([Entry("ownerController", kind, plural, "ns")], false, [info])
      && Walk([info], get, o, MAX_DEPTH) == []
      && At(ChainOf([info], get, o), "ownerController") == Some(o)
  {
    var info := EntryInfo("ownerController", kind, plural);
    var o := ObjectOf(info, "b", []);
    EntryNormalizes("ownerController", kind, plural, "ns");
    KindIsNotBuiltin(kind);
    LooksUpItself(info);
    assert Parent([info], get, o) == None;
    OwnerControllerMeaning([info], get, o);
  }
}
