// Rules and their validation (pkg/config/config.go).
module Rules {
  import opened Wrappers
  import opened Text
  import opened Resources
  import opened Registries

  // The empty string stands for an omitted source or forEach.
  datatype Extract = Extract(source: string, path: string, fallbacks: seq<Extract>, onMissing: Option<string>)

  datatype ExpandLabel = ExpandLabel(
    source: string,
    path: string,
    prefix: string,
    allow: seq<string>,
    deny: seq<string>,
    maxKeys: int)

  datatype Rule = Rule(
    name: string,
    anchor: string,
    forEach: string,
    labels: map<string, Extract>,
    expandLabels: seq<ExpandLabel>)

  datatype RuleError =
    | NameRequired
    | UnknownAnchor
    | NoLabels
    | InvalidLabelName(name: string)
    | ReservedLabelName(name: string)
    | UnknownSource(source: string)
    | ItemWithoutForEach
    | PathRequired
    | NestedFallbacks
    | PrefixRequired
    | InvalidPrefix
    | ReservedPrefix
    | NegativeMaxKeys
    | PrefixCollides(prefix: string)

  function EffectiveSource(source: string): string
  {
    if source == "" then "anchor" else source
  }

  // ----------------------------------------------------------- label names

  predicate IsLabelPart(c: char)
  {
    IsLetter(c) || IsDigit(c) || c == '_'
  }

  // [a-zA-Z_][a-zA-Z0-9_]*
  predicate IsLabelName(s: string)
  {
    s != "" && !IsDigit(s[0]) && forall i | 0 <= i < |s| :: IsLabelPart(s[i])
  }

  // [a-zA-Z_:][a-zA-Z0-9_:]*
  predicate IsMetricName(s: string)
  {
    s != "" && !IsDigit(s[0]) && forall i | 0 <= i < |s| :: IsLabelPart(s[i]) || s[i] == ':'
  }

  predicate IsReserved(s: string)
  {
    "__" <= s
  }

  // ------------------------------------------------ what validation demands

  predicate SourceOk(rs: seq<ResourceInfo>, source: string, hasForEach: bool)
  {
    match EffectiveSource(source)
    case "anchor" => true
    case "ownerController" => true
    case "topController" => true
    case "item" => hasForEach
    case other => Lookup(rs, other).Success?
  }

  predicate ExtractOk(rs: seq<ResourceInfo>, e: Extract, hasForEach: bool)
  {
    && SourceOk(rs, e.source, hasForEach)
    && TrimSpace(e.path) != ""
    && forall i | 0 <= i < |e.fallbacks| :: e.fallbacks[i].fallbacks == [] && ExtractOk(rs, e.fallbacks[i], hasForEach)
  }

  predicate ExpandOk(rs: seq<ResourceInfo>, e: ExpandLabel, hasForEach: bool)
  {
    && SourceOk(rs, e.source, hasForEach)
    && TrimSpace(e.path) != ""
    && PrefixOk(e.prefix)
    && e.maxKeys >= 0
  }

  predicate PrefixOk(prefix: string)
  {
    TrimSpace(prefix) != "" && IsLabelName(prefix + "x") && !IsReserved(prefix)
  }

  predicate LabelOk(rs: seq<ResourceInfo>, rule: Rule, name: string)
    requires name in rule.labels
  {
    IsLabelName(name) && !IsReserved(name) && ExtractOk(rs, rule.labels[name], rule.forEach != "")
  }

  predicate ExpandEntryOk(rs: seq<ResourceInfo>, rule: Rule, e: ExpandLabel)
  {
    ExpandOk(rs, e, rule.forEach != "") && e.prefix !in rule.labels
  }

  ghost predicate RuleOk(rs: seq<ResourceInfo>, rule: Rule)
  {
    && TrimSpace(rule.name) != ""
    && Lookup(rs, rule.anchor).Success?
    && (rule.labels != map[] || rule.expandLabels != [])
    && (forall name | name in rule.labels :: LabelOk(rs, rule, name))
    && (forall i | 0 <= i < |rule.expandLabels| :: ExpandEntryOk(rs, rule, rule.expandLabels[i]))
  }

  // ------------------------------------------- the same, as it is documented

  predicate IsWordChar(c: char)
  {
    'a' <= c <= 'z' || 'A' <= c <= 'Z' || '0' <= c <= '9' || c == '_'
  }

  // The label names that can be declared.
  predicate IsFreeName(s: string)
  {
    s != "" && !('0' <= s[0] <= '9') && (forall i | 0 <= i < |s| :: IsWordChar(s[i])) && !("__" <= s)
  }

  predicate IsVisible(s: string)
  {
    exists i | 0 <= i < |s| :: !(s[i] == ' ' || 9 <= s[i] as int <= 13)
  }

  // A source is the anchor, which is the default, a controller of it, the item of
  // a rule with forEach, or a reference to a watched resource.
  predicate Readable(rs: seq<ResourceInfo>, rule: Rule, source: string, path: string)
  {
    && IsVisible(path)
    && if source == "item" then rule.forEach != ""
       else
         || source == "" || source == "anchor" || source == "ownerController" || source == "topController"
         || Lookup(rs, source).Success?
  }

  // Fallbacks have none of their own.
  predicate LabelWell(rs: seq<ResourceInfo>, rule: Rule, e: Extract)
  {
    && Readable(rs, rule, e.source, e.path)
    && forall i | 0 <= i < |e.fallbacks| ::
         Readable(rs, rule, e.fallbacks[i].source, e.fallbacks[i].path) && e.fallbacks[i].fallbacks == []
  }

  predicate ExpandWell(rs: seq<ResourceInfo>, rule: Rule, e: ExpandLabel)
  {
    Readable(rs, rule, e.source, e.path) && IsFreeName(e.prefix) && e.prefix !in rule.labels && e.maxKeys >= 0
  }

  // A rule is valid exactly if it has a name, a watched anchor and a label, and
  // every label and expand entry is named and reads as documented.
  lemma RuleMeans(rs: seq<ResourceInfo>, rule: Rule)
    ensures RuleOk(rs, rule) <==>
      && IsVisible(rule.name) && Lookup(rs, rule.anchor).Success?
      && (|rule.labels| > 0 || |rule.expandLabels| > 0)
      && (forall name | name in rule.labels :: IsFreeName(name) && LabelWell(rs, rule, rule.labels[name]))
      && (forall i | 0 <= i < |rule.expandLabels| :: ExpandWell(rs, rule, rule.expandLabels[i]))
  {
    VisibleMeans(rule.name);
    forall name | name in rule.labels
      ensures LabelOk(rs, rule, name) <==> IsFreeName(name) && LabelWell(rs, rule, rule.labels[name]) {
      FreeNameMeans(name);
      LabelWellMeans(rs, rule, rule.labels[name]);
    }
    forall i | 0 <= i < |rule.expandLabels|
      ensures ExpandEntryOk(rs, rule, rule.expandLabels[i]) <==> ExpandWell(rs, rule, rule.expandLabels[i]) {
      ReadableMeans(rs, rule, rule.expandLabels[i].source, rule.expandLabels[i].path);
      PrefixMeans(rule.expandLabels[i].prefix);
    }
  }

  lemma VisibleMeans(s: string)
    ensures TrimSpace(s) != "" <==> IsVisible(s)
  {
    TrimBlank(s);
  }

  lemma FreeNameMeans(s: string)
    ensures IsLabelName(s) && !IsReserved(s) <==> IsFreeName(s)
  {
    assert forall c :: IsLabelPart(c) <==> IsWordChar(c);
  }

  lemma PrefixMeans(prefix: string)
    ensures PrefixOk(prefix) <==> IsFreeName(prefix)
  {
    var named := prefix + "x";
    FreeNameMeans(prefix);
    VisibleMeans(prefix);
    assert forall i | 0 <= i < |prefix| :: named[i] == prefix[i];
    if IsFreeName(prefix) {
      assert IsWordChar(prefix[0]);
      assert named[|prefix|] == 'x';
    }
    if PrefixOk(prefix) { assert named[0] == prefix[0]; }
  }

  lemma ReadableMeans(rs: seq<ResourceInfo>, rule: Rule, source: string, path: string)
    ensures SourceOk(rs, source, rule.forEach != "") && TrimSpace(path) != "" <==> Readable(rs, rule, source, path)
  {
    VisibleMeans(path);
  }

  lemma LabelWellMeans(rs: seq<ResourceInfo>, rule: Rule, e: Extract)
    ensures ExtractOk(rs, e, rule.forEach != "") <==> LabelWell(rs, rule, e)
  {
    ReadableMeans(rs, rule, e.source, e.path);
    forall i | 0 <= i < |e.fallbacks| && e.fallbacks[i].fallbacks == []
      ensures ExtractOk(rs, e.fallbacks[i], rule.forEach != "") <==>
        Readable(rs, rule, e.fallbacks[i].source, e.fallbacks[i].path) {
      ReadableMeans(rs, rule, e.fallbacks[i].source, e.fallbacks[i].path);
    }
  }

  // -------------------------------------------------- what an error tells

  predicate SourceFault(rs: seq<ResourceInfo>, source: string, hasForEach: bool, e: RuleError)
  {
    match e
    case UnknownSource(s) => s == EffectiveSource(source) && s !in BUILTIN_SOURCES && Lookup(rs, s).Failure?
    case ItemWithoutForEach => EffectiveSource(source) == "item" && !hasForEach
    case _ => false
  }

  predicate ExtractFault(rs: seq<ResourceInfo>, x: Extract, hasForEach: bool, e: RuleError)
  {
    || SourceFault(rs, x.source, hasForEach, e)
    || (e == PathRequired && TrimSpace(x.path) == "")
    || (exists i | 0 <= i < |x.fallbacks| ::
          || (e == NestedFallbacks && x.fallbacks[i].fallbacks != [])
          || ExtractFault(rs, x.fallbacks[i], hasForEach, e))
  }

  predicate ExpandFault(rs: seq<ResourceInfo>, x: ExpandLabel, hasForEach: bool, e: RuleError)
  {
    || SourceFault(rs, x.source, hasForEach, e)
    || match e
       case PathRequired => TrimSpace(x.path) == ""
       case PrefixRequired => TrimSpace(x.prefix) == ""
       case InvalidPrefix => !IsLabelName(x.prefix + "x")
       case ReservedPrefix => IsReserved(x.prefix)
       case NegativeMaxKeys => x.maxKeys < 0
       case _ => false
  }

  predicate LabelFault(rs: seq<ResourceInfo>, rule: Rule, name: string, e: RuleError)
    requires name in rule.labels
  {
    || (e == InvalidLabelName(name) && !IsLabelName(name))
    || (e == ReservedLabelName(name) && IsReserved(name))
    || ExtractFault(rs, rule.labels[name], rule.forEach != "", e)
  }

  predicate ExpandEntryFault(rs: seq<ResourceInfo>, rule: Rule, x: ExpandLabel, e: RuleError)
  {
    || ExpandFault(rs, x, rule.forEach != "", e)
    || (e == PrefixCollides(x.prefix) && x.prefix in rule.labels)
  }

  // The error that is reported names a fault the rule has.
  ghost predicate RuleFault(rs: seq<ResourceInfo>, rule: Rule, e: RuleError)
  {
    || (e == NameRequired && TrimSpace(rule.name) == "")
    || (e == UnknownAnchor && Lookup(rs, rule.anchor).Failure?)
    || (e == NoLabels && rule.labels == map[] && rule.expandLabels == [])
    || (exists name | name in rule.labels :: LabelFault(rs, rule, name, e))
    || (exists i | 0 <= i < |rule.expandLabels| :: ExpandEntryFault(rs, rule, rule.expandLabels[i], e))
  }

  // ---------------------------------------------------------------- methods

  method ValidateSource(reg: Registry, source: string, hasForEach: bool) returns (e: Option<RuleError>)
    requires reg.Valid()
    modifies reg`kindToNames
    ensures reg.Valid()
    ensures e.None? <==> SourceOk(reg.resources, source, hasForEach)
    ensures e.Some? ==> SourceFault(reg.resources, source, hasForEach, e.value)
  {
    var src := EffectiveSource(source);
    match src {
      case "anchor" => return None;
      case "ownerController" => return None;
      case "topController" => return None;
      case "item" => return if hasForEach then None else Some(ItemWithoutForEach);
      case _ =>
        var found := reg.ResourceFor(src);
        return if found.Success? then None else Some(UnknownSource(src));
    }
  }

  method ValidateExtract(reg: Registry, x: Extract, hasForEach: bool) returns (e: Option<RuleError>)
    requires reg.Valid()
    modifies reg`kindToNames
    ensures reg.Valid()
    ensures e.None? <==> ExtractOk(reg.resources, x, hasForEach)
    ensures e.Some? ==> ExtractFault(reg.resources, x, hasForEach, e.value)
    decreases x
  {
    e := ValidateSource(reg, x.source, hasForEach);
    if e.Some? {
      return;
    }
    if TrimSpace(x.path) == "" {
      return Some(PathRequired);
    }
    for i := 0 to |x.fallbacks|
      invariant reg.Valid()
      invariant forall j | 0 <= j < i ::
        x.fallbacks[j].fallbacks == [] && ExtractOk(reg.resources, x.fallbacks[j], hasForEach)
    {
      if |x.fallbacks[i].fallbacks| > 0 {
        return Some(NestedFallbacks);
      }
      e := ValidateExtract(reg, x.fallbacks[i], hasForEach);
      if e.Some? {
        return;
      }
    }
    return None;
  }

  method ValidateExpand(reg: Registry, x: ExpandLabel, hasForEach: bool) returns (e: Option<RuleError>)
    requires reg.Valid()
    modifies reg`kindToNames
    ensures reg.Valid()
    ensures e.None? <==> ExpandOk(reg.resources, x, hasForEach)
    ensures e.Some? ==> ExpandFault(reg.resources, x, hasForEach, e.value)
  {
    e := ValidateSource(reg, x.source, hasForEach);
    if e.Some? {
      return;
    }
    if TrimSpace(x.path) == "" {
      return Some(PathRequired);
    }
    if TrimSpace(x.prefix) == "" {
      return Some(PrefixRequired);
    }
    if !IsLabelName(x.prefix + "x") {
      return Some(InvalidPrefix);
    }
    if "__" <= x.prefix {
      return Some(ReservedPrefix);
    }
    return if x.maxKeys < 0 then Some(NegativeMaxKeys) else None;
  }

  // The loop of `Rule.validate` over the fixed labels. They are visited in an
  // unspecified order, so which error is reported is open, but whether there is
  // one is not.
  method ValidateLabels(reg: Registry, rule: Rule) returns (e: Option<RuleError>, fixedNames: set<string>)
    requires reg.Valid()
    modifies reg`kindToNames
    ensures reg.Valid()
    ensures e.None? <==> forall name | name in rule.labels :: LabelOk(reg.resources, rule, name)
    ensures e.None? ==> fixedNames == rule.labels.Keys
    ensures e.Some? ==> exists name | name in rule.labels :: LabelFault(reg.resources, rule, name, e.value)
  {
    ghost var rs := reg.resources;
    fixedNames := {};
    var todo := rule.labels.Keys;
    while todo != {}
      invariant reg.Valid() && reg.resources == rs
      invariant todo <= rule.labels.Keys && fixedNames == rule.labels.Keys - todo
      invariant forall n | n in fixedNames :: LabelOk(rs, rule, n)
      decreases todo
    {
      var name :| name in todo;
      if !IsLabelName(name) {
        e := Some(InvalidLabelName(name));
        assert LabelFault(rs, rule, name, e.value);
        return;
      }
      if "__" <= name {
        e := Some(ReservedLabelName(name));
        assert LabelFault(rs, rule, name, e.value);
        return;
      }
      e := ValidateExtract(reg, rule.labels[name], rule.forEach != "");
      if e.Some? {
        assert LabelFault(rs, rule, name, e.value);
        return;
      }
      assert LabelOk(rs, rule, name);
      fixedNames, todo := fixedNames + {name}, todo - {name};
    }
    return None, fixedNames;
  }

  // The loop over the expandLabels entries.
  method ValidateExpands(reg: Registry, rule: Rule, fixedNames: set<string>) returns (e: Option<RuleError>)
    requires reg.Valid() && fixedNames == rule.labels.Keys
    modifies reg`kindToNames
    ensures reg.Valid()
    ensures e.None? <==> forall i | 0 <= i < |rule.expandLabels| ::
      ExpandEntryOk(reg.resources, rule, rule.expandLabels[i])
    ensures e.Some? ==>
      exists i | 0 <= i < |rule.expandLabels| :: ExpandEntryFault(reg.resources, rule, rule.expandLabels[i], e.value)
  {
    ghost var rs := reg.resources;
    for i := 0 to |rule.expandLabels|
      invariant reg.Valid() && reg.resources == rs
      invariant forall j | 0 <= j < i :: ExpandEntryOk(rs, rule, rule.expandLabels[j])
    {
      e := ValidateExpand(reg, rule.expandLabels[i], rule.forEach != "");
      if e.Some? {
        return;
      }
      if rule.expandLabels[i].prefix in fixedNames {
        return Some(PrefixCollides(rule.expandLabels[i].prefix));
      }
    }
    return None;
  }

  // `Rule.validate`.
  method ValidateRule(reg: Registry, rule: Rule) returns (e: Option<RuleError>)
    requires reg.Valid()
    modifies reg`kindToNames
    ensures reg.Valid()
    ensures e.None? <==> RuleOk(reg.resources, rule)
    ensures e.Some? ==> RuleFault(reg.resources, rule, e.value)
  {
    if TrimSpace(rule.name) == "" {
      return Some(NameRequired);
    }
    var anchor := reg.ResourceFor(rule.anchor);
    if anchor.Failure? {
      return Some(UnknownAnchor);
    }
    if |rule.labels| == 0 && |rule.expandLabels| == 0 {
      return Some(NoLabels);
    }
    var fixedNames;
    e, fixedNames := ValidateLabels(reg, rule);
    if e.Some? {
      return;
    }
    e := ValidateExpands(reg, rule, fixedNames);
  }

  // ------------------------------------------------- sources and the watch list

  // The anchor and the sources of labels, their fallbacks and expand entries
  // that are no built-in ones.
  ghost predicate Requires(rule: Rule, source: string)
  {
    && source !in BUILTIN_SOURCES
    && (|| source == rule.anchor
        || (exists n | n in rule.labels :: ReadsSource(rule.labels[n], source))
        || (exists i | 0 <= i < |rule.expandLabels| :: EffectiveSource(rule.expandLabels[i].source) == source))
  }

  ghost predicate ReadsSource(e: Extract, source: string)
  {
    || EffectiveSource(e.source) == source
    || exists i | 0 <= i < |e.fallbacks| :: EffectiveSource(e.fallbacks[i].source) == source
  }

  // `validateAgainstWatch` cannot fail after `validate`: whatever a valid rule
  // requires resolves, and to a declared name.
  lemma WatchValidationRepeats(rs: seq<ResourceInfo>, rule: Rule, source: string)
    requires WellDeclared(rs) && RuleOk(rs, rule) && (source == rule.anchor || Requires(rule, source))
    ensures Lookup(rs, source).Success? && Lookup(rs, source).value.name in NameIndex(rs)
  {
    if source != rule.anchor {
      if n :| n in rule.labels && ReadsSource(rule.labels[n], source) {
        assert LabelOk(rs, rule, n);
        ReadSourceResolves(rs, rule.labels[n], rule.forEach != "", source);
      } else {
        var i :| 0 <= i < |rule.expandLabels| && EffectiveSource(rule.expandLabels[i].source) == source;
        assert ExpandEntryOk(rs, rule, rule.expandLabels[i]);
      }
    }
    LookupIsWatched(rs, source);
    FindNameIs(rs, Lookup(rs, source).value);
    NameIndexScans(rs, Lookup(rs, source).value.name);
  }

  lemma ReadSourceResolves(rs: seq<ResourceInfo>, e: Extract, hasForEach: bool, source: string)
    requires ExtractOk(rs, e, hasForEach) && ReadsSource(e, source) && source !in BUILTIN_SOURCES
    ensures Lookup(rs, source).Success?
  {
    if EffectiveSource(e.source) != source {
      var i :| 0 <= i < |e.fallbacks| && EffectiveSource(e.fallbacks[i].source) == source;
      assert ExtractOk(rs, e.fallbacks[i], hasForEach);
    }
  }
}
