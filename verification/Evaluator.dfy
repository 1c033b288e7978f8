// Compiled rules and their evaluation (pkg/collector/evaluator.go).
module Evaluators {
  import opened Wrappers
  import opened Sequences
  import opened Text
  import opened PathSyntax
  import opened PathEval
  import opened Objects
  import opened Rules

  datatype CompiledExtract = CompiledExtract(source: string, path: seq<Segment>)

  datatype CompiledLabel = CompiledLabel(
    name: string,
    primary: CompiledExtract,
    fallbacks: seq<CompiledExtract>,
    onMissing: string)

  datatype CompiledExpand = CompiledExpand(
    source: string,
    path: seq<Segment>,
    prefix: string,
    allowSet: Option<set<string>>,
    denySet: Option<set<string>>,
    maxKeys: int)

  datatype CompileError = BadPath(path: string, error: ParseError)

  datatype CompiledRule = CompiledRule(
    rule: Rule,
    forEach: Option<seq<Segment>>,
    labelOrder: seq<string>,
    labels: seq<CompiledLabel>,
    expands: seq<CompiledExpand>)

  // ------------------------------------------------------------- compilation

  ghost predicate ExtractCompiles(e: Extract, c: CompiledExtract)
  {
    c.source == EffectiveSource(e.source) && Parse(e.path) == Success(c.path)
  }

  ghost predicate LabelCompiles(name: string, e: Extract, c: CompiledLabel)
  {
    && c.name == name
    && ExtractCompiles(e, c.primary)
    && |c.fallbacks| == |e.fallbacks|
    && (forall i | 0 <= i < |e.fallbacks| :: ExtractCompiles(e.fallbacks[i], c.fallbacks[i]))
    && c.onMissing == match e.onMissing case Some(v) => v case None => ""
  }

  ghost predicate ExpandCompiles(e: ExpandLabel, c: CompiledExpand)
  {
    && c.source == EffectiveSource(e.source)
    && Parse(e.path) == Success(c.path)
    && c.prefix == e.prefix && c.maxKeys == e.maxKeys
    && c.allowSet == (if e.allow == [] then None else Some(Members(e.allow)))
    && c.denySet == (if e.deny == [] then None else Some(Members(e.deny)))
  }

  // The fixed labels come out in ascending name order.
  ghost predicate Compiles(rule: Rule, c: CompiledRule)
  {
    && c.rule == rule
    && (if rule.forEach == "" then c.forEach == None
        else c.forEach.Some? && Parse(rule.forEach) == Success(c.forEach.value))
    && c.labelOrder == Ascending(rule.labels.Keys)
    && LabelsCompile(rule.labels, c.labelOrder, c.labels)
    && ExpandsCompile(rule.expandLabels, c.expands)
  }

  ghost function LabelFrom(labels: map<string, Extract>): (string, CompiledLabel) -> bool
  {
    (name: string, c: CompiledLabel) => name in labels && LabelCompiles(name, labels[name], c)
  }

  ghost predicate LabelsCompile(labels: map<string, Extract>, names: seq<string>, cs: seq<CompiledLabel>)
  {
    |cs| == |names| && Related(LabelFrom(labels), names, cs)
  }

  ghost function ExpandFrom(): (ExpandLabel, CompiledExpand) -> bool
  {
    (e: ExpandLabel, c: CompiledExpand) => ExpandCompiles(e, c)
  }

  ghost predicate ExpandsCompile(expands: seq<ExpandLabel>, cs: seq<CompiledExpand>)
  {
    |cs| == |expands| && Related(ExpandFrom(), expands, cs)
  }

  predicate ExtractParses(e: Extract)
  {
    Parse(e.path).Success? && forall i | 0 <= i < |e.fallbacks| :: Parse(e.fallbacks[i].path).Success?
  }

  ghost predicate AllPathsParse(rule: Rule)
  {
    && (rule.forEach != "" ==> Parse(rule.forEach).Success?)
    && (forall n | n in rule.labels :: ExtractParses(rule.labels[n]))
    && (forall i | 0 <= i < |rule.expandLabels| :: Parse(rule.expandLabels[i].path).Success?)
  }

  // The paths of a rule in the order they are compiled: forEach, the fixed
  // labels by name, each before its fallbacks, and the expand entries.
  function ExtractPaths(e: Extract): seq<string>
  {
    [e.path] + seq(|e.fallbacks|, i requires 0 <= i < |e.fallbacks| => e.fallbacks[i].path)
  }

  function LabelPaths(labels: map<string, Extract>, names: seq<string>): seq<string>
    requires forall i | 0 <= i < |names| :: names[i] in labels
  {
    if names == [] then [] else ExtractPaths(labels[names[0]]) + LabelPaths(labels, names[1..])
  }

  function ExpandPaths(expands: seq<ExpandLabel>): seq<string>
  {
    seq(|expands|, i requires 0 <= i < |expands| => expands[i].path)
  }

  ghost function RulePaths(rule: Rule): seq<string>
  {
    var names := Ascending(rule.labels.Keys);
    ListsMembers(names, rule.labels.Keys);
    (if rule.forEach == "" then [] else [rule.forEach]) + LabelPaths(rule.labels,
      names) + ExpandPaths(rule.expandLabels)
  }

  // The first path that does not parse, and why.
  function FirstBad(paths: seq<string>): Option<CompileError>
  {
    if paths == [] then None
    else
      match Parse(paths[0])
      case Failure(e) => Some(BadPath(paths[0], e))
      case Success(_) => FirstBad(paths[1..])
  }

  lemma {:induction false} FirstBadMeans(paths: seq<string>)
    ensures FirstBad(paths) == None <==> forall i | 0 <= i < |paths| :: Parse(paths[i]).Success?
  {
    if paths != [] { FirstBadMeans(paths[1..]); }
  }

  lemma {:induction false} FirstBadAt(paths: seq<string>, i: nat)
    requires i < |paths| && Parse(paths[i]).Failure? && forall j | 0 <= j < i :: Parse(paths[j]).Success?
    ensures FirstBad(paths) == Some(BadPath(paths[i], Parse(paths[i]).error))
  {
    if i > 0 { FirstBadAt(paths[1..], i - 1); }
  }

  lemma {:induction false} FirstBadAppend(a: seq<string>, b: seq<string>)
    ensures FirstBad(a + b) == if FirstBad(a).Some? then FirstBad(a) else FirstBad(b)
  {
    if a == [] {
      assert a + b == b;
    } else {
      assert (a + b)[1..] == a[1..] + b;
      FirstBadAppend(a[1..], b);
    }
  }

  // A rule whose paths all parse is one that has no bad path.
  lemma AllPathsParseExactly(rule: Rule)
    ensures AllPathsParse(rule) <==> FirstBad(RulePaths(rule)) == None
  {
    var names := Ascending(rule.labels.Keys);
    var first := if rule.forEach == "" then [] else [rule.forEach];
    var labels, expands := LabelPaths(rule.labels, names), ExpandPaths(rule.expandLabels);
    ListsMembers(names, rule.labels.Keys);
    FirstBadAppend(first + labels, expands);
    FirstBadAppend(first, labels);
    ForEachParses(rule.forEach, first);
    ExpandPathsParse(rule.expandLabels);
    LabelPathsParse(rule.labels, names);
  }

  lemma ForEachParses(forEach: string, first: seq<string>)
    requires first == if forEach == "" then [] else [forEach]
    ensures FirstBad(first) == None <==> (forEach != "" ==> Parse(forEach).Success?)
  {
    FirstBadMeans(first);
    if forEach != "" { assert first[0] == forEach; }
  }

  lemma ExpandPathsParse(expands: seq<ExpandLabel>)
    ensures FirstBad(ExpandPaths(expands)) == None <==> forall i | 0 <= i < |expands| :: Parse(expands[i].path).Success?
  {
    var paths := ExpandPaths(expands);
    FirstBadMeans(paths);
    assert forall i | 0 <= i < |expands| :: paths[i] == expands[i].path;
  }

  lemma {:induction false} LabelPathsParse(labels: map<string, Extract>, names: seq<string>)
    requires forall i | 0 <= i < |names| :: names[i] in labels
    ensures FirstBad(LabelPaths(labels, names)) == None <==> forall i | 0 <= i < |names| ::
      ExtractParses(labels[names[i]])
  {
    if names != [] {
      LabelPathsParse(labels, names[1..]);
      ExtractPathsParse(labels[names[0]]);
      FirstBadAppend(ExtractPaths(labels[names[0]]), LabelPaths(labels, names[1..]));
    }
  }

  lemma ExtractPathsParse(e: Extract)
    ensures FirstBad(ExtractPaths(e)) == None <==> ExtractParses(e)
  {
    var paths := ExtractPaths(e);
    FirstBadMeans(paths);
    assert paths[0] == e.path && forall i | 0 <= i < |e.fallbacks| :: paths[i + 1] == e.fallbacks[i].path;
  }

  // The path that a failed compilation names: the first bad one of forEach, of the
  // labels in ascending order, each before its fallbacks, and of the expand
  // entries.
  lemma FirstBadIs(rule: Rule, e: CompileError)
    requires FirstBad(RulePaths(rule)) == Some(e)
    ensures Parse(e.path) == Failure(e.error)
    ensures
      if rule.forEach != "" && Parse(rule.forEach).Failure? then e.path == rule.forEach
      else if forall n | n in rule.labels :: ExtractParses(rule.labels[n]) then
        exists i | 0 <= i < |rule.expandLabels| :: FirstBadExpand(rule.expandLabels, i, e.path)
      else exists n | n in rule.labels :: FirstBadLabel(rule.labels, n, e.path)
  {
    var names := Ascending(rule.labels.Keys);
    var first := if rule.forEach == "" then [] else [rule.forEach];
    ListsMembers(names, rule.labels.Keys);
    FirstBadAppend(first + LabelPaths(rule.labels, names), ExpandPaths(rule.expandLabels));
    FirstBadAppend(first, LabelPaths(rule.labels, names));
    ForEachParses(rule.forEach, first);
    LabelPathsParse(rule.labels, names);
    if rule.forEach != "" && Parse(rule.forEach).Failure? {
      FirstBadAt(first, 0);
    } else if forall n | n in rule.labels :: ExtractParses(rule.labels[n]) {
      BadExpand(rule.expandLabels, e);
    } else {
      BadLabelIs(rule.labels, e);
    }
  }

  lemma BadExpand(expands: seq<ExpandLabel>, e: CompileError)
    requires FirstBad(ExpandPaths(expands)) == Some(e)
    ensures Parse(e.path) == Failure(e.error)
    ensures exists i | 0 <= i < |expands| :: FirstBadExpand(expands, i, e.path)
  {
    var paths := ExpandPaths(expands);
    FirstBadOf(paths, e);
    var i :| 0 <= i < |paths| && paths[i] == e.path && forall j | 0 <= j < i :: Parse(paths[j]).Success?;
    forall j | 0 <= j < i ensures Parse(expands[j].path).Success? { assert paths[j] == expands[j].path; }
    assert FirstBadExpand(expands, i, e.path);
  }

  lemma BadLabelIs(labels: map<string, Extract>, e: CompileError)
    requires var names := Ascending(labels.Keys);
      (forall i | 0 <= i < |names| :: names[i] in labels) && FirstBad(LabelPaths(labels, names)) == Some(e)
    ensures Parse(e.path) == Failure(e.error)
    ensures exists n | n in labels :: FirstBadLabel(labels, n, e.path)
  {
    var names := Ascending(labels.Keys);
    var i := BadLabel(labels, names, e);
    BadExtract(labels[names[i]], e);
    ParsesBefore(labels, names, i);
    assert FirstBadLabel(labels, names[i], e.path);
  }

  lemma ParsesBefore(labels: map<string, Extract>, names: seq<string>, i: nat)
    requires Lists(names, labels.Keys) && StrictlySorted(names) && i < |names|
    requires forall j | 0 <= j < i :: names[j] in labels && ExtractParses(labels[names[j]])
    ensures forall other | other in labels && LexLt(other, names[i]) :: ExtractParses(labels[other])
  {
    forall other | other in labels && LexLt(other, names[i]) ensures ExtractParses(labels[other]) {
      var j := ListedBefore(names, labels.Keys, i, other);
    }
  }

  lemma BadExtract(x: Extract, e: CompileError)
    requires FirstBad(ExtractPaths(x)) == Some(e)
    ensures Parse(e.path) == Failure(e.error)
    ensures e.path == x.path
      || (Parse(x.path).Success? && exists i | 0 <= i < |x.fallbacks| :: FirstBadFallback(x.fallbacks, i, e.path))
  {
    var paths := ExtractPaths(x);
    ExtractPathsAre(x);
    FirstBadOf(paths, e);
    var i :| 0 <= i < |paths| && paths[i] == e.path && forall j | 0 <= j < i :: Parse(paths[j]).Success?;
    if i > 0 {
      assert paths[i] == x.fallbacks[i - 1].path && Parse(paths[0]).Success?;
      forall j | 0 <= j < i - 1 ensures Parse(x.fallbacks[j].path).Success? {
        assert paths[j + 1] == x.fallbacks[j].path;
      }
      assert FirstBadFallback(x.fallbacks, i - 1, e.path);
    }
  }

  ghost predicate FirstBadExpand(expands: seq<ExpandLabel>, i: nat, path: string)
    requires i < |expands|
  {
    path == expands[i].path && forall j | 0 <= j < i :: Parse(expands[j].path).Success?
  }

  ghost predicate FirstBadLabel(labels: map<string, Extract>, n: string, path: string)
    requires n in labels
  {
    && (forall other | other in labels && LexLt(other, n) :: ExtractParses(labels[other]))
    && (|| path == labels[n].path
        || (&& Parse(labels[n].path).Success?
            && exists i | 0 <= i < |labels[n].fallbacks| :: FirstBadFallback(labels[n].fallbacks, i, path)))
  }

  ghost predicate FirstBadFallback(fallbacks: seq<Extract>, i: nat, path: string)
    requires i < |fallbacks|
  {
    path == fallbacks[i].path && forall j | 0 <= j < i :: Parse(fallbacks[j].path).Success?
  }

  lemma {:induction false} FirstBadOf(paths: seq<string>, e: CompileError)
    requires FirstBad(paths) == Some(e)
    ensures Parse(e.path) == Failure(e.error)
    ensures exists i | 0 <= i < |paths| :: paths[i] == e.path && forall j | 0 <= j < i :: Parse(paths[j]).Success?
  {
    if Parse(paths[0]).Success? {
      var rest := paths[1..];
      FirstBadOf(rest, e);
      var i :| 0 <= i < |rest| && rest[i] == e.path && forall j | 0 <= j < i :: Parse(rest[j]).Success?;
      assert paths[i + 1] == rest[i] && forall j | 0 < j < i + 1 :: paths[j] == rest[j - 1];
    } else {
      assert paths[0] == e.path;
    }
  }

  lemma {:induction false} BadLabel(labels: map<string, Extract>, names: seq<string>, e: CompileError) returns (i: nat)
    requires forall i | 0 <= i < |names| :: names[i] in labels
    requires FirstBad(LabelPaths(labels, names)) == Some(e)
    ensures i < |names| && FirstBad(ExtractPaths(labels[names[i]])) == Some(e)
    ensures forall j | 0 <= j < i :: ExtractParses(labels[names[j]])
  {
    FirstBadAppend(ExtractPaths(labels[names[0]]), LabelPaths(labels, names[1..]));
    ExtractPathsParse(labels[names[0]]);
    if ExtractParses(labels[names[0]]) {
      var rest := names[1..];
      var k := BadLabel(labels, rest, e);
      i := k + 1;
      assert rest[k] == names[i];
      forall j | 0 < j < i ensures ExtractParses(labels[names[j]]) { assert rest[j - 1] == names[j]; }
    } else {
      i := 0;
    }
  }

  method CompileExtract(e: Extract) returns (r: Result<CompiledExtract, CompileError>)
    ensures r.Success? ==> ExtractCompiles(e, r.value)
    ensures r.Failure? ==> Parse(e.path).Failure? && r.error == BadPath(e.path, Parse(e.path).error)
  {
    var p := ParsePath(e.path);
    if p.Failure? {
      return Failure(BadPath(e.path, p.error));
    }
    return Success(CompiledExtract(EffectiveSource(e.source), p.value));
  }

  lemma BadPrimary(e: Extract)
    requires Parse(e.path).Failure?
    ensures FirstBad(ExtractPaths(e)) == Some(BadPath(e.path, Parse(e.path).error))
  {
    FirstBadAt(ExtractPaths(e), 0);
  }

  lemma BadFallback(e: Extract, i: nat)
    requires i < |e.fallbacks| && Parse(e.path).Success? && forall j | 0 <= j < i :: Parse(e.fallbacks[j].path).Success?
    requires Parse(e.fallbacks[i].path).Failure?
    ensures FirstBad(ExtractPaths(e)) == Some(BadPath(e.fallbacks[i].path, Parse(e.fallbacks[i].path).error))
  {
    var paths := ExtractPaths(e);
    ExtractPathsAre(e);
    forall j | 0 <= j < i + 1 ensures Parse(paths[j]).Success? {
      if j > 0 { assert paths[j] == e.fallbacks[j - 1].path; }
    }
    FirstBadAt(paths, i + 1);
  }

  lemma ExtractPathsAre(e: Extract)
    ensures |ExtractPaths(e)| == |e.fallbacks| + 1 && ExtractPaths(e)[0] == e.path
    ensures forall i | 0 < i < |ExtractPaths(e)| :: ExtractPaths(e)[i] == e.fallbacks[i - 1].path
  {
  }

  method CompileLabel(name: string, e: Extract) returns (r: Result<CompiledLabel, CompileError>)
    ensures r.Success? ==> LabelCompiles(name, e, r.value)
    ensures r.Failure? ==> FirstBad(ExtractPaths(e)) == Some(r.error)
  {
    var primary := CompileExtract(e);
    if primary.Failure? {
      BadPrimary(e);
      return Failure(primary.error);
    }
    var fallbacks: seq<CompiledExtract> := [];
    for i := 0 to |e.fallbacks|
      invariant |fallbacks| == i
      invariant forall j | 0 <= j < i :: ExtractCompiles(e.fallbacks[j], fallbacks[j])
    {
      var f := CompileExtract(e.fallbacks[i]);
      if f.Failure? {
        BadFallback(e, i);
        return Failure(f.error);
      }
      fallbacks := fallbacks + [f.value];
    }
    return Success(CompiledLabel(name, primary.value, fallbacks, match e.onMissing case Some(v) => v case None => ""));
  }

  method CompileExpand(e: ExpandLabel) returns (r: Result<CompiledExpand, CompileError>)
    ensures r.Success? ==> ExpandCompiles(e, r.value)
    ensures r.Failure? ==> Parse(e.path).Failure? && r.error == BadPath(e.path, Parse(e.path).error)
  {
    var p := ParsePath(e.path);
    if p.Failure? {
      return Failure(BadPath(e.path, p.error));
    }
    var allow := if |e.allow| > 0 then Some(Members(e.allow)) else None;
    var deny := if |e.deny| > 0 then Some(Members(e.deny)) else None;
    return Success(CompiledExpand(EffectiveSource(e.source), p.value, e.prefix, allow, deny, e.maxKeys));
  }

  method CompileLabels(labels: map<string, Extract>, names: seq<string>)
    returns (r: Result<seq<CompiledLabel>, CompileError>)
    requires forall i | 0 <= i < |names| :: names[i] in labels
    ensures r.Success? ==> LabelsCompile(labels, names, r.value) && FirstBad(LabelPaths(labels, names)) == None
    ensures r.Failure? ==> FirstBad(LabelPaths(labels, names)) == Some(r.error)
  {
    var cs: seq<CompiledLabel> := [];
    for i := 0 to |names|
      invariant |cs| == i && Related(LabelFrom(labels), names, cs)
      invariant FirstBad(LabelPaths(labels, names)) == FirstBad(LabelPaths(labels, names[i..]))
    {
      var compiled := CompileLabel(names[i], labels[names[i]]);
      assert names[i..][1..] == names[i + 1..];
      FirstBadAppend(ExtractPaths(labels[names[i]]), LabelPaths(labels, names[i + 1..]));
      if compiled.Failure? {
        return Failure(compiled.error);
      }
      LabelParses(names[i], labels[names[i]], compiled.value);
      RelatedNext(LabelFrom(labels), names, cs, compiled.value);
      cs := cs + [compiled.value];
    }
    return Success(cs);
  }

  lemma LabelParses(name: string, e: Extract, c: CompiledLabel)
    requires LabelCompiles(name, e, c)
    ensures ExtractParses(e) && FirstBad(ExtractPaths(e)) == None
  {
    forall i | 0 <= i < |e.fallbacks| ensures Parse(e.fallbacks[i].path).Success? {
      assert ExtractCompiles(e.fallbacks[i], c.fallbacks[i]);
    }
    ExtractPathsParse(e);
  }

  method CompileExpands(expands: seq<ExpandLabel>) returns (r: Result<seq<CompiledExpand>, CompileError>)
    ensures r.Success? ==> ExpandsCompile(expands, r.value)
    ensures r.Failure? ==> FirstBad(ExpandPaths(expands)) == Some(r.error)
  {
    ghost var paths := ExpandPaths(expands);
    var cs: seq<CompiledExpand> := [];
    for i := 0 to |expands|
      invariant |cs| == i && Related(ExpandFrom(), expands, cs)
      invariant forall j | 0 <= j < i :: Parse(paths[j]).Success?
    {
      var compiled := CompileExpand(expands[i]);
      if compiled.Failure? {
        FirstBadAt(paths, i);
        return Failure(compiled.error);
      }
      RelatedNext(ExpandFrom(), expands, cs, compiled.value);
      cs := cs + [compiled.value];
    }
    return Success(cs);
  }

  // `Compile`. A failure names the first path that does not parse.
  method Compile(rule: Rule) returns (r: Result<CompiledRule, CompileError>)
    ensures r.Success? ==> Compiles(rule, r.value)
    ensures r.Failure? ==> FirstBad(RulePaths(rule)) == Some(r.error)
  {
    ghost var first := if rule.forEach == "" then [] else [rule.forEach];
    ghost var ordered := Ascending(rule.labels.Keys);
    ListsMembers(ordered, rule.labels.Keys);
    FirstBadAppend(first + LabelPaths(rule.labels, ordered), ExpandPaths(rule.expandLabels));
    FirstBadAppend(first, LabelPaths(rule.labels, ordered));
    FirstBadMeans(first);
    var forEach: Option<seq<Segment>> := None;
    if rule.forEach != "" {
      var p := ParsePath(rule.forEach);
      if p.Failure? {
        FirstBadAt(first, 0);
        return Failure(BadPath(rule.forEach, p.error));
      }
      forEach := Some(p.value);
    }
    var names := RangeSet(rule.labels.Keys);
    SortedListing(names, rule.labels.Keys);
    names := SortStrings(names);
    var labels := CompileLabels(rule.labels, names);
    if labels.Failure? {
      return Failure(labels.error);
    }
    var expands := CompileExpands(rule.expandLabels);
    if expands.Failure? {
      return Failure(expands.error);
    }
    return Success(CompiledRule(rule, forEach, names, labels.value, expands.value));
  }

  lemma CompiledParses(rule: Rule, c: CompiledRule)
    requires Compiles(rule, c)
    ensures AllPathsParse(rule)
  {
    ListsMembers(c.labelOrder, rule.labels.Keys);
    forall n | n in rule.labels ensures ExtractParses(rule.labels[n]) {
      var i :| 0 <= i < |c.labelOrder| && c.labelOrder[i] == n;
      assert LabelFrom(rule.labels)(c.labelOrder[i], c.labels[i]);
      assert forall j | 0 <= j < |rule.labels[n].fallbacks| ::
        ExtractCompiles(rule.labels[n].fallbacks[j], c.labels[i].fallbacks[j]);
    }
    forall i | 0 <= i < |rule.expandLabels| ensures Parse(rule.expandLabels[i].path).Success? {
      assert ExpandFrom()(rule.expandLabels[i], c.expands[i]);
    }
  }

  // --------------------------------------------------------------- sanitising

  // `sanitizeLabelKey`: one `_` for every character a label name cannot hold.
  function SanitizeLabelKey(k: string): (s: string)
    ensures s != "" && forall i | 0 <= i < |s| :: IsLabelPart(s[i])
    ensures k != "" ==> |s| == |k|
  {
    if k == "" then "_"
    else seq(|k|, i requires 0 <= i < |k| => if IsLabelPart(k[i]) then k[i] else '_')
  }

  method SanitizeKey(k: string) returns (s: string)
    ensures s == SanitizeLabelKey(k)
  {
    if k == "" {
      return "_";
    }
    s := "";
    for i := 0 to |k|
      invariant s == SanitizeLabelKey(k)[..i]
    {
      s := s + [if IsLabelPart(k[i]) then k[i] else '_'];
    }
  }

  // What sanitising keeps: exactly the keys that need no change.
  lemma SanitizeKeepsSafe(k: string)
    ensures SanitizeLabelKey(k) == k <==> k != "" && forall i | 0 <= i < |k| :: IsLabelPart(k[i])
  {
    var s := SanitizeLabelKey(k);
    if s == k {
      forall i | 0 <= i < |k| ensures IsLabelPart(k[i]) { assert s[i] == k[i]; }
    }
  }

  // Two keys meet after sanitising exactly if they differ only in places where
  // neither has a letter or digit; the empty key stands for `_`.
  lemma SanitizeMeets(a: string, b: string)
    ensures SanitizeLabelKey(a) == SanitizeLabelKey(b) <==>
      var x, y := Padded(a), Padded(b);
      |x| == |y| && forall i | 0 <= i < |x| :: x[i] == y[i] || (IsBlank(x[i]) && IsBlank(y[i]))
  {
    var x, y, s, t := Padded(a), Padded(b), SanitizeLabelKey(a), SanitizeLabelKey(b);
    assert |s| == |x| && |t| == |y|;
    if s == t {
      forall i | 0 <= i < |x| ensures x[i] == y[i] || (IsBlank(x[i]) && IsBlank(y[i])) {
        assert s[i] == t[i];
      }
    }
  }

  function Padded(k: string): string
  {
    if k == "" then "_" else k
  }

  predicate IsBlank(c: char)
  {
    !IsLetter(c) && !IsDigit(c)
  }

  // ---------------------------------------------------------------- expansion

  function LabelFor(ce: CompiledExpand, k: string): string
  {
    ce.prefix + SanitizeLabelKey(k)
  }

  // Deny beats allow; no allow set admits every key.
  predicate Admits(ce: CompiledExpand, k: string)
  {
    && (ce.denySet.Some? ==> k !in ce.denySet.value)
    && (ce.allowSet.Some? ==> k in ce.allowSet.value)
  }

  // The lists of a rule, once compiled: deny beats allow, and an empty allow
  // list allows every key.
  lemma AllowDeny(e: ExpandLabel, ce: CompiledExpand, k: string)
    requires ExpandCompiles(e, ce)
    ensures Admits(ce, k) <==> k !in e.deny && (e.allow == [] || k in e.allow)
  {
  }

  function Admitted(ce: CompiledExpand, keys: set<string>): set<string>
  {
    set k | k in keys && Admits(ce, k)
  }

  // What a limit leaves of a set of keys: all of it without one, else the first
  // `limit` in ascending order.
  ghost predicate Least(all: set<string>, limit: int, kept: set<string>)
  {
    && kept <= all
    && |kept| == (if 0 < limit < |all| then limit else |all|)
    && forall a, b | a in kept && b in all - kept :: LexLe(a, b)
  }

  // The admitted keys that the limit of an entry leaves.
  ghost predicate Survivors(ce: CompiledExpand, keys: set<string>, kept: set<string>)
  {
    Least(Admitted(ce, keys), ce.maxKeys, kept)
  }

  ghost predicate Survives(ce: CompiledExpand, keys: set<string>, k: string)
  {
    exists kept :: Survivors(ce, keys, kept) && k in kept
  }

  datatype Evaluator = Evaluator(
    // Conversion to an unstructured map, which may fail.
    convert: Object -> Option<map<string, Value>>,
    // Rendering of a value that is not nil.
    stringify: Value -> string)
  {
    // A key that is exported if it survives.
    predicate Live(m: map<string, Value>, k: string)
    {
      k in m && m[k] != Null && stringify(m[k]) != ""
    }

    // Every name is that of a live survivor, and has the value of the greatest
    // live survivor that shares it.
    ghost predicate Exports(ce: CompiledExpand, m: map<string, Value>, kept: set<string>, out: map<string, string>)
    {
      && (forall k | k in kept && Live(m, k) :: LabelFor(ce, k) in out)
      && (forall n | n in out :: exists k :: Wins(ce, m, kept, k, n) && out[n] == stringify(m[k]))
    }

    ghost predicate Wins(ce: CompiledExpand, m: map<string, Value>, kept: set<string>, k: string, n: string)
    {
      && k in kept && Live(m, k) && LabelFor(ce, k) == n
      && forall j | j in kept && Live(m, j) && LabelFor(ce, j) == n :: LexLe(j, k)
    }

    ghost predicate IsExpansion(ce: CompiledExpand, m: map<string, Value>, out: map<string, string>)
    {
      exists kept :: Survivors(ce, m.Keys, kept) && Exports(ce, m, kept, out)
    }

    // Expansion is a function of the map and the declaration.
    lemma ExpansionUnique(ce: CompiledExpand, m: map<string, Value>, a: map<string, string>, b: map<string, string>)
      requires IsExpansion(ce, m, a) && IsExpansion(ce, m, b)
      ensures a == b
    {
      var s :| Survivors(ce, m.Keys, s) && Exports(ce, m, s, a);
      var t :| Survivors(ce, m.Keys, t) && Exports(ce, m, t, b);
      SurvivorsUnique(ce, m.Keys, s, t);
      ExportsUnique(ce, m, s, a, b);
    }

    lemma ExportsUnique(ce: CompiledExpand, m: map<string, Value>, kept: set<string>, a: map<string, string>,
                        b: map<string, string>)
      requires Exports(ce, m, kept, a) && Exports(ce, m, kept, b)
      ensures a == b
    {
      ExportsIncluded(ce, m, kept, a, b);
      ExportsIncluded(ce, m, kept, b, a);
    }

    lemma ExportsIncluded(ce: CompiledExpand, m: map<string, Value>, kept: set<string>, a: map<string, string>,
                          b: map<string, string>)
      requires Exports(ce, m, kept, a) && Exports(ce, m, kept, b)
      ensures forall n | n in a :: n in b && a[n] == b[n]
    {
      forall n | n in a ensures n in b && a[n] == b[n] {
        var k :| Wins(ce, m, kept, k, n) && a[n] == stringify(m[k]);
        assert LabelFor(ce, k) in b;
        var j :| Wins(ce, m, kept, j, n) && b[n] == stringify(m[j]);
        LexAntisymmetric(j, k);
      }
    }

    // The admitted keys with something to export.
    function LiveKeys(ce: CompiledExpand, m: map<string, Value>): set<string>
    {
      set k | k in Admitted(ce, m.Keys) && Live(m, k)
    }

    // The limit counts keys before values are looked at. What it leaves to export
    // is what it would leave of the live keys exactly if every survivor is live
    // or every live key survives.
    lemma LimitOnLiveKeys(ce: CompiledExpand, m: map<string, Value>, kept: set<string>, first: set<string>)
      requires Survivors(ce, m.Keys, kept) && Least(LiveKeys(ce, m), ce.maxKeys, first)
      ensures kept * LiveKeys(ce, m) == first <==> kept <= LiveKeys(ce, m) || LiveKeys(ce, m) <= kept
    {
      var all, live := Admitted(ce, m.Keys), LiveKeys(ce, m);
      assert live <= all;
      if live <= kept {
        assert kept * live == live;
        SubsetSize(live, kept);
        assert Least(live, ce.maxKeys, live);
        LeastUnique(live, ce.maxKeys, live, first);
      } else if kept <= live {
        assert kept * live == kept;
        SubsetSize(kept, live);
        SubsetSize(live, all);
        LiveSurvivorsAreLeast(all, live, ce.maxKeys, kept);
        LeastUnique(live, ce.maxKeys, kept, first);
      } else {
        FewerLiveSurvivors(all, live, ce.maxKeys, kept);
      }
    }

    // No exported value is empty and no more names come out than the limit.
    lemma ExpansionBounds(ce: CompiledExpand, m: map<string, Value>, out: map<string, string>)
      requires IsExpansion(ce, m, out)
      ensures forall n | n in out :: out[n] != ""
      ensures ce.maxKeys > 0 ==> |out| <= ce.maxKeys
      ensures forall n | n in out :: exists k :: k in m && Admits(ce, k) && LabelFor(ce, k) == n
    {
      var kept :| Survivors(ce, m.Keys, kept) && Exports(ce, m, kept, out);
      ExportsLive(ce, m, kept, out);
      forall n | n in out ensures exists k :: k in m && Admits(ce, k) && LabelFor(ce, k) == n {
        var k :| k in kept && LabelFor(ce, k) == n;
        assert k in Admitted(ce, m.Keys);
      }
      LabelsSize(ce, kept);
      SubsetSize(out.Keys, LabelsOf(ce, kept));
    }

    lemma ExportsLive(ce: CompiledExpand, m: map<string, Value>, kept: set<string>, out: map<string, string>)
      requires Exports(ce, m, kept, out)
      ensures out.Keys <= LabelsOf(ce, kept)
      ensures forall n | n in out :: out[n] != "" && exists k :: k in kept && LabelFor(ce, k) == n
    {
      forall n | n in out ensures out[n] != "" && exists k :: k in kept && LabelFor(ce, k) == n {
        var k :| Wins(ce, m, kept, k, n) && out[n] == stringify(m[k]);
      }
    }

    // ------------------------------------------------ relational meaning

    // The first rendered text that is not empty, skipping nil values.
    function FirstText(results: seq<Value>): Option<string>
    {
      if results == [] then None
      else if results[0] != Null && stringify(results[0]) != "" then Some(stringify(results[0]))
      else FirstText(results[1..])
    }

    ghost predicate MayExtract(ce: CompiledExtract, lookup: SrcLookup, r: Option<string>)
    {
      match lookup.At(ce.source)
      case None => r == None
      case Some(m) => exists results :: MayEvaluate(Map(m), ce.path, results) && r == FirstText(results)
    }

    // The first extract that yields something decides; none yields the default.
    ghost predicate MayPick(extracts: seq<CompiledExtract>, onMissing: string, lookup: SrcLookup, text: string)
    {
      if extracts == [] then text == onMissing
      else
        || MayExtract(extracts[0], lookup, Some(text))
        || (MayExtract(extracts[0], lookup, None) && MayPick(extracts[1..], onMissing, lookup, text))
    }

    ghost predicate MayLabel(cl: CompiledLabel, lookup: SrcLookup, text: string)
    {
      MayPick([cl.primary] + cl.fallbacks, cl.onMissing, lookup, text)
    }

    ghost predicate MayExpand(ce: CompiledExpand, lookup: SrcLookup, out: map<string, string>)
    {
      match lookup.At(ce.source)
      case None => out == map[]
      case Some(m) => exists results :: MayEvaluate(Map(m), ce.path, results) && MayExpandFirst(ce, results, out)
    }

    // Only the first result counts, and only if it is a map.
    ghost predicate MayExpandFirst(ce: CompiledExpand, results: seq<Value>, out: map<string, string>)
    {
      if results == [] || !results[0].Map? then out == map[]
      else IsExpansion(ce, results[0].fields, out)
    }

    // ------------------------------------------------------ determinism

    // Whether an extract misses never depends on the order of its results.
    lemma MissIsDecided(ce: CompiledExtract, lookup: SrcLookup, r: Option<string>)
      requires MayExtract(ce, lookup, None) && MayExtract(ce, lookup, r)
      ensures r == None
    {
      if lookup.At(ce.source).Some? {
        var v := Map(lookup.At(ce.source).value);
        var a :| MayEvaluate(v, ce.path, a) && FirstText(a) == None;
        var b :| MayEvaluate(v, ce.path, b) && FirstText(b) == r;
        NoTextMeans(a);
        NoTextMeans(b);
        forall x | x in b ensures x in a { assert x in multiset(a); }
      }
    }

    lemma {:induction false} NoTextMeans(results: seq<Value>)
      ensures FirstText(results) == None <==> forall v | v in results :: v == Null || stringify(v) == ""
    {
      if results != [] {
        NoTextMeans(results[1..]);
        assert results == [results[0]] + results[1..];
      }
    }

    lemma {:induction false} FirstTextMeans(results: seq<Value>, text: string)
      ensures FirstText(results) == Some(text) <==> FirstRenders(results, text)
    {
      if results != [] {
        var rest := results[1..];
        FirstTextMeans(rest, text);
        assert forall i | 0 < i < |results| :: results[i] == rest[i - 1];
        if !Blank(results[0]) {
          if FirstRenders(results, text) {
            var i :| 0 <= i < |results| && RendersAt(results, i, text);
            assert i == 0;
          } else {
            assert !RendersAt(results, 0, text);
          }
        } else {
          if FirstRenders(results, text) {
            var i :| 0 <= i < |results| && RendersAt(results, i, text);
            assert RendersAt(rest, i - 1, text);
          }
          if FirstRenders(rest, text) {
            var i :| 0 <= i < |rest| && RendersAt(rest, i, text);
            assert RendersAt(results, i + 1, text);
          }
        }
      }
    }

    // A value with nothing to show: nil, or rendered as the empty text.
    predicate Blank(v: Value)
    {
      v == Null || stringify(v) == ""
    }

    ghost predicate RendersAt(results: seq<Value>, i: nat, text: string)
      requires i < |results|
    {
      !Blank(results[i]) && stringify(results[i]) == text && forall j | 0 <= j < i :: Blank(results[j])
    }

    // The first result that shows anything shows this text.
    ghost predicate FirstRenders(results: seq<Value>, text: string)
    {
      exists i | 0 <= i < |results| :: RendersAt(results, i, text)
    }

    lemma ExtractUnique(ce: CompiledExtract, lookup: SrcLookup, a: Option<string>, b: Option<string>)
      requires lookup.Orders(ce.source, ce.path) && MayExtract(ce, lookup, a) && MayExtract(ce, lookup, b)
      ensures a == b
    {
    }

    lemma {:induction false} PickUnique(extracts: seq<CompiledExtract>, onMissing: string, lookup: SrcLookup, a: string,
                                        b: string)
      requires forall i | 0 <= i < |extracts| :: lookup.Orders(extracts[i].source, extracts[i].path)
      requires MayPick(extracts, onMissing, lookup, a) && MayPick(extracts, onMissing, lookup, b)
      ensures a == b
    {
      if extracts != [] {
        if MayExtract(extracts[0], lookup, None) {
          if MayExtract(extracts[0], lookup, Some(a)) { MissIsDecided(extracts[0], lookup, Some(a)); }
          if MayExtract(extracts[0], lookup, Some(b)) { MissIsDecided(extracts[0], lookup, Some(b)); }
          PickUnique(extracts[1..], onMissing, lookup, a, b);
        } else {
          ExtractUnique(extracts[0], lookup, Some(a), Some(b));
        }
      }
    }

    // A label takes the text of the first extract that yields one, all before it
    // yielding nothing, and the default if none does.
    lemma {:induction false} PickMeans(extracts: seq<CompiledExtract>, onMissing: string, lookup: SrcLookup,
                                       text: string)
      ensures MayPick(extracts, onMissing, lookup, text) <==>
        || (exists i | 0 <= i < |extracts| :: PicksAt(extracts, lookup, i, text))
        || (text == onMissing && forall j | 0 <= j < |extracts| :: MayExtract(extracts[j], lookup, None))
    {
      if extracts != [] {
        var rest := extracts[1..];
        PickMeans(rest, onMissing, lookup, text);
        assert forall j | 0 < j < |extracts| :: extracts[j] == rest[j - 1];
        if i :| 0 <= i < |extracts| && PicksAt(extracts, lookup, i, text) {
          assert i > 0 ==> PicksAt(rest, lookup, i - 1, text);
        }
        if MayExtract(extracts[0], lookup, Some(text)) { assert PicksAt(extracts, lookup, 0, text); }
        if i :| 0 <= i < |rest| && PicksAt(rest, lookup, i, text) {
          assert MayExtract(extracts[0], lookup, None) ==> PicksAt(extracts, lookup, i + 1, text);
        }
      }
    }

    ghost predicate PicksAt(extracts: seq<CompiledExtract>, lookup: SrcLookup, i: nat, text: string)
      requires i < |extracts|
    {
      MayExtract(extracts[i], lookup, Some(text)) && forall j | 0 <= j < i :: MayExtract(extracts[j], lookup, None)
    }

    lemma ExpandUnique(ce: CompiledExpand, lookup: SrcLookup, a: map<string, string>, b: map<string, string>)
      requires lookup.Orders(ce.source, ce.path) && MayExpand(ce, lookup, a) && MayExpand(ce, lookup, b)
      ensures a == b
    {
      if lookup.At(ce.source).Some? {
        var results := Eval(Map(lookup.At(ce.source).value), ce.path);
        assert MayExpandFirst(ce, results, a) && MayExpandFirst(ce, results, b);
        if results != [] && results[0].Map? { ExpansionUnique(ce, results[0].fields, a, b); }
      }
    }

    // An exported value is never empty.
    lemma ExpandIsFull(ce: CompiledExpand, lookup: SrcLookup, out: map<string, string>)
      requires MayExpand(ce, lookup, out)
      ensures forall n | n in out :: out[n] != "" && exists k :: Admits(ce, k) && LabelFor(ce, k) == n
    {
      if lookup.At(ce.source).Some? {
        var results: seq<Value> :| MayEvaluate(Map(lookup.At(ce.source).value), ce.path, results)
          && MayExpandFirst(ce, results, out);
        if results != [] && results[0].Map? { ExpansionBounds(ce, results[0].fields, out); }
      }
    }

    // ------------------------------------------- an answer always exists

    lemma {:induction false} PickExists(extracts: seq<CompiledExtract>, onMissing: string, lookup: SrcLookup)
      returns (text: string)
      ensures MayPick(extracts, onMissing, lookup, text)
    {
      if extracts == [] {
        text := onMissing;
      } else {
        var found := ExtractExists(extracts[0], lookup);
        if found.Some? {
          text := found.value;
        } else {
          text := PickExists(extracts[1..], onMissing, lookup);
        }
      }
    }

    lemma ExtractExists(ce: CompiledExtract, lookup: SrcLookup) returns (r: Option<string>)
      ensures MayExtract(ce, lookup, r)
    {
      match lookup.At(ce.source) {
        case None => r := None;
        case Some(m) =>
          var results := Eval(Map(m), ce.path);
          assert MayEvaluate(Map(m), ce.path, results);
          r := FirstText(results);
      }
    }

    lemma ExpandExists(ce: CompiledExpand, lookup: SrcLookup) returns (out: map<string, string>)
      ensures MayExpand(ce, lookup, out)
    {
      out := map[];
      match lookup.At(ce.source) {
        case None =>
        case Some(m) =>
          var results := Eval(Map(m), ce.path);
          assert MayEvaluate(Map(m), ce.path, results);
          if results != [] && results[0].Map? { out := ExpansionExists(ce, results[0].fields); }
          assert MayExpandFirst(ce, results, out);
      }
    }

    lemma ExpansionExists(ce: CompiledExpand, m: map<string, Value>) returns (out: map<string, string>)
      ensures IsExpansion(ce, m, out)
    {
      var all := Ascending(Admitted(ce, m.Keys));
      var head := if 0 < ce.maxKeys < |all| then all[..ce.maxKeys] else all;
      PrefixSurvives(ce, m.Keys, head);
      HeadExpands(ce, m, head);
      out := ExportUpTo(ce, m, head, |head|);
    }

    lemma HeadExpands(ce: CompiledExpand, m: map<string, Value>, head: seq<string>)
      requires StrictlySorted(head) && Survivors(ce, m.Keys, Members(head))
      requires forall i | 0 <= i < |head| :: head[i] in m
      ensures IsExpansion(ce, m, ExportUpTo(ce, m, head, |head|))
    {
      ExportUpToExports(ce, m, head, |head|);
      assert head[..|head|] == head;
    }

    // ------------------------------------------------------------- methods

    method TryExtract(ce: CompiledExtract, lookup: SrcLookup) returns (r: Option<string>)
      ensures MayExtract(ce, lookup, r)
    {
      var input := lookup.At(ce.source);
      if input.None? {
        return None;
      }
      var results := Evaluate(Map(input.value), ce.path);
      for i := 0 to |results|
        invariant FirstText(results) == FirstText(results[i..])
      {
        var raw := results[i];
        if raw.Null? {
          continue;
        }
        var s := stringify(raw);
        if s == "" {
          continue;
        }
        return Some(s);
      }
      return None;
    }

    method EvaluateLabel(cl: CompiledLabel, lookup: SrcLookup) returns (text: string)
      ensures MayLabel(cl, lookup, text)
    {
      ghost var all := [cl.primary] + cl.fallbacks;
      assert all[1..] == cl.fallbacks;
      var v := TryExtract(cl.primary, lookup);
      if v.Some? {
        return v.value;
      }
      for i := 0 to |cl.fallbacks|
        invariant forall t :: MayPick(cl.fallbacks[i..], cl.onMissing, lookup, t) ==> MayLabel(cl, lookup, t)
      {
        assert cl.fallbacks[i..][1..] == cl.fallbacks[i + 1..];
        v := TryExtract(cl.fallbacks[i], lookup);
        if v.Some? {
          assert MayPick(cl.fallbacks[i..], cl.onMissing, lookup, v.value);
          return v.value;
        }
      }
      assert MayPick(cl.fallbacks[|cl.fallbacks|..], cl.onMissing, lookup, cl.onMissing);
      return cl.onMissing;
    }

    method EvaluateForEach(forEach: Option<seq<Segment>>, anchor: map<string, Value>)
      returns (items: seq<Option<map<string, Value>>>)
      ensures MayItems(forEach, anchor, items)
    {
      if forEach.None? {
        return [None];
      }
      var results := Evaluate(Map(anchor), forEach.value);
      items := WrapItems(results);
    }

    // `EvaluateExpand`: filter, sort, truncate, sanitise and merge.
    method EvaluateExpand(ce: CompiledExpand, lookup: SrcLookup) returns (out: map<string, string>)
      ensures MayExpand(ce, lookup, out)
    {
      var input := lookup.At(ce.source);
      if input.None? {
        return map[];
      }
      var results := Evaluate(Map(input.value), ce.path);
      if |results| == 0 {
        return map[];
      }
      if !results[0].Map? {
        return map[];
      }
      out := ExpandMap(ce, results[0].fields);
      assert MayExpandFirst(ce, results, out);
    }

    method ExpandMap(ce: CompiledExpand, m: map<string, Value>) returns (out: map<string, string>)
      ensures IsExpansion(ce, m, out)
    {
      var keys := AdmittedKeys(ce, m);
      SortedListing(keys, Admitted(ce, m.Keys));
      keys := SortStrings(keys);
      if ce.maxKeys > 0 && |keys| > ce.maxKeys {
        keys := keys[..ce.maxKeys];
      }
      PrefixSurvives(ce, m.Keys, keys);
      out := ExportKeys(ce, m, keys);
    }

    // What the first `n` keys export, a later one overwriting an earlier one.
    function ExportUpTo(ce: CompiledExpand, m: map<string, Value>, keys: seq<string>, n: nat): map<string, string>
      requires n <= |keys|
    {
      if n == 0 then map[]
      else ExportOne(ce, m, keys[n - 1], ExportUpTo(ce, m, keys, n - 1))
    }

    function ExportOne(ce: CompiledExpand, m: map<string, Value>, k: string, out: map<string, string>)
      : map<string, string>
    {
      if Live(m, k) then out[LabelFor(ce, k) := stringify(m[k])] else out
    }

    lemma {:induction false} ExportUpToExports(ce: CompiledExpand, m: map<string, Value>, keys: seq<string>, n: nat)
      requires StrictlySorted(keys) && n <= |keys| && forall i | 0 <= i < |keys| :: keys[i] in m
      ensures Exports(ce, m, Members(keys[..n]), ExportUpTo(ce, m, keys, n))
    {
      if n == 0 {
        assert Members(keys[..0]) == {};
      } else {
        ExportUpToExports(ce, m, keys, n - 1);
        ExportsNext(ce, m, keys, n, ExportUpTo(ce, m, keys, n - 1));
      }
    }

    // The last loop.
    method ExportKeys(ce: CompiledExpand, m: map<string, Value>, keys: seq<string>) returns (out: map<string, string>)
      requires StrictlySorted(keys) && forall i | 0 <= i < |keys| :: keys[i] in m
      ensures Exports(ce, m, Members(keys), out)
    {
      out := map[];
      for i := 0 to |keys|
        invariant out == ExportUpTo(ce, m, keys, i)
      {
        var raw := m[keys[i]];
        if raw.Null? {
          continue;
        }
        var v := stringify(raw);
        if v == "" {
          continue;
        }
        var suffix := SanitizeKey(keys[i]);
        out := out[ce.prefix + suffix := v];
      }
      ExportUpToExports(ce, m, keys, |keys|);
      assert keys[..|keys|] == keys;
    }

    lemma ExportsNext(ce: CompiledExpand, m: map<string, Value>, keys: seq<string>, n: nat, out: map<string, string>)
      requires StrictlySorted(keys) && 0 < n <= |keys| && keys[n - 1] in m
      requires Exports(ce, m, Members(keys[..n - 1]), out)
      ensures Exports(ce, m, Members(keys[..n]), ExportOne(ce, m, keys[n - 1], out))
    {
      MembersNext(keys, n - 1);
      if Live(m, keys[n - 1]) {
        ExportsTake(ce, m, Members(keys[..n - 1]), keys[n - 1], out);
      } else {
        ExportsSkip(ce, m, Members(keys[..n - 1]), keys[n - 1], out);
      }
    }

    lemma StillWins(ce: CompiledExpand, m: map<string, Value>, kept: set<string>, x: string, k: string, n: string)
      requires Wins(ce, m, kept, k, n) && (Live(m, x) ==> LabelFor(ce, x) != n)
      ensures Wins(ce, m, kept + {x}, k, n)
    {
    }

    lemma NowWins(ce: CompiledExpand, m: map<string, Value>, kept: set<string>, x: string)
      requires Live(m, x) && forall k | k in kept :: LexLe(k, x)
      ensures Wins(ce, m, kept + {x}, x, LabelFor(ce, x))
    {
      LexTotal(x, x);
    }

    lemma ExportsSkip(ce: CompiledExpand, m: map<string, Value>, kept: set<string>, x: string, out: map<string, string>)
      requires !Live(m, x) && Exports(ce, m, kept, out)
      ensures Exports(ce, m, kept + {x}, out)
    {
      forall n | n in out ensures exists k :: Wins(ce, m, kept + {x}, k, n) && out[n] == stringify(m[k]) {
        var k :| Wins(ce, m, kept, k, n) && out[n] == stringify(m[k]);
        StillWins(ce, m, kept, x, k, n);
      }
    }

    // Keys taken in ascending order: a later key wins its name.
    lemma ExportsTake(ce: CompiledExpand, m: map<string, Value>, kept: set<string>, x: string, out: map<string, string>)
      requires Live(m, x) && Exports(ce, m, kept, out) && forall k | k in kept :: LexLe(k, x)
      ensures Exports(ce, m, kept + {x}, out[LabelFor(ce, x) := stringify(m[x])])
    {
      var next := out[LabelFor(ce, x) := stringify(m[x])];
      forall n | n in next ensures exists k :: Wins(ce, m, kept + {x}, k, n) && next[n] == stringify(m[k]) {
        TakenName(ce, m, kept, x, out, n);
      }
    }

    lemma TakenName(ce: CompiledExpand, m: map<string, Value>, kept: set<string>, x: string, out: map<string, string>,
                    n: string)
      requires Live(m, x) && Exports(ce, m, kept, out) && forall k | k in kept :: LexLe(k, x)
      requires n == LabelFor(ce, x) || n in out
      ensures var next := out[LabelFor(ce, x) := stringify(m[x])];
        exists k :: Wins(ce, m, kept + {x}, k, n) && next[n] == stringify(m[k])
    {
      if n == LabelFor(ce, x) {
        NowWins(ce, m, kept, x);
      } else {
        var k :| Wins(ce, m, kept, k, n) && out[n] == stringify(m[k]);
        StillWins(ce, m, kept, x, k, n);
      }
    }
  }

  // The sources one series can read: chain objects by name, and the current
  // forEach item, if any.
  datatype SrcLookup = SrcLookup(sources: map<string, map<string, Value>>, item: Option<map<string, Value>>)
  {
    function At(source: string): Option<map<string, Value>>
    {
      if source == "item" then item
      else if source in sources then Some(sources[source])
      else None
    }

    // The path enumerates no map of several entries in that source.
    ghost predicate Orders(source: string, path: seq<Segment>)
    {
      At(source).Some? ==> Ordered(Map(At(source).value), path)
    }
  }

  // An item that is not a map is wrapped so that the path `_` reaches it.
  function ItemOf(v: Value): map<string, Value>
  {
    if v.Map? then v.fields else map["_" := v]
  }

  function ItemsOf(results: seq<Value>): (items: seq<Option<map<string, Value>>>)
    ensures |items| == |results| && forall i | 0 <= i < |items| :: items[i] == Some(ItemOf(results[i]))
  {
    seq(|results|, i requires 0 <= i < |results| => Some(ItemOf(results[i])))
  }

  // The loop of `EvaluateForEach`.
  method WrapItems(results: seq<Value>) returns (items: seq<Option<map<string, Value>>>)
    ensures items == ItemsOf(results)
  {
    items := [];
    for i := 0 to |results|
      invariant |items| == i && forall j | 0 <= j < i :: items[j] == Some(ItemOf(results[j]))
    {
      if results[i].Map? {
        items := items + [Some(results[i].fields)];
      } else {
        items := items + [Some(map["_" := results[i]])];
      }
    }
  }

  ghost predicate MayItems(forEach: Option<seq<Segment>>, anchor: map<string, Value>,
                           items: seq<Option<map<string, Value>>>)
  {
    match forEach
    case None => items == [None]
    case Some(path) => exists results :: MayEvaluate(Map(anchor), path, results) && items == ItemsOf(results)
  }

  method AdmittedKeys(ce: CompiledExpand, m: map<string, Value>) returns (keys: seq<string>)
    ensures Lists(keys, Admitted(ce, m.Keys))
  {
    keys := [];
    var todo := m.Keys;
    while todo != {}
      invariant todo <= m.Keys
      invariant Lists(keys, Admitted(ce, m.Keys - todo))
      decreases todo
    {
      var k :| k in todo;
      ghost var seen := m.Keys - todo;
      assert m.Keys - (todo - {k}) == seen + {k};
      todo := todo - {k};
      if ce.denySet.Some? && k in ce.denySet.value {
        assert Admitted(ce, seen + {k}) == Admitted(ce, seen);
        continue;
      }
      if ce.allowSet.Some? && k !in ce.allowSet.value {
        assert Admitted(ce, seen + {k}) == Admitted(ce, seen);
        continue;
      }
      assert Admitted(ce, seen + {k}) == Admitted(ce, seen) + {k};
      ListsAdd(keys, Admitted(ce, seen), k);
      keys := keys + [k];
    }
    assert m.Keys - {} == m.Keys;
  }

  lemma HeadBelowTail(all: seq<string>, n: nat, x: string, y: string)
    requires StrictlySorted(all) && n <= |all|
    requires x in all[..n] && y in all && y !in all[..n]
    ensures LexLe(x, y)
  {
    var i :| 0 <= i < n && all[..n][i] == x;
    assert all == all[..n] + all[n..];
    var j :| 0 <= j < |all[n..]| && all[n..][j] == y;
  }

  lemma HeadLists(all: seq<string>, s: set<string>, n: nat)
    requires Lists(all, s) && StrictlySorted(all) && n <= |all|
    ensures StrictlySorted(all[..n]) && Members(all[..n]) <= s && |Members(all[..n])| == n
    ensures forall x, y | x in Members(all[..n]) && y in s - Members(all[..n]) :: LexLe(x, y)
  {
    ListsSize(all[..n], Members(all[..n]));
    forall x | x in Members(all[..n]) ensures x in s { assert x in Members(all); }
    forall x, y | x in Members(all[..n]) && y in s - Members(all[..n]) ensures LexLe(x, y) {
      HeadBelowTail(all, n, x, y);
    }
  }

  // The head of the sorted admitted keys, as long as the limit allows.
  lemma PrefixSurvives(ce: CompiledExpand, keys: set<string>, head: seq<string>)
    requires var all := Ascending(Admitted(ce, keys));
      head == if 0 < ce.maxKeys < |all| then all[..ce.maxKeys] else all
    ensures StrictlySorted(head) && Survivors(ce, keys, Members(head))
    ensures forall i | 0 <= i < |head| :: head[i] in keys
  {
    var all := Ascending(Admitted(ce, keys));
    assert head == all[..|head|];
    HeadLists(all, Admitted(ce, keys), |head|);
    forall i | 0 <= i < |head| ensures head[i] in keys { assert head[i] in Members(head); }
  }

  function LabelsOf(ce: CompiledExpand, keys: set<string>): set<string>
  {
    set k | k in keys :: LabelFor(ce, k)
  }

  lemma LeastUnique(all: set<string>, limit: int, a: set<string>, b: set<string>)
    requires Least(all, limit, a) && Least(all, limit, b)
    ensures a == b
  {
    if a != b {
      var x := Missing(a, b);
      var y := Missing(b, a);
      LexAntisymmetric(x, y);
    }
  }

  lemma SurvivorsUnique(ce: CompiledExpand, keys: set<string>, a: set<string>, b: set<string>)
    requires Survivors(ce, keys, a) && Survivors(ce, keys, b)
    ensures a == b
  {
    LeastUnique(Admitted(ce, keys), ce.maxKeys, a, b);
  }

  lemma LiveSurvivorsAreLeast(all: set<string>, live: set<string>, limit: int, kept: set<string>)
    requires Least(all, limit, kept) && kept <= live <= all
    ensures Least(live, limit, kept)
  {
    SubsetSize(kept, live);
    SubsetSize(live, all);
    if !(0 < limit < |all|) { SameSize(kept, all); }
    if 0 < limit < |all| && limit == |live| { SameSize(kept, live); }
  }

  // A subset of the same size is the set itself.
  lemma SameSize<T>(a: set<T>, b: set<T>)
    requires a <= b && |a| == |b|
    ensures a == b
  {
    if a != b {
      var y :| y in b && y !in a;
      SubsetSize(a, b - {y});
    }
  }

  // If a survivor is dead and a live key does not survive, fewer live keys
  // survive than the limit would take of them.
  lemma FewerLiveSurvivors(all: set<string>, live: set<string>, limit: int, kept: set<string>)
    requires Least(all, limit, kept) && live <= all && !(live <= kept) && !(kept <= live)
    ensures forall first | Least(live, limit, first) :: |kept * live| < |first|
  {
    var dead :| dead in kept && dead !in live;
    var missed :| missed in live && missed !in kept;
    SubsetSize(kept * live, kept - {dead});
    SubsetSize(kept * live, live - {missed});
    if !(0 < limit < |all|) { SameSize(kept, all); }
  }

  // The keys that come before one among those an entry admits.
  function Ahead(ce: CompiledExpand, keys: set<string>, k: string): set<string>
  {
    set j | j in keys && Admits(ce, j) && LexLt(j, k)
  }

  // A key survives exactly if it is admitted and fewer admitted keys than the
  // limit come before it.
  lemma SurvivesByRank(ce: CompiledExpand, keys: set<string>, k: string)
    ensures Survives(ce, keys, k) <==>
      k in keys && Admits(ce, k) && (ce.maxKeys <= 0 || |Ahead(ce, keys, k)| < ce.maxKeys)
  {
    var all := Ascending(Admitted(ce, keys));
    var head := if 0 < ce.maxKeys < |all| then all[..ce.maxKeys] else all;
    PrefixSurvives(ce, keys, head);
    if Survives(ce, keys, k) {
      var kept :| Survivors(ce, keys, kept) && k in kept;
      LeastUnique(Admitted(ce, keys), ce.maxKeys, kept, Members(head));
    }
    if k in Admitted(ce, keys) { RankDecides(ce, keys, Members(head), k); }
  }

  lemma RankDecides(ce: CompiledExpand, keys: set<string>, kept: set<string>, k: string)
    requires Survivors(ce, keys, kept) && k in Admitted(ce, keys)
    ensures k in kept <==> ce.maxKeys <= 0 || |Ahead(ce, keys, k)| < ce.maxKeys
  {
    var all, ahead := Admitted(ce, keys), Ahead(ce, keys, k);
    if k in kept {
      forall j | j in ahead ensures j in kept - {k} {
        if j !in kept { LexAntisymmetric(j, k); }
      }
      SubsetSize(ahead, kept - {k});
      SubsetSize(kept, all);
    } else {
      assert kept <= ahead;
      SubsetSize(kept, ahead);
      if !(0 < ce.maxKeys < |all|) { SameSize(kept, all); }
    }
  }

  // Within the limit every admitted key survives.
  lemma FewSurvive(ce: CompiledExpand, keys: set<string>, k: string)
    requires k in keys && Admits(ce, k) && (ce.maxKeys <= 0 || |Admitted(ce, keys)| <= ce.maxKeys)
    ensures Survives(ce, keys, k)
  {
    assert Survivors(ce, keys, Admitted(ce, keys));
  }

  lemma Missing(a: set<string>, b: set<string>) returns (x: string)
    requires |a| == |b| && a != b
    ensures x in a && x !in b
  {
    if a <= b {
      var y :| y in b && y !in a;
      SubsetSize(a, b - {y});
    }
    x :| x in a && x !in b;
  }

  lemma {:induction false} SubsetSize<T>(a: set<T>, b: set<T>)
    requires a <= b
    ensures |a| <= |b|
    decreases a
  {
    if a != {} {
      var x :| x in a;
      SubsetSize(a - {x}, b - {x});
    }
  }

  lemma {:induction false} LabelsSize(ce: CompiledExpand, keys: set<string>)
    ensures |LabelsOf(ce, keys)| <= |keys|
    decreases keys
  {
    if keys != {} {
      var x :| x in keys;
      LabelsSize(ce, keys - {x});
      assert LabelsOf(ce, keys) == LabelsOf(ce, keys - {x}) + {LabelFor(ce, x)};
    }
  }
}
