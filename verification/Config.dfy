// The configuration root: validation and startup discovery (pkg/config/config.go).
module Configs {
  import opened Wrappers
  import opened Sequences
  import opened Text
  import opened Resources
  import opened Registries
  import opened Rules

  // ---------------------------------------------------------------- discovery

  datatype APIResource = APIResource(name: string, kind: string, namespaced: bool, verbs: seq<string>)

  // What the API server answers for a group/version; None is a failed request.
  type Server = string -> Option<seq<APIResource>>

  datatype ConfigError =
    | NoRules
    | InvalidMetricPrefix
    | BadRegistry(error: RegistryError)
    | BadRule(index: nat, rule: RuleError)
    | InvalidMetricName(index: nat)
    | DuplicateMetricName(index: nat)
    | NoDiscoveryClient
    | BadIdentity(index: nat, identity: ResourceError)
    | LookupFailed(index: nat)
    | NoMatch(index: nat)
    | SeveralMatches(index: nat)
    | NotListable(index: nat)

  predicate NeedsDiscovery(r: WatchResource)
  {
    !IsCompleteResource(r) && !IsLegacyKindOnly(r)
  }

  // A resource of that kind that is not a subresource.
  predicate Matches(r: APIResource, kind: string)
  {
    r.kind == kind && '/' !in r.name
  }

  function Matching(rs: seq<APIResource>, kind: string): seq<APIResource>
  {
    if rs == [] then [] else (if Matches(rs[0], kind) then [rs[0]] else []) + Matching(rs[1..], kind)
  }

  function Completed(r: WatchResource, gv: GroupVersion, found: APIResource): WatchResource
  {
    r.(group := gv.group,
       version := gv.version,
       apiVersion := PrintGroupVersion(gv),
       resource := found.name,
       scope := if found.namespaced then SCOPE_NAMESPACED else SCOPE_CLUSTER)
  }

  // The unique listable and watchable resource of that kind.
  function Select(found: seq<APIResource>, kind: string, index: nat): Result<APIResource, ConfigError>
  {
    var matches := Matching(found, kind);
    if |matches| == 0 then Failure(NoMatch(index))
    else if |matches| > 1 then Failure(SeveralMatches(index))
    else if "list" !in matches[0].verbs || "watch" !in matches[0].verbs then Failure(NotListable(index))
    else Success(matches[0])
  }

  ghost predicate OnlyMatch(rs: seq<APIResource>, kind: string, i: int)
  {
    && 0 <= i < |rs| && rs[i].kind == kind && '/' !in rs[i].name
    && forall j | 0 <= j < |rs| && j != i :: rs[j].kind != kind || '/' in rs[j].name
  }

  lemma {:induction false} MatchingMeans(rs: seq<APIResource>, kind: string)
    ensures Matching(rs, kind) == [] <==> forall j | 0 <= j < |rs| :: !Matches(rs[j], kind)
    ensures forall i | OnlyMatch(rs, kind, i) :: Matching(rs, kind) == [rs[i]]
    ensures |Matching(rs, kind)| == 1 ==> exists i :: OnlyMatch(rs, kind, i)
  {
    if rs != [] {
      var rest := rs[1..];
      MatchingMeans(rest, kind);
      forall i | OnlyMatch(rs, kind, i) ensures Matching(rs, kind) == [rs[i]] {
        if i > 0 {
          assert OnlyMatch(rest, kind, i - 1) && !Matches(rs[0], kind);
        } else {
          assert forall j | 0 <= j < |rest| :: !Matches(rest[j], kind);
        }
      }
      if |Matching(rs, kind)| == 1 {
        if Matches(rs[0], kind) {
          assert OnlyMatch(rs, kind, 0);
        } else {
          var i :| OnlyMatch(rest, kind, i);
          assert OnlyMatch(rs, kind, i + 1);
        }
      }
    }
  }

  // Discovery settles on a resource exactly when it is the only one of its kind
  // and can be listed and watched.
  lemma SelectMeans(found: seq<APIResource>, kind: string, index: nat, api: APIResource)
    ensures Select(found, kind, index) == Success(api) <==>
      exists i :: OnlyMatch(found, kind, i) && api == found[i] && "list" in api.verbs && "watch" in api.verbs
  {
    MatchingMeans(found, kind);
    if Select(found, kind, index) == Success(api) {
      var i :| OnlyMatch(found, kind, i);
      assert api == found[i];
    }
  }

  // And otherwise gives up, because there is no such resource, several of them, or
  // one that cannot be listed and watched.
  lemma SelectFails(found: seq<APIResource>, kind: string, index: nat)
    requires Select(found, kind, index).Failure?
    ensures var e := Select(found, kind, index).error;
      || (e == NoMatch(index) && forall i | 0 <= i < |found| :: found[i].kind != kind || '/' in found[i].name)
      || (e == SeveralMatches(index)
          && exists i, j | 0 <= i < j < |found| ::
               && found[i].kind == found[j].kind == kind
               && '/' !in found[i].name && '/' !in found[j].name)
      || (e == NotListable(index)
          && exists i :: OnlyMatch(found, kind, i) && !("list" in found[i].verbs && "watch" in found[i].verbs))
  {
    MatchingMeans(found, kind);
    if Matching(found, kind) == [] {
      assert forall i | 0 <= i < |found| :: !Matches(found[i], kind);
    } else if |Matching(found, kind)| > 1 {
      SeveralMatch(found, kind);
    } else {
      var i :| OnlyMatch(found, kind, i);
    }
  }

  lemma SeveralMatch(found: seq<APIResource>, kind: string)
    requires |Matching(found, kind)| > 1
    ensures exists i, j | 0 <= i < j < |found| :: Matches(found[i], kind) && Matches(found[j], kind)
  {
    MatchingMeans(found, kind);
    var i :| 0 <= i < |found| && Matches(found[i], kind);
    assert !OnlyMatch(found, kind, i);
    var j :| 0 <= j < |found| && j != i && Matches(found[j], kind);
    assert Matches(found[if i < j then i else j], kind) && Matches(found[if i < j then j else i], kind);
  }

  // What discovery makes of one entry.
  function Fill(server: Server, r: WatchResource, index: nat): Result<WatchResource, ConfigError>
  {
    if !NeedsDiscovery(r) then Success(r)
    else
      match GroupVersionFor(r)
      case Failure(e) => Failure(BadIdentity(index, e))
      case Success(gv) =>
        if TrimSpace(r.kind) == "" then Failure(BadIdentity(index, KindRequired))
        else
          match server(PrintGroupVersion(gv))
          case None => Failure(LookupFailed(index))
          case Some(found) =>
            match Select(found, r.kind, index)
            case Failure(e) => Failure(e)
            case Success(api) => Success(Completed(r, gv, api))
  }

  // A filled entry names, under the identity it was declared with, the one
  // listable and watchable resource that the server has for its kind.
  lemma FillNames(server: Server, r: WatchResource, index: nat)
    requires NeedsDiscovery(r) && Fill(server, r, index).Success?
    ensures QueryFor(r).Some? && server(QueryFor(r).value).Some?
    ensures var d, found := Fill(server, r, index).value, server(QueryFor(r).value).value;
      && d.apiVersion == QueryFor(r).value == PrintGroupVersion(GroupVersion(d.group, d.version))
      && d == r.(apiVersion := d.apiVersion, group := d.group, version := d.version, resource := d.resource,
        scope := d.scope)
      && exists i :: OnlyMatch(found, r.kind, i) && FilledFrom(d, found[i])
  {
    var gv := GroupVersionFor(r).value;
    var found := server(PrintGroupVersion(gv)).value;
    var api := Select(found, r.kind, index).value;
    SelectMeans(found, r.kind, index, api);
    var i :| OnlyMatch(found, r.kind, i) && api == found[i];
    assert FilledFrom(Completed(r, gv, api), found[i]);
  }

  // Why an entry is not filled.
  ghost predicate FillFault(server: Server, r: WatchResource, index: nat, e: ConfigError)
  {
    || (exists id :: e == BadIdentity(index, id) && IdentityFault(r, id))
    || (e == BadIdentity(index, KindRequired) && TrimSpace(r.kind) == "")
    || (e == LookupFailed(index) && QueryFor(r).Some? && server(QueryFor(r).value) == None)
    || (&& QueryFor(r).Some? && server(QueryFor(r).value).Some?
        && Select(server(QueryFor(r).value).value, r.kind, index) == Failure(e))
  }

  lemma FillFails(server: Server, r: WatchResource, index: nat)
    requires Fill(server, r, index).Failure?
    ensures NeedsDiscovery(r) && FillFault(server, r, index, Fill(server, r, index).error)
  {
    if GroupVersionFor(r).Failure? { IdentityFails(r); }
  }

  predicate FilledFrom(d: WatchResource, api: APIResource)
  {
    && "list" in api.verbs && "watch" in api.verbs
    && d.resource == api.name
    && (d.scope == SCOPE_CLUSTER <==> !api.namespaced) && (d.scope == SCOPE_NAMESPACED <==> api.namespaced)
  }

  function QueryFor(r: WatchResource): Option<string>
  {
    if !NeedsDiscovery(r) then None
    else
      match GroupVersionFor(r)
      case Failure(_) => None
      case Success(gv) => Some(PrintGroupVersion(gv))
  }

  // The server is asked about an entry exactly if it is no shorthand, lacks its
  // kind, version, plural or scope, and identifies a group and version, which is
  // the question.
  lemma QuestionMeans(r: WatchResource, question: string)
    ensures QueryFor(r) == Some(question) <==>
      && !IsShorthand(r) && (r.kind == "" || r.version == "" || r.resource == "" || r.scope == "")
      && exists g, v :: Identifies(r, g, v) && question == if g == "" then v else g + "/" + v
  {
    assert !IsShorthand(r) ==> ApplyLegacyDefaults(r) == if r.name == "" then r.(name := r.kind) else r;
    if GroupVersionFor(r).Success? {
      var gv := GroupVersionFor(r).value;
      IdentityMeans(r, gv.group, gv.version);
    }
    forall g, v | Identifies(r, g, v) ensures GroupVersionFor(r) == Success(GroupVersion(g, v)) {
      IdentityMeans(r, g, v);
    }
  }

  // The group/versions of the first `n` entries that need discovery.
  function Queries(watch: seq<WatchResource>, n: nat): set<string>
    requires n <= |watch|
  {
    set i | 0 <= i < n && QueryFor(watch[i]).Some? :: QueryFor(watch[i]).value
  }

  // A filled entry that names a resource is complete, so discovery run again,
  // against any server, leaves it as it is and asks nothing.
  lemma FillIsFinal(server: Server, other: Server, r: WatchResource, i: nat, j: nat)
    requires Fill(server, r, i).Success?
    requires NormalizeResource(Fill(server, r, i).value, false).Success?
    ensures var d := Fill(server, r, i).value;
      && IsCompleteResource(d) && !NeedsDiscovery(d)
      && QueryFor(d) == None && Fill(other, d, j) == Success(d)
  {
    var d := Fill(server, r, i).value;
    if NeedsDiscovery(r) {
      FilledIsComplete(server, r, i);
    } else if IsLegacyKindOnly(r) {
      assert ApplyLegacyDefaults(r).resource != "";
    }
  }

  lemma FilledIsComplete(server: Server, r: WatchResource, i: nat)
    requires NeedsDiscovery(r) && Fill(server, r, i).Success?
    requires NormalizeResource(Fill(server, r, i).value, false).Success?
    ensures IsCompleteResource(Fill(server, r, i).value)
  {
    var d := Fill(server, r, i).value;
    NormalizedIdentity(d, false);
    assert d.version != "";
    assert ApplyLegacyDefaults(d) == if d.name == "" then d.(name := d.kind) else d;
  }

  ghost predicate FilledAs(server: Server, before: seq<WatchResource>, after: seq<WatchResource>)
  {
    |after| == |before| && forall i | 0 <= i < |before| :: Fill(server, before[i], i) == Success(after[i])
  }

  // Discovery runs to a fixed point: the entries a successful run leaves behind
  // are complete, raise no question, and are their own completion.
  lemma SecondRun(server: Server, other: Server, before: seq<WatchResource>, after: seq<WatchResource>)
    requires FilledAs(server, before, after) && Declarable(after, false)
    ensures FilledAs(other, after, after) && Queries(after, |after|) == {}
    ensures forall i | 0 <= i < |after| :: IsCompleteResource(after[i]) && !NeedsDiscovery(after[i])
  {
    var rs :| Declares(after, false, rs);
    forall i | 0 <= i < |after|
      ensures IsCompleteResource(after[i]) && !NeedsDiscovery(after[i])
      ensures QueryFor(after[i]) == None && Fill(other, after[i], i) == Success(after[i]) {
      assert NormalizeResource(after[i], false) == Success(rs[i]);
      FillIsFinal(server, other, before[i], i, i);
    }
  }

  // --------------------------------------------------------------- validation

  ghost predicate RulesOk(prefix: string, rs: seq<ResourceInfo>, rules: seq<Rule>)
  {
    && (forall i | 0 <= i < |rules| :: RuleOk(rs, rules[i]) && IsMetricName(prefix + rules[i].name))
    && (forall i, j | 0 <= i < j < |rules| :: prefix + rules[i].name != prefix + rules[j].name)
  }

  ghost predicate ConfigOk(prefix: string, watch: seq<WatchResource>, placeholders: bool, rules: seq<Rule>)
  {
    && rules != []
    && PrefixUsable(prefix)
    && exists rs :: Declares(watch, placeholders, rs) && RulesOk(prefix, rs, rules)
  }

  // A metric name: a letter, `_` or `:`, then letters, digits, `_` and `:`.
  predicate MatchesMetric(s: string)
  {
    s != "" && !('0' <= s[0] <= '9') && forall i | 0 <= i < |s| :: IsWordChar(s[i]) || s[i] == ':'
  }

  // A configuration is valid exactly if it has rules, its watch list declares
  // resources, every rule is valid over them, and prefix and rule names make
  // metric names that differ, which is to say that the rule names do.
  lemma ConfigMeans(prefix: string, watch: seq<WatchResource>, placeholders: bool, rules: seq<Rule>)
    ensures ConfigOk(prefix, watch, placeholders, rules) <==>
      && |rules| > 0 && (prefix == "" || MatchesMetric(prefix))
      && (forall i | 0 <= i < |rules| :: MatchesMetric(prefix + rules[i].name))
      && (forall i, j | 0 <= i < j < |rules| :: rules[i].name != rules[j].name)
      && exists rs :: Declares(watch, placeholders, rs) && forall i | 0 <= i < |rules| :: RuleOk(rs, rules[i])
  {
    UsablePrefix(prefix);
    forall i | 0 <= i < |rules|
      ensures IsMetricName(prefix + rules[i].name) <==> MatchesMetric(prefix + rules[i].name) {
      MetricPattern(prefix + rules[i].name);
    }
    forall i, j | 0 <= i < j < |rules|
      ensures prefix + rules[i].name == prefix + rules[j].name <==> rules[i].name == rules[j].name {
      assert (prefix + rules[i].name)[|prefix|..] == rules[i].name;
      assert (prefix + rules[j].name)[|prefix|..] == rules[j].name;
    }
  }

  lemma MetricPattern(s: string)
    ensures IsMetricName(s) <==> MatchesMetric(s)
  {
    assert forall c :: IsLabelPart(c) <==> IsWordChar(c);
  }

  lemma UsablePrefix(prefix: string)
    ensures PrefixUsable(prefix) <==> prefix == "" || MatchesMetric(prefix)
  {
    var named := prefix + "x";
    MetricPattern(named);
    assert forall i | 0 <= i < |prefix| :: named[i] == prefix[i];
    assert named[|prefix|] == 'x';
  }

  lemma ConfigRejects(prefix: string, watch: seq<WatchResource>, placeholders: bool, rules: seq<Rule>,
                      rs: seq<ResourceInfo>)
    requires Declares(watch, placeholders, rs) && !RulesOk(prefix, rs, rules)
    ensures !ConfigOk(prefix, watch, placeholders, rules)
  {
    forall other | Declares(watch, placeholders, other) ensures other == rs {
      DeclaresUnique(watch, placeholders, other, rs);
    }
  }

  // Allowing placeholders changes nothing for an entry that needs none.
  lemma PlaceholdersAreConservative(raw: WatchResource)
    requires NormalizeResource(raw, false).Success?
    ensures NormalizeResource(raw, true) == NormalizeResource(raw, false)
  {
  }

  // What discovery leaves behind is valid as it stands, without placeholders.
  lemma ResolvedIsValid(prefix: string, watch: seq<WatchResource>, rules: seq<Rule>)
    requires Declarable(watch, false) && ConfigOk(prefix, watch, true, rules)
    ensures ConfigOk(prefix, watch, false, rules)
  {
    var rs :| Declares(watch, false, rs);
    forall i | 0 <= i < |watch| ensures NormalizeResource(watch[i], true) == Success(rs[i]) {
      assert NormalizeResource(watch[i], false) == Success(rs[i]);
      PlaceholdersAreConservative(watch[i]);
    }
    var all :| Declares(watch, true, all) && RulesOk(prefix, all, rules);
    DeclaresUnique(watch, true, all, rs);
  }

  // The error that is reported names the first fault: of the first rule that
  // cannot stand, its own faults before those of its metric name.
  ghost predicate RulesFault(prefix: string, rs: seq<ResourceInfo>, rules: seq<Rule>, e: ConfigError)
  {
    match e
    case BadRule(i, error) => i < |rules| && RulesOk(prefix, rs, rules[..i]) && RuleFault(rs, rules[i], error)
    case InvalidMetricName(i) =>
      && i < |rules| && RulesOk(prefix, rs, rules[..i]) && RuleOk(rs, rules[i])
      && !IsMetricName(prefix + rules[i].name)
    case DuplicateMetricName(i) =>
      && i < |rules| && RulesOk(prefix, rs, rules[..i]) && RuleOk(rs, rules[i])
      && IsMetricName(prefix + rules[i].name)
      && exists j | 0 <= j < i :: prefix + rules[j].name == prefix + rules[i].name
    case _ => false
  }

  predicate PrefixUsable(prefix: string)
  {
    prefix == "" || IsMetricName(prefix + "x")
  }

  // The stages of validation: rules at all, the prefix, the watch list, the rules.
  ghost predicate ConfigFault(prefix: string, watch: seq<WatchResource>, placeholders: bool, rules: seq<Rule>,
                              e: ConfigError)
  {
    match e
    case NoRules => rules == []
    case InvalidMetricPrefix => rules != [] && !PrefixUsable(prefix)
    case BadRegistry(error) => rules != [] && PrefixUsable(prefix) && Offends(watch, placeholders, error)
    case _ =>
      && rules != [] && PrefixUsable(prefix)
      && exists rs :: Declares(watch, placeholders, rs) && RulesFault(prefix, rs, rules, e)
  }

  class Config {
    const metricPrefix: string
    const discoveryEnabled: bool
    const rules: seq<Rule>
    var resources: seq<WatchResource>

    constructor (metricPrefix: string, discoveryEnabled: bool, resources: seq<WatchResource>, rules: seq<Rule>)
      ensures this.metricPrefix == metricPrefix && this.discoveryEnabled == discoveryEnabled
      ensures this.rules == rules && this.resources == resources
    {
      this.metricPrefix, this.discoveryEnabled, this.rules, this.resources :=
        metricPrefix, discoveryEnabled, rules, resources;
    }

    // `Validate`.
    method Validate() returns (e: Option<ConfigError>)
      ensures e.None? <==> ConfigOk(metricPrefix, resources, discoveryEnabled, rules)
      ensures e.Some? ==> ConfigFault(metricPrefix, resources, discoveryEnabled, rules, e.value)
    {
      if |rules| == 0 {
        return Some(NoRules);
      }
      if metricPrefix != "" && !IsMetricName(metricPrefix + "x") {
        return Some(InvalidMetricPrefix);
      }
      var built := BuildRegistry(resources, discoveryEnabled);
      if built.Failure? {
        return Some(BadRegistry(built.error));
      }
      var reg := built.value;
      ghost var rs := reg.resources;
      e := ValidateRules(reg);
      if e.Some? {
        ConfigRejects(metricPrefix, resources, discoveryEnabled, rules, rs);
      }
    }

    // The loop of `Validate` over the rules, with its set of metric names seen.
    method ValidateRules(reg: Registry) returns (e: Option<ConfigError>)
      requires reg.Valid()
      modifies reg`kindToNames
      ensures reg.Valid()
      ensures e.None? <==> RulesOk(metricPrefix, reg.resources, rules)
      ensures e.Some? ==> RulesFault(metricPrefix, reg.resources, rules, e.value)
    {
      ghost var rs := reg.resources;
      var seenMetric: set<string> := {};
      for i := 0 to |rules|
        invariant reg.Valid() && reg.resources == rs
        invariant seenMetric == (set j | 0 <= j < i :: metricPrefix + rules[j].name)
        invariant RulesOk(metricPrefix, rs, rules[..i])
      {
        var bad := ValidateRule(reg, rules[i]);
        if bad.Some? {
          return Some(BadRule(i, bad.value));
        }
        var metricName := metricPrefix + rules[i].name;
        if !IsMetricName(metricName) {
          return Some(InvalidMetricName(i));
        }
        if metricName in seenMetric {
          return Some(DuplicateMetricName(i));
        }
        seenMetric := seenMetric + {metricName};
        RulesOkSnoc(metricPrefix, rs, rules, i);
      }
      assert rules[..|rules|] == rules;
      return None;
    }

    // `ResolveDiscovery`: completes entries in place, asking the server once
    // per group/version through a cache. `calls` records the questions.
    method ResolveDiscovery(client: Option<Server>) returns (e: Option<ConfigError>, ghost calls: seq<string>)
      modifies this`resources
      ensures !discoveryEnabled ==>
        && calls == [] && resources == old(resources)
        && (e.None? <==> ConfigOk(metricPrefix, resources, false, rules))
      ensures discoveryEnabled && client.None? ==> e == Some(NoDiscoveryClient) && resources == old(resources)
      ensures Distinct(calls) && Members(calls) <= Queries(old(resources), |old(resources)|)
      ensures discoveryEnabled && e.None? ==>
        && client.Some? && FilledAs(client.value, old(resources), resources)
        && Members(calls) == Queries(old(resources), |old(resources)|)
        && Declarable(resources, false) && ConfigOk(metricPrefix, resources, true, rules)
      ensures discoveryEnabled && e.Some? && client.Some? ==>
        !exists after :: FilledAs(client.value, old(resources), after)
                         && Declarable(after, false) && ConfigOk(metricPrefix, after, true, rules)
      ensures discoveryEnabled && e.Some? && client.Some? ==>
        DiscoveryFault(client.value, old(resources), resources, metricPrefix, rules, e.value)
    {
      calls := [];
      if !discoveryEnabled {
        e := Validate();
        return;
      }
      if client.None? {
        return Some(NoDiscoveryClient), calls;
      }
      ghost var before := resources;
      e, calls := CompleteEntries(client.value);
      if e.Some? {
        AbandonedForGood(client.value, before, resources, e.value);
        return;
      }
      FilledOnce(client.value, before, resources);
      var built := BuildRegistry(resources, false);
      if built.Failure? {
        return Some(BadRegistry(built.error)), calls;
      }
      e := Validate();
    }

    // The loop of `ResolveDiscovery`.
    method CompleteEntries(server: Server) returns (e: Option<ConfigError>, ghost calls: seq<string>)
      modifies this`resources
      ensures Distinct(calls) && Members(calls) <= Queries(old(resources), |old(resources)|)
      ensures e.None? ==>
        && FilledAs(server, old(resources), resources)
        && Members(calls) == Queries(old(resources), |old(resources)|)
      ensures e.Some? ==> Abandoned(server, old(resources), resources, e.value)
    {
      ghost var before := resources;
      calls := [];
      var cache: map<string, seq<APIResource>> := map[];
      for i := 0 to |resources|
        invariant FilledTo(server, before, resources, i)
        invariant Asked(calls, cache.Keys, before, i)
        invariant Answers(server, cache)
      {
        ghost var known := cache.Keys;
        var filled;
        ghost var asked;
        filled, cache, asked := CompleteEntry(server, resources[i], i, cache);
        AskedOnce(before, i, calls, known, asked);
        if filled.Failure? {
          AbandonedAt(server, before, resources, i, filled.error);
          return Some(filled.error), calls + asked;
        }
        AskedNext(before, i, calls, known, asked, cache.Keys);
        calls := calls + asked;
        FilledNext(server, before, resources, i, filled.value);
        resources := resources[i := filled.value];
      }
      return None, calls;
    }
  }

  // The first `i` entries are filled, the others untouched.
  ghost predicate FilledTo(server: Server, before: seq<WatchResource>, after: seq<WatchResource>, i: nat)
  {
    && i <= |before| && |after| == |before|
    && (forall j | 0 <= j < i :: Fill(server, before[j], j) == Success(after[j]))
    && (forall j | i <= j < |before| :: after[j] == before[j])
  }

  // Discovery gave up at an entry and left those before it completed.
  ghost predicate Abandoned(server: Server, before: seq<WatchResource>, after: seq<WatchResource>, e: ConfigError)
  {
    exists i | 0 <= i < |before| :: FilledTo(server, before, after, i) && Fill(server, before[i], i) == Failure(e)
  }

  ghost predicate DiscoveryFault(server: Server, before: seq<WatchResource>, after: seq<WatchResource>, prefix: string,
                                 rules: seq<Rule>, e: ConfigError)
  {
    || Abandoned(server, before, after, e)
    || (&& FilledAs(server, before, after)
        && ((e.BadRegistry? && Offends(after, false, e.error)) || ConfigFault(prefix, after, true, rules, e)))
  }

  lemma AbandonedAt(server: Server, before: seq<WatchResource>, after: seq<WatchResource>, i: nat, e: ConfigError)
    requires i < |before| && FilledTo(server, before, after, i) && Fill(server, before[i], i) == Failure(e)
    ensures Abandoned(server, before, after, e)
  {
  }

  lemma AbandonedForGood(server: Server, before: seq<WatchResource>, after: seq<WatchResource>, e: ConfigError)
    requires Abandoned(server, before, after, e)
    ensures !exists other :: FilledAs(server, before, other)
  {
    var i :| 0 <= i < |before| && FilledTo(server, before, after, i) && Fill(server, before[i], i) == Failure(e);
    forall other ensures !FilledAs(server, before, other) {
      if |other| == |before| { assert Fill(server, before[i], i) != Success(other[i]); }
    }
  }

  lemma FilledNext(server: Server, before: seq<WatchResource>, after: seq<WatchResource>, i: nat, r: WatchResource)
    requires i < |before| && FilledTo(server, before, after, i) && Fill(server, before[i], i) == Success(r)
    ensures FilledTo(server, before, after[i := r], i + 1)
  {
  }

  lemma FilledOnce(server: Server, before: seq<WatchResource>, after: seq<WatchResource>)
    requires FilledAs(server, before, after)
    ensures forall other | FilledAs(server, before, other) :: other == after
  {
    forall other | FilledAs(server, before, other) ensures other == after {
      forall i | 0 <= i < |after| ensures other[i] == after[i] {
        assert Fill(server, before[i], i) == Success(other[i]);
      }
    }
  }

  ghost predicate Answers(server: Server, cache: map<string, seq<APIResource>>)
  {
    forall gv | gv in cache :: server(gv) == Some(cache[gv])
  }

  // The body of that loop: one entry, and the cache of answers so far. The
  // server is asked only what the cache does not hold.
  method CompleteEntry(server: Server, r: WatchResource, index: nat, cache: map<string, seq<APIResource>>)
    returns (filled: Result<WatchResource, ConfigError>, next: map<string, seq<APIResource>>, ghost asked: seq<string>)
    requires Answers(server, cache)
    ensures filled == Fill(server, r, index)
    ensures Answers(server, next)
    ensures NewQuestion(r, cache.Keys, asked)
    ensures filled.Success? ==> next.Keys == cache.Keys + Members(asked)
    ensures filled.Success? && QueryFor(r).Some? ==> QueryFor(r).value in next
  {
    next, asked := cache, [];
    if IsCompleteResource(r) {
      return Success(r), next, asked;
    }
    if IsLegacyKindOnly(r) {
      return Success(r), next, asked;
    }
    var identity := GroupVersionFor(r);
    if identity.Failure? {
      return Failure(BadIdentity(index, identity.error)), next, asked;
    }
    var gv := identity.value;
    if TrimSpace(r.kind) == "" {
      return Failure(BadIdentity(index, KindRequired)), next, asked;
    }
    var question := PrintGroupVersion(gv);
    if question !in cache {
      var answer := server(question);
      asked := [question];
      if answer.None? {
        return Failure(LookupFailed(index)), next, asked;
      }
      next := cache[question := answer.value];
    }
    var selected := Select(next[question], r.kind, index);
    if selected.Failure? {
      return Failure(selected.error), next, asked;
    }
    return Success(Completed(r, gv, selected.value)), next, asked;
  }

  lemma ListsMore(calls: seq<string>, s: set<string>, asked: seq<string>)
    requires Lists(calls, s) && (asked == [] || (|asked| == 1 && asked[0] !in s))
    ensures Lists(calls + asked, s + Members(asked))
  {
    if asked != [] {
      assert asked == [asked[0]] && Members(asked) == {asked[0]};
      ListsAdd(calls, s, asked[0]);
    } else {
      assert calls + asked == calls;
    }
  }

  // What was asked about the first `i` entries, each question once.
  ghost predicate Asked(calls: seq<string>, known: set<string>, watch: seq<WatchResource>, i: nat)
    requires i <= |watch|
  {
    Lists(calls, known) && known == Queries(watch, i)
  }

  // Each call to the server asks something new about the entry at hand.
  ghost predicate NewQuestion(r: WatchResource, known: set<string>, asked: seq<string>)
  {
    asked == [] || (QueryFor(r).Some? && asked == [QueryFor(r).value] && asked[0] !in known)
  }

  lemma AskedOnce(watch: seq<WatchResource>, i: nat, calls: seq<string>, known: set<string>, asked: seq<string>)
    requires i < |watch| && Asked(calls, known, watch, i) && NewQuestion(watch[i], known, asked)
    ensures Distinct(calls + asked) && Members(calls + asked) == known + Members(asked)
    ensures Members(calls + asked) <= Queries(watch, |watch|)
  {
    ListsMore(calls, known, asked);
    assert Queries(watch, i) <= Queries(watch, |watch|);
  }

  lemma AskedNext(watch: seq<WatchResource>, i: nat, calls: seq<string>, known: set<string>, asked: seq<string>,
                  next: set<string>)
    requires i < |watch| && Asked(calls, known, watch, i) && NewQuestion(watch[i], known, asked)
    requires next == known + Members(asked) && (QueryFor(watch[i]).Some? ==> QueryFor(watch[i]).value in next)
    ensures Asked(calls + asked, next, watch, i + 1)
  {
    AskedOnce(watch, i, calls, known, asked);
  }

  lemma RulesOkSnoc(prefix: string, rs: seq<ResourceInfo>, rules: seq<Rule>, i: nat)
    requires i < |rules| && RulesOk(prefix, rs, rules[..i])
    requires RuleOk(rs, rules[i]) && IsMetricName(prefix + rules[i].name)
    requires forall j | 0 <= j < i :: prefix + rules[j].name != prefix + rules[i].name
    ensures RulesOk(prefix, rs, rules[..i + 1])
  {
    assert rules[..i + 1] == rules[..i] + [rules[i]];
  }
}
