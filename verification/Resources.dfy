// Declared and normalised watch resources (pkg/config/config.go).
module Resources {
  import opened Wrappers
  import opened Text

  const SCOPE_NAMESPACED := "Namespaced"
  const SCOPE_CLUSTER := "Cluster"

  datatype OwnerConfig = OwnerConfig(follow: Option<bool>, topController: bool) {
    predicate FollowEnabled()
    {
      follow != Some(false)
    }
  }

  const DEFAULT_OWNER := OwnerConfig(None, false)
  const TOP_OWNER := OwnerConfig(None, true)

  datatype GroupVersion = GroupVersion(group: string, version: string)
  datatype GroupVersionKind = GroupVersionKind(group: string, version: string, kind: string)
  datatype GroupVersionResource = GroupVersionResource(group: string, version: string, resource: string)

  // An entry of watch.resources; the empty string stands for an omitted field.
  datatype WatchResource = WatchResource(
    name: string,
    apiVersion: string,
    group: string,
    version: string,
    resource: string,
    kind: string,
    scope: string,
    namespaces: seq<string>,
    labelSelector: string,
    fieldSelector: string,
    owner: OwnerConfig)

  datatype ResourceInfo = ResourceInfo(
    name: string,
    kind: string,
    apiVersion: string,
    group: string,
    version: string,
    resource: string,
    scope: string,
    owner: OwnerConfig)
  {
    function GVR(): GroupVersionResource
    {
      GroupVersionResource(group, version, resource)
    }

    function GVK(): GroupVersionKind
    {
      GroupVersionKind(group, version, kind)
    }
  }

  datatype ResourceError =
    | KindRequired
    | InvalidKind
    | InvalidName
    | Incomplete
    | InvalidApiVersion
    | VersionRequiredWithGroup
    | ConflictingGroupVersion
    | GroupVersionRequired
    | InvalidVersion
    | InvalidGroup
    | InvalidResource
    | InvalidScope
    | NamespacesOnClusterScope
    | BuiltinNeedsClusterScope

  // ---------------------------------------------------- validation patterns

  predicate IsKindName(s: string)
  {
    s != "" && IsUpper(s[0]) && forall i | 0 <= i < |s| :: IsLetter(s[i]) || IsDigit(s[i])
  }

  predicate IsNamePart(c: char)
  {
    IsLetter(c) || IsDigit(c) || c == '_' || c == '.' || c == '-'
  }

  predicate IsResourceName(s: string)
  {
    s != "" && IsLetter(s[0]) && forall i | 0 <= i < |s| :: IsNamePart(s[i])
  }

  predicate IsVersion(s: string)
  {
    s != "" && (IsLetter(s[0]) || IsDigit(s[0])) && forall i | 0 <= i < |s| :: IsNamePart(s[i])
  }

  predicate IsPluralName(s: string)
  {
    && s != "" && s[0] != '-' && s[|s| - 1] != '-'
    && forall i | 0 <= i < |s| :: IsLower(s[i]) || IsDigit(s[i]) || s[i] == '-'
  }

  // The patterns `[A-Z][A-Za-z0-9]*` of kinds, `[A-Za-z][A-Za-z0-9_.-]*` of names,
  // `[A-Za-z0-9][A-Za-z0-9_.-]*` of versions and `[a-z0-9]([-a-z0-9]*[a-z0-9])?` of
  // plural names, part by part.
  lemma NamePatterns(s: string)
    ensures IsKindName(s) <==> s != "" && 'A' <= s[0] <= 'Z' && Alphanumeric(s[1..], "")
    ensures IsResourceName(s) <==>
      s != "" && ('A' <= s[0] <= 'Z' || 'a' <= s[0] <= 'z') && Alphanumeric(s[1..], "_.-")
    ensures IsVersion(s) <==> s != "" && Alphanumeric(s[..1], "") && Alphanumeric(s[1..], "_.-")
    ensures IsPluralName(s) <==>
      && s != "" && LowerOrDigit(s[0]) && LowerOrDigit(s[|s| - 1])
      && forall i | 0 <= i < |s| :: LowerOrDigit(s[i]) || s[i] == '-'
  {
    if s != "" { FirstAndRest(s); }
  }

  // Letters, digits and these others.
  predicate Alphanumeric(s: string, others: string)
  {
    forall i | 0 <= i < |s| ::
      'a' <= s[i] <= 'z' || 'A' <= s[i] <= 'Z' || '0' <= s[i] <= '9' || s[i] in others
  }

  predicate LowerOrDigit(c: char)
  {
    'a' <= c <= 'z' || '0' <= c <= '9'
  }

  lemma FirstAndRest(s: string)
    requires s != ""
    ensures Alphanumeric(s[1..], "") <==> forall i | 0 < i < |s| :: IsLetter(s[i]) || IsDigit(s[i])
    ensures Alphanumeric(s[1..], "_.-") <==> forall i | 0 < i < |s| :: IsNamePart(s[i])
  {
    var rest := s[1..];
    assert forall i | 0 < i < |s| :: s[i] == rest[i - 1];
    assert forall c: char :: c in "_.-" <==> c == '_' || c == '.' || c == '-';
  }

  // -------------------------------------------------- group/version strings

  function PrintGroupVersion(gv: GroupVersion): string
  {
    if gv.group != "" then gv.group + "/" + gv.version else gv.version
  }

  function CountSlashes(s: string): nat
  {
    if s == "" then 0 else (if s[0] == '/' then 1 else 0) + CountSlashes(s[1..])
  }

  function FirstSlash(s: string): (i: nat)
    requires '/' in s
    ensures i < |s| && s[i] == '/' && forall k | 0 <= k < i :: s[k] != '/'
  {
    if s[0] == '/' then 0 else FirstSlash(s[1..]) + 1
  }

  // `schema.ParseGroupVersion`.
  function ParseGroupVersion(s: string): Result<GroupVersion, ResourceError>
  {
    if s == "" || s == "/" then Success(GroupVersion("", ""))
    else if CountSlashes(s) == 0 then Success(GroupVersion("", s))
    else if CountSlashes(s) == 1 then
      assert '/' in s by { SlashesAppear(s); }
      Success(GroupVersion(s[..FirstSlash(s)], s[FirstSlash(s) + 1..]))
    else Failure(InvalidApiVersion)
  }

  lemma {:induction false} SlashesAppear(s: string)
    ensures CountSlashes(s) == 0 <==> '/' !in s
  {
    if s != "" {
      SlashesAppear(s[1..]);
      assert s == [s[0]] + s[1..];
    }
  }

  lemma {:induction false} SlashesAdd(a: string, b: string)
    ensures CountSlashes(a + b) == CountSlashes(a) + CountSlashes(b)
  {
    if a == "" {
      assert a + b == b;
    } else {
      assert (a + b)[1..] == a[1..] + b;
      SlashesAdd(a[1..], b);
    }
  }

  // Printing and parsing are inverse exactly on slash-free parts.
  lemma GroupVersionRoundTrip(gv: GroupVersion)
    ensures ParseGroupVersion(PrintGroupVersion(gv)) == Success(gv)
      <==> '/' !in gv.group && '/' !in gv.version
  {
    var s := PrintGroupVersion(gv);
    SlashesAppear(gv.group);
    SlashesAppear(gv.version);
    SlashesAppear(s);
    if gv.group == "" {
      if CountSlashes(s) == 1 && s != "/" {
        assert s[FirstSlash(s) + 1..] != s;
      }
    } else {
      SlashesAdd(gv.group + "/", gv.version);
      SlashesAdd(gv.group, "/");
      if CountSlashes(s) == 1 {
        var i := FirstSlash(s);
        assert s[|gv.group|] == '/';
        assert s[..|gv.group|] == gv.group && s[|gv.group| + 1..] == gv.version;
        assert forall k | 0 <= k < |gv.group| :: s[k] == gv.group[k] != '/';
      }
    }
  }

  // A group/version string: one slash between group and version, or a version alone.
  predicate Splits(s: string, group: string, version: string)
  {
    && '/' !in group && '/' !in version
    && (s == group + "/" + version || (group == "" && s == version))
  }

  lemma ParseGroupVersionMeans(s: string, group: string, version: string)
    ensures ParseGroupVersion(s) == Success(GroupVersion(group, version)) <==> Splits(s, group, version)
  {
    SlashesAppear(s);
    if ParseGroupVersion(s) == Success(GroupVersion(group, version)) { ParsedSplits(s, group, version); }
    if Splits(s, group, version) { SplitParses(s, group, version); }
  }

  lemma ParsedSplits(s: string, group: string, version: string)
    requires ParseGroupVersion(s) == Success(GroupVersion(group, version))
    ensures Splits(s, group, version)
  {
    SlashesAppear(s);
    if CountSlashes(s) == 1 {
      var i := FirstSlash(s);
      assert s == s[..i] + "/" + s[i + 1..];
      SlashesAdd(s[..i] + "/", s[i + 1..]);
      SlashesAdd(s[..i], "/");
      SlashesAppear(s[..i]);
      SlashesAppear(s[i + 1..]);
      if s == "/" { assert s == "" + "/" + ""; }
    }
  }

  lemma SplitParses(s: string, group: string, version: string)
    requires Splits(s, group, version)
    ensures ParseGroupVersion(s) == Success(GroupVersion(group, version))
  {
    SlashesAppear(s);
    SlashesAppear(group);
    SlashesAppear(version);
    if s == group + "/" + version {
      SlashesAdd(group + "/", version);
      SlashesAdd(group, "/");
      assert s[|group|] == '/';
      assert forall k | 0 <= k < |group| :: s[k] == group[k] != '/';
      assert s[..|group|] == group && s[|group| + 1..] == version;
    }
  }

  // ----------------------------------------------------------- built-in kinds

  function SupportedResource(kind: string): Option<ResourceInfo>
  {
    match kind
    case "Pod" => Some(ResourceInfo("Pod", "Pod", "v1", "", "v1", "pods", SCOPE_NAMESPACED, DEFAULT_OWNER))
    case "ReplicaSet" =>
      Some(ResourceInfo("ReplicaSet", "ReplicaSet", "apps/v1", "apps", "v1", "replicasets", SCOPE_NAMESPACED,
        DEFAULT_OWNER))
    case "Deployment" =>
      Some(ResourceInfo("Deployment", "Deployment", "apps/v1", "apps", "v1", "deployments", SCOPE_NAMESPACED,
        TOP_OWNER))
    case "StatefulSet" =>
      Some(ResourceInfo("StatefulSet", "StatefulSet", "apps/v1", "apps", "v1", "statefulsets", SCOPE_NAMESPACED,
        TOP_OWNER))
    case "DaemonSet" =>
      Some(ResourceInfo("DaemonSet", "DaemonSet", "apps/v1", "apps", "v1", "daemonsets", SCOPE_NAMESPACED, TOP_OWNER))
    case "Node" => Some(ResourceInfo("Node", "Node", "v1", "", "v1", "nodes", SCOPE_CLUSTER, DEFAULT_OWNER))
    case "Service" => Some(ResourceInfo("Service", "Service", "v1", "", "v1", "services", SCOPE_NAMESPACED,
      DEFAULT_OWNER))
    case "EndpointSlice" =>
      Some(ResourceInfo("EndpointSlice", "EndpointSlice", "discovery.k8s.io/v1", "discovery.k8s.io", "v1",
        "endpointslices", SCOPE_NAMESPACED, DEFAULT_OWNER))
    case _ => None
  }

  function ApplyLegacyDefaults(r: WatchResource): WatchResource
  {
    var named := if r.name == "" then r.(name := r.kind) else r;
    match SupportedResource(r.kind)
    case None => named
    case Some(info) =>
      if r.resource != "" || r.apiVersion != "" || r.group != "" || r.version != "" then named
      else
        named.(apiVersion := info.apiVersion,
               group := info.group,
               version := info.version,
               resource := info.resource,
               scope := if r.scope == "" then info.scope else r.scope,
               owner := if r.owner.follow.None? && !r.owner.topController then info.owner else r.owner)
  }

  predicate IsLegacyKindOnly(r: WatchResource)
  {
    SupportedResource(r.kind).Some? && r.apiVersion == "" && r.group == "" && r.version == "" && r.resource == ""
  }

  predicate IsCompleteResource(r: WatchResource)
  {
    var d := ApplyLegacyDefaults(r);
    d.kind != "" && d.version != "" && d.resource != "" && d.scope != ""
  }

  function WatchName(r: WatchResource): string
  {
    if r.name != "" then r.name else r.kind
  }

  function GroupVersionFor(r: WatchResource): Result<GroupVersion, ResourceError>
  {
    var parsed := if r.apiVersion == "" then Success(GroupVersion("", "")) else ParseGroupVersion(r.apiVersion);
    if parsed.Failure? then parsed
    else
      var gv := parsed.value;
      if r.group == "" && r.version == "" then
        if gv.version == "" then Failure(GroupVersionRequired) else Success(gv)
      else if r.version == "" then Failure(VersionRequiredWithGroup)
      else if gv.version != "" && (gv.group != r.group || gv.version != r.version) then
        Failure(ConflictingGroupVersion)
      else Success(GroupVersion(r.group, r.version))
  }

  function ValidateResolved(r: WatchResource): Option<ResourceError>
  {
    if !IsVersion(r.version) then Some(InvalidVersion)
    else if ' ' in r.group || '/' in r.group then Some(InvalidGroup)
    else if !IsPluralName(r.resource) then Some(InvalidResource)
    else if r.scope != SCOPE_NAMESPACED && r.scope != SCOPE_CLUSTER then Some(InvalidScope)
    else if r.scope == SCOPE_CLUSTER && |r.namespaces| > 0 then Some(NamespacesOnClusterScope)
    else
      match SupportedResource(r.kind)
      case None => None
      case Some(legacy) =>
        if legacy.GVR() == GroupVersionResource(r.group, r.version, r.resource)
          && legacy.scope == SCOPE_CLUSTER && r.scope != SCOPE_CLUSTER
        then Some(BuiltinNeedsClusterScope)
        else None
  }

  // `normalizeResource`. With `placeholders`, entries that discovery still has
  // to complete pass with an empty plural name.
  function NormalizeResource(raw: WatchResource, placeholders: bool): Result<ResourceInfo, ResourceError>
  {
    var r := ApplyLegacyDefaults(raw);
    if TrimSpace(r.kind) == "" then Failure(KindRequired)
    else if !IsKindName(r.kind) then Failure(InvalidKind)
    else if !IsResourceName(r.name) then Failure(InvalidName)
    else if r.apiVersion == "" && r.version == "" && !IsLegacyKindOnly(raw) then
      if placeholders then Success(ResourceInfo(r.name, r.kind, "", "", "", "", "", r.owner))
      else Failure(Incomplete)
    else
      match GroupVersionFor(r)
      case Failure(e) => Failure(e)
      case Success(gv) =>
        var full := r.(group := gv.group, version := gv.version, apiVersion := PrintGroupVersion(gv));
        if full.resource == "" || full.scope == "" then
          if placeholders && full.apiVersion != "" && !IsLegacyKindOnly(raw) then
            Success(ResourceInfo(full.name, full.kind, full.apiVersion, full.group, full.version, "", "", full.owner))
          else Failure(Incomplete)
        else
          match ValidateResolved(full)
          case Some(e) => Failure(e)
          case None =>
            Success(ResourceInfo(full.name, full.kind, full.apiVersion, full.group, full.version,
                                 full.resource, full.scope, full.owner))
  }

  // ------------------------------------------------- what an entry declares

  // A built-in kind and nothing of what it could be: the shorthand form.
  predicate IsShorthand(raw: WatchResource)
  {
    && SupportedResource(raw.kind).Some?
    && raw.apiVersion == "" && raw.group == "" && raw.version == "" && raw.resource == ""
  }

  // The group and version that an entry declares: those of its apiVersion, or
  // group and version themselves, which a full apiVersion must then repeat.
  ghost predicate Identifies(raw: WatchResource, group: string, version: string)
  {
    && version != ""
    && if raw.group == "" && raw.version == "" then Splits(raw.apiVersion, group, version)
       else
         && group == raw.group && version == raw.version
         && (|| raw.apiVersion == ""
             || exists g, v :: Splits(raw.apiVersion, g, v) && (v == "" || (g == group && v == version)))
  }

  lemma IdentityMeans(raw: WatchResource, group: string, version: string)
    ensures GroupVersionFor(raw) == Success(GroupVersion(group, version)) <==> Identifies(raw, group, version)
  {
    ParseGroupVersionMeans(raw.apiVersion, group, version);
    if ParseGroupVersion(raw.apiVersion).Success? {
      var gv := ParseGroupVersion(raw.apiVersion).value;
      ParsedSplits(raw.apiVersion, gv.group, gv.version);
    }
    forall g, v | Splits(raw.apiVersion, g, v)
      ensures ParseGroupVersion(raw.apiVersion) == Success(GroupVersion(g, v)) {
      SplitParses(raw.apiVersion, g, v);
    }
  }

  // Why an entry identifies nothing.
  ghost predicate IdentityFault(raw: WatchResource, e: ResourceError)
  {
    || (e == InvalidApiVersion && raw.apiVersion != "" && forall g, v :: !Splits(raw.apiVersion, g, v))
    || (e == GroupVersionRequired && raw.group == "" && raw.version == ""
        && (raw.apiVersion == "" || exists g :: Splits(raw.apiVersion, g, "")))
    || (e == VersionRequiredWithGroup && raw.group != "" && raw.version == "")
    || (e == ConflictingGroupVersion && raw.version != ""
        && exists g, v :: Splits(raw.apiVersion, g, v) && v != "" && (g != raw.group || v != raw.version))
  }

  lemma IdentityFails(raw: WatchResource)
    requires GroupVersionFor(raw).Failure?
    ensures IdentityFault(raw, GroupVersionFor(raw).error)
  {
    if ParseGroupVersion(raw.apiVersion).Success? {
      var gv := ParseGroupVersion(raw.apiVersion).value;
      ParsedSplits(raw.apiVersion, gv.group, gv.version);
    } else {
      forall g, v ensures !Splits(raw.apiVersion, g, v) { ParseGroupVersionMeans(raw.apiVersion, g, v); }
    }
  }

  // The resource that an entry declares: the built-in one for the shorthand,
  // except for a scope or owner of its own, else what the entry itself gives.
  ghost predicate Describes(raw: WatchResource, info: ResourceInfo)
  {
    && info.kind == raw.kind && info.name == (if raw.name != "" then raw.name else raw.kind)
    && info.apiVersion == (if info.group != "" then info.group + "/" + info.version else info.version)
    && if IsShorthand(raw) then
         var builtin := SupportedResource(raw.kind).value;
         && info.group == builtin.group && info.version == builtin.version && info.resource == builtin.resource
         && info.scope == (if raw.scope != "" then raw.scope else builtin.scope)
         && info.owner == (if raw.owner == OwnerConfig(None, false) then builtin.owner else raw.owner)
       else
         && Identifies(raw, info.group, info.version)
         && info.resource == raw.resource && info.scope == raw.scope && info.owner == raw.owner
  }

  predicate WellFormed(raw: WatchResource, info: ResourceInfo)
  {
    && IsKindName(info.kind) && IsResourceName(info.name) && IsVersion(info.version) && IsPluralName(info.resource)
    && ' ' !in info.group && '/' !in info.group
    && (info.scope == "Namespaced" || (info.scope == "Cluster" && raw.namespaces == []))
    && (info.kind == "Node" && info.group == "" && info.version == "v1" && info.resource == "nodes" ==>
          info.scope == "Cluster")
  }

  // An entry normalises to the resource it declares, if that is well formed, and
  // to nothing else.
  lemma NormalizesExactly(raw: WatchResource, info: ResourceInfo)
    ensures NormalizeResource(raw, false) == Success(info) <==> Describes(raw, info) && WellFormed(raw, info)
  {
    if IsShorthand(raw) {
      ShorthandMeans(raw, info);
    } else {
      LonghandMeans(raw, info);
    }
  }

  lemma LonghandMeans(raw: WatchResource, info: ResourceInfo)
    requires !IsShorthand(raw)
    ensures NormalizeResource(raw, false) == Success(info) <==> Describes(raw, info) && WellFormed(raw, info)
  {
    var r := ApplyLegacyDefaults(raw);
    assert r == if raw.name == "" then raw.(name := raw.kind) else raw;
    IdentityMeans(raw, info.group, info.version);
    assert GroupVersionFor(r) == GroupVersionFor(raw);
    NodeScope(raw.kind, info);
    if IsKindName(raw.kind) { Visible(raw.kind); }
    if raw.apiVersion == "" && raw.version == "" { NothingDeclared(raw, info); }
  }

  lemma NothingDeclared(raw: WatchResource, info: ResourceInfo)
    requires raw.apiVersion == "" && raw.version == ""
    ensures !Identifies(raw, info.group, info.version)
  {
    if raw.group == "" && Splits("", info.group, info.version) {
      assert |info.group + "/" + info.version| > 0;
    }
  }

  // `Node` is the built-in kind that is cluster-scoped.
  lemma NodeScope(kind: string, info: ResourceInfo)
    ensures var builtin := SupportedResource(kind);
      (builtin.Some? && builtin.value.GVR() == info.GVR() && builtin.value.scope == SCOPE_CLUSTER)
      <==> (kind == "Node" && info.group == "" && info.version == "v1" && info.resource == "nodes")
  {
  }

  lemma ShorthandMeans(raw: WatchResource, info: ResourceInfo)
    requires IsShorthand(raw)
    ensures NormalizeResource(raw, false) == Success(info) <==> Describes(raw, info) && WellFormed(raw, info)
  {
    var builtin, r := SupportedResource(raw.kind).value, ApplyLegacyDefaults(raw);
    BuiltinIsValid(raw.kind);
    GroupVersionRoundTrip(GroupVersion(builtin.group, builtin.version));
    assert GroupVersionFor(r) == Success(GroupVersion(builtin.group, builtin.version));
    NodeScope(raw.kind, info);
  }

  // With placeholders, an entry that leaves its resource or scope to discovery
  // also normalises, without either: under the identity it declares, or under
  // none if it has neither apiVersion nor version.
  ghost predicate LeavesOpen(raw: WatchResource, info: ResourceInfo)
  {
    && !IsShorthand(raw) && info.resource == "" && info.scope == "" && info.owner == raw.owner
    && info.kind == raw.kind && info.name == (if raw.name != "" then raw.name else raw.kind)
    && IsKindName(info.kind) && IsResourceName(info.name)
    && if raw.apiVersion == "" && raw.version == "" then
         info.apiVersion == "" && info.group == "" && info.version == ""
       else
         && Identifies(raw, info.group, info.version) && (raw.resource == "" || raw.scope == "")
         && info.apiVersion == if info.group != "" then info.group + "/" + info.version else info.version
  }

  lemma PlaceholdersExactly(raw: WatchResource, info: ResourceInfo)
    ensures NormalizeResource(raw, true) == Success(info) <==>
      (Describes(raw, info) && WellFormed(raw, info)) || LeavesOpen(raw, info)
  {
    NormalizesExactly(raw, info);
    if IsShorthand(raw) {
      BuiltinIsValid(raw.kind);
    } else {
      OpenMeans(raw, info);
    }
  }

  lemma OpenMeans(raw: WatchResource, info: ResourceInfo)
    requires !IsShorthand(raw)
    ensures NormalizeResource(raw, true) == Success(info) <==>
      NormalizeResource(raw, false) == Success(info) || LeavesOpen(raw, info)
  {
    var r := ApplyLegacyDefaults(raw);
    assert r == if raw.name == "" then raw.(name := raw.kind) else raw;
    IdentityMeans(raw, info.group, info.version);
    assert GroupVersionFor(r) == GroupVersionFor(raw);
    if IsKindName(raw.kind) { Visible(raw.kind); }
  }

  // What each error of normalisation tells of the entry.
  lemma NormalizeFails(raw: WatchResource, placeholders: bool)
    requires NormalizeResource(raw, placeholders).Failure?
    ensures NormalizeFault(raw, NormalizeResource(raw, placeholders).error)
  {
    if IsShorthand(raw) {
      BuiltinIsValid(raw.kind);
      ShorthandFails(raw, placeholders);
    } else {
      LonghandFails(raw, placeholders);
    }
  }

  ghost predicate NormalizeFault(raw: WatchResource, e: ResourceError)
  {
    || (e == KindRequired && TrimSpace(raw.kind) == "")
    || (e == InvalidKind && TrimSpace(raw.kind) != "" && !IsKindName(raw.kind))
    || (e == InvalidName && !IsResourceName(if raw.name != "" then raw.name else raw.kind))
    || (e == Incomplete && !IsShorthand(raw)
        && (raw.resource == "" || raw.scope == "" || (raw.apiVersion == "" && raw.version == "")))
    || IdentityFault(raw, e)
    || (e == InvalidScope && raw.scope != "Namespaced" && raw.scope != "Cluster")
    || (e == NamespacesOnClusterScope && raw.namespaces != []
        && (raw.scope == "Cluster" || (IsShorthand(raw) && raw.kind == "Node")))
    || (e == BuiltinNeedsClusterScope && raw.kind == "Node" && raw.scope == "Namespaced")
    || (e == InvalidResource && !IsPluralName(raw.resource))
    || (e == InvalidVersion && exists g, v :: Identifies(raw, g, v) && !IsVersion(v))
    || (e == InvalidGroup && exists g, v :: Identifies(raw, g, v) && (' ' in g || '/' in g))
  }

  lemma LonghandFails(raw: WatchResource, placeholders: bool)
    requires !IsShorthand(raw) && NormalizeResource(raw, placeholders).Failure?
    ensures NormalizeFault(raw, NormalizeResource(raw, placeholders).error)
  {
    var r := ApplyLegacyDefaults(raw);
    assert r == if raw.name == "" then raw.(name := raw.kind) else raw;
    assert GroupVersionFor(r) == GroupVersionFor(raw);
    if GroupVersionFor(raw).Failure? {
      IdentityFails(raw);
    } else {
      var gv := GroupVersionFor(raw).value;
      IdentityMeans(raw, gv.group, gv.version);
      NodeScope(raw.kind, ResourceInfo("", raw.kind, "", gv.group, gv.version, raw.resource, "", DEFAULT_OWNER));
    }
  }

  lemma ShorthandFails(raw: WatchResource, placeholders: bool)
    requires IsShorthand(raw) && NormalizeResource(raw, placeholders).Failure?
    ensures NormalizeFault(raw, NormalizeResource(raw, placeholders).error)
  {
    var builtin, r := SupportedResource(raw.kind).value, ApplyLegacyDefaults(raw);
    BuiltinIsValid(raw.kind);
    GroupVersionRoundTrip(GroupVersion(builtin.group, builtin.version));
    assert GroupVersionFor(r) == Success(GroupVersion(builtin.group, builtin.version));
    NodeScope(raw.kind, builtin);
    BuiltinCluster(raw.kind);
  }

  lemma BuiltinCluster(kind: string)
    requires SupportedResource(kind).Some?
    ensures SupportedResource(kind).value.scope == (if kind == "Node" then "Cluster" else "Namespaced")
  {
  }

  // --------------------------------------------------------------- stability

  lemma LegacyDefaultsIdempotent(r: WatchResource)
    ensures ApplyLegacyDefaults(ApplyLegacyDefaults(r)) == ApplyLegacyDefaults(r)
  {
  }

  // What a successful normalisation guarantees about identity. Names are well
  // formed in every case; a resolved entry also has a canonical apiVersion.
  lemma NormalizedIdentity(raw: WatchResource, placeholders: bool)
    requires NormalizeResource(raw, placeholders).Success?
    ensures var info := NormalizeResource(raw, placeholders).value;
      && IsKindName(info.kind) && info.kind == raw.kind
      && IsResourceName(info.name) && info.name == WatchName(raw)
      && (!placeholders ==> info.resource != "")
      && (info.resource != "" ==>
            && IsCompleteInfo(info)
            && ParseGroupVersion(info.apiVersion) == Success(GroupVersion(info.group, info.version))
            && info.apiVersion == PrintGroupVersion(GroupVersion(info.group, info.version)))
  {
    var info := NormalizeResource(raw, placeholders).value;
    if info.resource != "" {
      assert '/' !in info.version;
      GroupVersionRoundTrip(GroupVersion(info.group, info.version));
    }
  }

  // A built-in kind in its own group keeps its cluster scope, and namespaces
  // go with namespaced resources only.
  lemma NormalizedScope(raw: WatchResource, placeholders: bool)
    requires NormalizeResource(raw, placeholders).Success? && NormalizeResource(raw, placeholders).value.resource != ""
    ensures var info, builtin := NormalizeResource(raw, placeholders).value, SupportedResource(raw.kind);
      && (info.scope == SCOPE_CLUSTER ==> raw.namespaces == [])
      && (builtin.Some? && builtin.value.GVR() == info.GVR() && builtin.value.scope == SCOPE_CLUSTER ==>
            info.scope == SCOPE_CLUSTER)
  {
  }

  // The shorthand: an entry that gives only a built-in kind is that resource.
  function KindOnly(kind: string, namespaces: seq<string>): WatchResource
  {
    WatchResource("", "", "", "", "", kind, "", namespaces, "", "", DEFAULT_OWNER)
  }

  lemma ShorthandIsBuiltin(kind: string, namespaces: seq<string>, placeholders: bool)
    requires SupportedResource(kind).Some?
    ensures NormalizeResource(KindOnly(kind, namespaces), placeholders) ==
      if SupportedResource(kind).value.scope == SCOPE_CLUSTER && namespaces != [] then Failure(NamespacesOnClusterScope)
      else Success(SupportedResource(kind).value)
  {
    var info := SupportedResource(kind).value;
    var r := ApplyLegacyDefaults(KindOnly(kind, namespaces));
    BuiltinIsValid(kind);
    assert r == Redeclare(info, namespaces, "", "");
    GroupVersionRoundTrip(GroupVersion(info.group, info.version));
    assert GroupVersionFor(r) == Success(GroupVersion(info.group, info.version));
  }

  lemma BuiltinIsValid(kind: string)
    requires SupportedResource(kind).Some?
    ensures var info := SupportedResource(kind).value;
      && IsCompleteInfo(info) && IsKindName(kind) && IsResourceName(kind) && TrimSpace(kind) != ""
      && info.name == info.kind == kind && ' ' !in info.group && '/' !in info.version
      && info.apiVersion == PrintGroupVersion(GroupVersion(info.group, info.version))
  {
    BuiltinKind(kind);
    BuiltinPlural(kind);
    BuiltinScope(kind);
    BuiltinGroup(kind);
    VersionOne();
    assert SupportedResource(kind).value.group + "/" + "v1" == SupportedResource(kind).value.group + "/v1";
    Visible(kind);
  }

  lemma BuiltinKind(kind: string)
    requires SupportedResource(kind).Some?
    ensures IsKindName(kind) && IsResourceName(kind) && !IsSpace(kind[0])
    ensures SupportedResource(kind).value.name == SupportedResource(kind).value.kind == kind
  {
  }

  lemma BuiltinPlural(kind: string)
    requires SupportedResource(kind).Some?
    ensures IsPluralName(SupportedResource(kind).value.resource)
  {
    if SupportedResource(kind).value.group == "apps" { AppsPlural(kind); } else { OtherPlural(kind); }
  }

  lemma AppsPlural(kind: string)
    requires SupportedResource(kind).Some? && SupportedResource(kind).value.group == "apps"
    ensures IsPluralName(SupportedResource(kind).value.resource)
  {
  }

  lemma OtherPlural(kind: string)
    requires SupportedResource(kind).Some? && SupportedResource(kind).value.group != "apps"
    ensures IsPluralName(SupportedResource(kind).value.resource)
  {
  }

  lemma BuiltinScope(kind: string)
    requires SupportedResource(kind).Some?
    ensures var info := SupportedResource(kind).value;
      (info.scope == SCOPE_NAMESPACED || info.scope == SCOPE_CLUSTER) && info.version == "v1"
  {
  }

  lemma BuiltinGroup(kind: string)
    requires SupportedResource(kind).Some?
    ensures var info := SupportedResource(kind).value;
      && '/' !in info.group && ' ' !in info.group
      && info.apiVersion == if info.group == "" then "v1" else info.group + "/v1"
  {
    BuiltinGroupName(kind);
    GroupNames();
  }

  lemma BuiltinGroupName(kind: string)
    requires SupportedResource(kind).Some?
    ensures var info := SupportedResource(kind).value;
      || (info.group == "" && info.apiVersion == "v1")
      || (info.group == "apps" && info.apiVersion == "apps/v1")
      || (info.group == "discovery.k8s.io" && info.apiVersion == "discovery.k8s.io/v1")
  {
  }

  lemma GroupNames()
    ensures "apps" + "/v1" == "apps/v1" && "discovery.k8s.io" + "/v1" == "discovery.k8s.io/v1"
    ensures '/' !in "apps" && ' ' !in "apps" && '/' !in "discovery.k8s.io" && ' ' !in "discovery.k8s.io"
  {
  }

  lemma VersionOne()
    ensures IsVersion("v1") && '/' !in "v1"
  {
  }

  // The built-in kinds by their attributes: workloads live in the apps group, the
  // top controllers among them are flagged, Node alone is cluster-scoped, and the
  // plural is the kind in lower case with an `s`.
  lemma BuiltinTable(kind: string)
    ensures SupportedResource(kind).Some? <==>
      IsWorkload(kind) || kind == "Pod" || kind == "Node" || kind == "Service" || kind == "EndpointSlice"
    ensures SupportedResource(kind).Some? ==>
      var info := SupportedResource(kind).value;
      && info.name == info.kind == kind && info.version == "v1"
      && info.group == (if IsWorkload(kind) then "apps" else if kind == "EndpointSlice" then "discovery.k8s.io" else "")
      && info.scope == (if kind == "Node" then "Cluster" else "Namespaced")
      && info.owner == OwnerConfig(None, IsWorkload(kind) && kind != "ReplicaSet")
    ensures SupportedResource(kind).Some? ==> SupportedResource(kind).value.resource == Lowered(kind) + "s"
  {
    if SupportedResource(kind).Some? {
      BuiltinKind(kind);
      BuiltinCluster(kind);
      BuiltinScope(kind);
      PluralOfKind(kind);
    }
  }

  predicate IsWorkload(kind: string)
  {
    kind == "ReplicaSet" || kind == "Deployment" || kind == "StatefulSet" || kind == "DaemonSet"
  }

  function Lowered(s: string): (low: string)
    ensures |low| == |s|
    ensures forall i | 0 <= i < |s| ::
      if 'A' <= s[i] <= 'Z' then low[i] as int == s[i] as int + 32 else low[i] == s[i]
  {
    seq(|s|, i requires 0 <= i < |s| => if 'A' <= s[i] <= 'Z' then (s[i] as int + 32) as char else s[i])
  }

  lemma PluralOfKind(kind: string)
    requires SupportedResource(kind).Some?
    ensures SupportedResource(kind).value.resource == Lowered(kind) + "s"
  {
    match kind {
      case "Pod" => assert "pods" == Lowered("Pod") + "s";
      case "ReplicaSet" => assert "replicasets" == Lowered("ReplicaSet") + "s";
      case "Deployment" => assert "deployments" == Lowered("Deployment") + "s";
      case "StatefulSet" => assert "statefulsets" == Lowered("StatefulSet") + "s";
      case "DaemonSet" => assert "daemonsets" == Lowered("DaemonSet") + "s";
      case "Node" => assert "nodes" == Lowered("Node") + "s";
      case "Service" => assert "services" == Lowered("Service") + "s";
      case "EndpointSlice" => assert "endpointslices" == Lowered("EndpointSlice") + "s";
    }
  }

  predicate IsCompleteInfo(info: ResourceInfo)
  {
    && IsVersion(info.version) && '/' !in info.group && IsPluralName(info.resource)
    && (info.scope == SCOPE_NAMESPACED || info.scope == SCOPE_CLUSTER)
  }

  // The full declaration of a resolved resource.
  function Redeclare(info: ResourceInfo, namespaces: seq<string>, labelSelector: string, fieldSelector: string)
    : WatchResource
  {
    WatchResource(info.name, info.apiVersion, info.group, info.version, info.resource, info.kind,
                  info.scope, namespaces, labelSelector, fieldSelector, info.owner)
  }

  // Declaring a resolved resource in full normalises to the identical value;
  // only namespaces on a cluster-scoped resource are refused.
  lemma RedeclarationIsStable(raw: WatchResource, placeholders: bool, again: bool, namespaces: seq<string>,
                              labelSelector: string, fieldSelector: string)
    requires NormalizeResource(raw, placeholders).Success?
    requires NormalizeResource(raw, placeholders).value.resource != ""
    ensures var info := NormalizeResource(raw, placeholders).value;
      NormalizeResource(Redeclare(info, namespaces, labelSelector, fieldSelector), again) ==
        if info.scope == SCOPE_CLUSTER && namespaces != [] then Failure(NamespacesOnClusterScope)
        else Success(info)
  {
    NormalizedIdentity(raw, placeholders);
    var info := NormalizeResource(raw, placeholders).value;
    var full := Redeclare(info, namespaces, labelSelector, fieldSelector);
    RedeclaredIdentity(info, full);
    assert TrimSpace(info.kind) != "";
  }

  lemma RedeclaredIdentity(info: ResourceInfo, full: WatchResource)
    requires full.name == info.name && full.apiVersion == info.apiVersion
    requires full.group == info.group && full.version == info.version && full.resource == info.resource
    requires info.name != "" && info.version != "" && info.resource != ""
    requires ParseGroupVersion(info.apiVersion) == Success(GroupVersion(info.group, info.version))
    ensures ApplyLegacyDefaults(full) == full
    ensures GroupVersionFor(full) == Success(GroupVersion(info.group, info.version))
  {
  }
}
