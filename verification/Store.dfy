// The scoped informer store (pkg/collector/listers.go): one cache per watched
// resource and namespace, read by `Get` and `ListAll`.
module Store {
  import opened Wrappers
  import opened Sequences
  import opened Resources
  import opened Registries
  import opened Objects

  datatype StoreError = NotWatched | NoLister | NeedsNamespace | NotCached

  // ------------------------------------------------------------ scope tables

  // `WatchScope.ResourceFor`: the first entry with that name or that kind.
  function WatchFor(watch: seq<WatchResource>, name: string): Option<WatchResource>
  {
    if watch == [] then None
    else
      var r := ApplyLegacyDefaults(watch[0]);
      if WatchName(r) == name || r.kind == name then Some(r) else WatchFor(watch[1..], name)
  }

  function DeclaredNamespaces(watch: seq<WatchResource>, name: string): seq<string>
  {
    match WatchFor(watch, name)
    case Some(r) => r.namespaces
    case None => []
  }

  predicate IsClusterWide(watch: seq<WatchResource>, info: ResourceInfo)
  {
    info.scope == SCOPE_CLUSTER || DeclaredNamespaces(watch, info.name) == []
  }

  // The factory keys of a resource.
  function ScopesOf(watch: seq<WatchResource>, info: ResourceInfo): seq<string>
  {
    if IsClusterWide(watch, info) then [""] else DeclaredNamespaces(watch, info.name)
  }

  lemma {:induction false} WatchForFirst(watch: seq<WatchResource>, name: string, i: nat)
    requires i < |watch| && (WatchName(watch[i]) == name || watch[i].kind == name)
    requires forall j | 0 <= j < i :: WatchName(watch[j]) != name && watch[j].kind != name
    ensures WatchFor(watch, name) == Some(ApplyLegacyDefaults(watch[i]))
  {
    if i > 0 {
      assert WatchName(watch[0]) != name;
      WatchForFirst(watch[1..], name, i - 1);
    }
  }

  lemma EntriesKept(watch: seq<WatchResource>, rs: seq<ResourceInfo>)
    requires Declares(watch, false, rs)
    ensures forall j | 0 <= j < |rs| ::
      && rs[j].name == WatchName(watch[j]) && rs[j].kind == watch[j].kind
      && (rs[j].scope == "Namespaced" || rs[j].scope == "Cluster")
  {
    forall j | 0 <= j < |rs|
      ensures rs[j].name == WatchName(watch[j]) && rs[j].kind == watch[j].kind
      ensures rs[j].scope == "Namespaced" || rs[j].scope == "Cluster" {
      NormalizedIdentity(watch[j], false);
    }
  }

  // A resource is watched under the scope and selectors of its own entry
  // exactly when no earlier entry has its name for a kind.
  lemma {:induction false} OwnEntryUsed(watch: seq<WatchResource>, rs: seq<ResourceInfo>, i: nat)
    requires Declares(watch, false, rs) && i < |rs|
    ensures WatchFor(watch, rs[i].name) == Some(ApplyLegacyDefaults(watch[i]))
      <==> forall j | 0 <= j < i :: rs[j].kind != rs[i].name
  {
    EntriesKept(watch, rs);
    assert forall j | 0 <= j < i :: !Clash(rs[j], rs[i]);
    if forall j | 0 <= j < i :: rs[j].kind != rs[i].name {
      WatchForFirst(watch, rs[i].name, i);
    } else {
      var j := FirstOfKind(rs, rs[i].name, i);
      assert forall k | 0 <= k < j :: !Clash(rs[k], rs[i]);
      WatchForFirst(watch, rs[i].name, j);
      assert WatchName(watch[j]) != WatchName(watch[i]);
    }
  }

  lemma FirstOfKind(rs: seq<ResourceInfo>, kind: string, i: nat) returns (j: nat)
    requires i <= |rs| && exists k | 0 <= k < i :: rs[k].kind == kind
    ensures j < i && rs[j].kind == kind && forall k | 0 <= k < j :: rs[k].kind != kind
  {
    j := 0;
    while rs[j].kind != kind
      invariant j < i && forall k | 0 <= k < j :: rs[k].kind != kind
      invariant exists k | j <= k < i :: rs[k].kind == kind
      decreases i - j
    {
      j := j + 1;
    }
  }

  // ------------------------------------------------------------------- Get

  type Listers = map<string, map<string, Cache>>

  function ScopeKey(clusterWide: bool, namespace: string): string
  {
    if clusterWide then "" else namespace
  }

  function GetIn(info: ResourceInfo, clusterWide: bool, scopes: map<string, Cache>, namespace: string, name: string)
    : Result<Object, StoreError>
  {
    var key := ScopeKey(clusterWide, namespace);
    if key !in scopes then Failure(NoLister)
    else if info.scope != SCOPE_CLUSTER && namespace == "" then Failure(NeedsNamespace)
    else
      var k := ObjectKey(if info.scope == SCOPE_CLUSTER then "" else namespace, name);
      if k in scopes[key] then Success(scopes[key][k]) else Failure(NotCached)
  }

  // What `Get` answers, as a function of the tables and the caches.
  function GetFrom(rs: seq<ResourceInfo>, watch: seq<WatchResource>, listers: Listers, ref: string, namespace: string,
                   name: string): Result<Object, StoreError>
  {
    match Lookup(rs, ref)
    case Failure(_) => Failure(NotWatched)
    case Success(info) =>
      if info.name !in listers then Failure(NotWatched)
      else GetIn(info, IsClusterWide(watch, info), listers[info.name], namespace, name)
  }

  ghost predicate CachesWellKeyed(listers: Listers)
  {
    forall n, s | n in listers && s in listers[n] :: WellKeyed(listers[n][s])
  }

  // `Get` returns an object under the key it was asked for: a namespaced
  // resource yields the namespace of the question, a cluster-scoped one none.
  lemma GetIsKeyed(rs: seq<ResourceInfo>, watch: seq<WatchResource>, listers: Listers, ref: string, namespace: string,
                   name: string)
    requires CachesWellKeyed(listers) && GetFrom(rs, watch, listers, ref, namespace, name).Success?
    ensures var info, o := Lookup(rs, ref).value, GetFrom(rs, watch, listers, ref, namespace, name).value;
      && KeyedBy(o, ObjectKey(if info.scope == SCOPE_CLUSTER then "" else namespace, name))
      && (info.scope != SCOPE_CLUSTER ==> namespace != "")
  {
    var info := Lookup(rs, ref).value;
    var key := ScopeKey(IsClusterWide(watch, info), namespace);
    assert WellKeyed(listers[info.name][key]);
  }

  // --------------------------------------------------------------- ListAll

  // `parts[i]` lists the cache of the i-th scope, in an unspecified order.
  ghost predicate Listing(keys: seq<string>, scopes: map<string, Cache>, parts: seq<seq<Object>>)
  {
    && |parts| == |keys|
    && forall i | 0 <= i < |keys| ::
         if keys[i] in scopes then Lists(parts[i], scopes[keys[i]].Values) else parts[i] == []
  }

  // Whether the cache of a scope holds this object under this key.
  predicate Holds(scopes: map<string, Cache>, scope: string, k: ObjectKey, o: Object)
  {
    scope in scopes && k in scopes[scope] && scopes[scope][k] == o
  }

  // The caches are well keyed, one for each scope, and a namespace's cache holds
  // objects of that namespace only. Caches that overlap may still disagree: they
  // are filled by separate informers.
  ghost predicate Scoped(keys: seq<string>, scopes: map<string, Cache>)
  {
    && scopes.Keys == Members(keys)
    && forall s | s in scopes ::
         WellKeyed(scopes[s]) && (s != "" ==> forall k | k in scopes[s] :: k.namespace == s)
  }

  function Count(keys: seq<string>, s: string): nat
  {
    multiset(keys)[s]
  }

  // How often an object is listed: once for every mention of its namespace, if
  // that cache holds it, and, unless it has none, once for every cluster-wide
  // scope whose cache holds it.
  lemma {:induction false} ListedExactly(keys: seq<string>, scopes: map<string, Cache>, parts: seq<seq<Object>>,
                                         k: ObjectKey, o: Object)
    requires forall s | s in scopes ::
      WellKeyed(scopes[s]) && (s != "" ==> forall j | j in scopes[s] :: j.namespace == s)
    requires forall s | s in keys :: s in scopes
    requires Listing(keys, scopes, parts) && KeyedBy(o, k)
    ensures multiset(Flatten(parts))[o] ==
      (if Holds(scopes, k.namespace, k, o) then Count(keys, k.namespace) else 0)
      + if k.namespace != "" && Holds(scopes, "", k, o) then Count(keys, "") else 0
  {
    if keys != [] {
      var s := keys[0];
      forall i | 0 <= i < |keys| - 1 ensures keys[1..][i] == keys[i + 1] && parts[1..][i] == parts[i + 1] {}
      ListedExactly(keys[1..], scopes, parts[1..], k, o);
      Uncons(keys);
      assert multiset(keys) == multiset{s} + multiset(keys[1..]);
      HeldOnce(scopes, s, parts[0], k, o);
      assert multiset(Flatten(parts)) == multiset(parts[0]) + multiset(Flatten(parts[1..]));
    }
  }

  lemma HeldOnce(scopes: map<string, Cache>, s: string, part: seq<Object>, k: ObjectKey, o: Object)
    requires s in scopes && WellKeyed(scopes[s]) && (s != "" ==> forall j | j in scopes[s] :: j.namespace == s)
    requires Lists(part, scopes[s].Values) && KeyedBy(o, k)
    ensures multiset(part)[o] == if Holds(scopes, s, k, o) then 1 else 0
    ensures Holds(scopes, s, k, o) ==> s == "" || s == k.namespace
  {
    ListsMultiset(part, scopes[s].Values);
    assert forall j | j in scopes[s] :: KeyedBy(scopes[s][j], j);
    if Holds(scopes, s, k, o) { assert scopes[s][k] in scopes[s].Values; }
  }

  // Every object that is listed is listed once when no scope is mentioned twice
  // and the cluster-wide scope, if mentioned, stands alone.
  lemma ListedOnce(keys: seq<string>, scopes: map<string, Cache>, parts: seq<seq<Object>>, k: ObjectKey, o: Object)
    requires Scoped(keys, scopes) && Listing(keys, scopes, parts) && KeyedBy(o, k)
    requires Distinct(keys) && ("" in keys ==> |keys| == 1)
    ensures multiset(Flatten(parts))[o] == if Holds(scopes, if "" in keys then "" else k.namespace, k, o) then 1 else 0
  {
    ListedExactly(keys, scopes, parts, k, o);
    DistinctIffSingle(keys);
    assert forall s | s in scopes :: s in keys && s in multiset(keys);
    if "" in keys { assert keys == [""]; }
    assert "" !in keys ==> "" !in scopes;
  }

  // What `Get` returns is listed.
  lemma GotIsListed(info: ResourceInfo, clusterWide: bool, keys: seq<string>, scopes: map<string, Cache>,
                    parts: seq<seq<Object>>, namespace: string, name: string)
    requires scopes.Keys == Members(keys) && Listing(keys, scopes, parts)
    ensures GetIn(info, clusterWide, scopes, namespace, name).Success? ==>
      GetIn(info, clusterWide, scopes, namespace, name).value in Flatten(parts)
  {
    var key := ScopeKey(clusterWide, namespace);
    var got := GetIn(info, clusterWide, scopes, namespace, name);
    if got.Success? {
      assert key in Members(keys);
      var i :| 0 <= i < |keys| && keys[i] == key;
      assert got.value in scopes[key].Values;
      ListsMembers(parts[i], scopes[key].Values);
      FlattenHas(parts, i, got.value);
    }
  }

  // A cluster-wide cache beside those of namespaces holds nothing that the
  // namespaces' own caches do not.
  ghost predicate NothingExtra(scopes: map<string, Cache>)
  {
    "" in scopes ==> forall k | k in scopes[""] && k.namespace != "" :: Holds(scopes, k.namespace, k, scopes[""][k])
  }

  // Store agreement for namespaced objects. `Get` returns every listed object
  // under its own key exactly when the resource is watched cluster-wide or an
  // empty string among its namespaces adds nothing to the others.
  lemma StoreAgreement(info: ResourceInfo, clusterWide: bool, keys: seq<string>, scopes: map<string, Cache>,
                       parts: seq<seq<Object>>)
    requires Scoped(keys, scopes) && Listing(keys, scopes, parts)
    requires info.scope != SCOPE_CLUSTER && (clusterWide ==> keys == [""])
    ensures (forall k, o | KeyedBy(o, k) && k.namespace != "" ::
               o in Flatten(parts) <==> GetIn(info, clusterWide, scopes, k.namespace, k.name) == Success(o))
      <==> clusterWide || NothingExtra(scopes)
  {
    forall k, o | KeyedBy(o, k) && k.namespace != ""
      ensures GetIn(info, clusterWide, scopes, k.namespace, k.name) == Success(o)
              <==> Holds(scopes, ScopeKey(clusterWide, k.namespace), k, o)
      ensures o in Flatten(parts) <==> Holds(scopes, k.namespace, k, o) || Holds(scopes, "", k, o) {
      ListedWhere(keys, scopes, parts, k, o);
    }
    if clusterWide {
      assert scopes.Keys == {""};
    } else if !NothingExtra(scopes) {
      var k :| k in scopes[""] && k.namespace != "" && !Holds(scopes, k.namespace, k, scopes[""][k]);
      assert KeyedBy(scopes[""][k], k) && Holds(scopes, "", k, scopes[""][k]);
    }
  }

  lemma ListedWhere(keys: seq<string>, scopes: map<string, Cache>, parts: seq<seq<Object>>, k: ObjectKey, o: Object)
    requires Scoped(keys, scopes) && Listing(keys, scopes, parts) && KeyedBy(o, k)
    ensures o in Flatten(parts) <==> Holds(scopes, k.namespace, k, o) || Holds(scopes, "", k, o)
  {
    ListedExactly(keys, scopes, parts, k, o);
    assert o in Flatten(parts) <==> o in multiset(Flatten(parts));
    assert forall s | s in scopes :: s in keys && s in multiset(keys);
  }

  // Without an empty string among the namespaces the caches do not overlap, and
  // agreement is unconditional.
  lemma SeparateScopesAgree(info: ResourceInfo, keys: seq<string>, scopes: map<string, Cache>, parts: seq<seq<Object>>,
                            k: ObjectKey, o: Object)
    requires Scoped(keys, scopes) && Listing(keys, scopes, parts) && "" !in keys
    requires info.scope != SCOPE_CLUSTER && KeyedBy(o, k) && k.namespace != ""
    ensures o in Flatten(parts) <==> GetIn(info, false, scopes, k.namespace, k.name) == Success(o)
  {
    assert "" !in scopes;
    StoreAgreement(info, false, keys, scopes, parts);
  }

  // Store agreement for cluster-scoped resources, whose objects go by name.
  lemma ClusterStoreAgreement(info: ResourceInfo, cache: Cache, parts: seq<seq<Object>>, namespace: string,
                              k: ObjectKey, o: Object)
    requires WellKeyed(cache) && Listing([""], map["" := cache], parts)
    requires info.scope == SCOPE_CLUSTER && KeyedBy(o, k) && k.namespace == ""
    ensures GetIn(info, true, map["" := cache], namespace, k.name) == Success(o) <==> k in cache && cache[k] == o
    ensures multiset(Flatten(parts))[o] == if k in cache && cache[k] == o then 1 else 0
  {
    var scopes: map<string, Cache> := map["" := cache];
    ListedExactly([""], scopes, parts, k, o);
  }

  // --------------------------------------------------------------- the class

  // The scope tables that reading the registry in order leaves behind.
  function WideTable(watch: seq<WatchResource>, rs: seq<ResourceInfo>): map<string, bool>
  {
    if rs == [] then map[]
    else
      var last := rs[|rs| - 1];
      WideTable(watch, rs[..|rs| - 1])[last.name := IsClusterWide(watch, last)]
  }

  function ScopeTable(watch: seq<WatchResource>, rs: seq<ResourceInfo>): map<string, seq<string>>
  {
    if rs == [] then map[]
    else
      var last := rs[|rs| - 1];
      ScopeTable(watch, rs[..|rs| - 1])[last.name := ScopesOf(watch, last)]
  }

  lemma {:induction false} TableEntry(watch: seq<WatchResource>, rs: seq<ResourceInfo>, info: ResourceInfo)
    requires WellDeclared(rs) && info in rs
    ensures info.name in WideTable(watch, rs) && WideTable(watch, rs)[info.name] == IsClusterWide(watch, info)
    ensures info.name in ScopeTable(watch, rs) && ScopeTable(watch, rs)[info.name] == ScopesOf(watch, info)
  {
    var init, last := rs[..|rs| - 1], rs[|rs| - 1];
    assert rs == init + [last];
    if info != last {
      assert info in init;
      var i :| 0 <= i < |init| && init[i] == info;
      assert !Clash(rs[i], rs[|rs| - 1]);
      forall j, k | 0 <= j < k < |init| ensures !Clash(init[j], init[k]) { assert !Clash(rs[j], rs[k]); }
      TableEntry(watch, init, info);
    }
  }

  lemma TableStep(watch: seq<WatchResource>, rs: seq<ResourceInfo>, i: nat)
    requires i < |rs|
    ensures WideTable(watch, rs[..i + 1]) == WideTable(watch, rs[..i])[rs[i].name := IsClusterWide(watch, rs[i])]
    ensures ScopeTable(watch, rs[..i + 1]) == ScopeTable(watch, rs[..i])[rs[i].name := ScopesOf(watch, rs[i])]
  {
    assert rs[..i + 1][..i] == rs[..i];
  }

  // Every resource has one cache for each of its scopes and no other.
  ghost predicate Shaped(namespaces: map<string, seq<string>>, names: set<string>, listers: Listers)
    requires names <= namespaces.Keys
  {
    && listers.Keys == names
    && forall n | n in names :: listers[n].Keys == Members(namespaces[n])
  }

  ghost predicate AllEmpty(listers: Listers)
  {
    forall n, s | n in listers && s in listers[n] :: listers[n][s] == map[]
  }

  // ----------------------------------------- what a declared entry is watched in

  // A namespaced resource is watched in the namespaces of its entry, in their
  // order, if it has any; every other resource cluster-wide. The entry that
  // counts is its own, or the first one before it whose kind is its name.
  lemma DeclaredScopes(watch: seq<WatchResource>, rs: seq<ResourceInfo>, i: nat, j: nat)
    requires Declares(watch, false, rs) && j <= i < |rs|
    requires (j == i || rs[j].kind == rs[i].name) && forall k | 0 <= k < j :: rs[k].kind != rs[i].name
    ensures ScopesOf(watch, rs[i]) ==
      if rs[i].scope == "Namespaced" && watch[j].namespaces != [] then watch[j].namespaces else [""]
    ensures IsClusterWide(watch, rs[i]) <==> rs[i].scope == "Cluster" || watch[j].namespaces == []
  {
    EntriesKept(watch, rs);
    assert forall k | 0 <= k < j :: !Clash(rs[k], rs[i]);
    WatchForFirst(watch, rs[i].name, j);
    DefaultsKeepNamespaces(watch[j]);
  }

  lemma DefaultsKeepNamespaces(r: WatchResource)
    ensures ApplyLegacyDefaults(r).namespaces == r.namespaces
  {
  }

  // So the informers of a resource that no earlier kind shadows keep one cache
  // for each declared namespace, or the one for all namespaces.
  lemma DeclaredCaches(watch: seq<WatchResource>, rs: seq<ResourceInfo>, i: nat, listers: Listers)
    requires Declares(watch, false, rs) && i < |rs| && forall k | 0 <= k < i :: rs[k].kind != rs[i].name
    requires Shaped(ScopeTable(watch, rs), ScopeTable(watch, rs).Keys, listers)
    ensures rs[i].name in listers
    ensures forall s :: s in listers[rs[i].name] <==>
      if rs[i].scope == "Namespaced" && watch[i].namespaces != [] then s in watch[i].namespaces else s == ""
  {
    DeclaredScopes(watch, rs, i, i);
    TableEntry(watch, rs, rs[i]);
  }

  // A read answers exactly what the cache of its scope holds under the key: no
  // namespace for a cluster-scoped resource, else the namespace of the question,
  // which must not be blank.
  lemma DeclaredGet(watch: seq<WatchResource>, rs: seq<ResourceInfo>, i: nat, listers: Listers, namespace: string,
                    name: string, o: Object)
    requires Declares(watch, false, rs) && i < |rs| && forall j | 0 <= j < i :: rs[j].kind != rs[i].name
    requires rs[i].name in listers
    ensures GetFrom(rs, watch, listers, rs[i].name, namespace, name) == Success(o) <==>
      if rs[i].scope == "Cluster" then Holds(listers[rs[i].name], "", ObjectKey("", name), o)
      else namespace != "" && Holds(listers[rs[i].name], if watch[i].namespaces != [] then namespace else "",
                                    ObjectKey(namespace, name), o)
  {
    DeclaredScopes(watch, rs, i, i);
    EntriesKept(watch, rs);
    LookupByName(rs, rs[i]);
  }

  // Why a read answers nothing: there is no cache for its scope, it asks for a
  // namespaced object without a namespace, or the object is not cached.
  lemma DeclaredMiss(watch: seq<WatchResource>, rs: seq<ResourceInfo>, i: nat, listers: Listers, namespace: string,
                     name: string)
    requires Declares(watch, false, rs) && i < |rs| && forall j | 0 <= j < i :: rs[j].kind != rs[i].name
    requires rs[i].name in listers && GetFrom(rs, watch, listers, rs[i].name, namespace, name).Failure?
    ensures var caches := listers[rs[i].name];
      var scope := if rs[i].scope == "Namespaced" && watch[i].namespaces != [] then namespace else "";
      match GetFrom(rs, watch, listers, rs[i].name, namespace, name).error
      case NotWatched => false
      case NoLister => scope !in caches
      case NeedsNamespace => rs[i].scope == "Namespaced" && namespace == ""
      case NotCached =>
        scope in caches && ObjectKey(if rs[i].scope == "Cluster" then "" else namespace, name) !in caches[scope]
  {
    DeclaredScopes(watch, rs, i, i);
    EntriesKept(watch, rs);
    LookupByName(rs, rs[i]);
  }

  // Every object in one of these caches is listed.
  lemma DeclaredListed(watch: seq<WatchResource>, rs: seq<ResourceInfo>, i: nat, listers: Listers,
                       parts: seq<seq<Object>>, scope: string, k: ObjectKey, o: Object)
    requires Declares(watch, false, rs) && i < |rs| && forall j | 0 <= j < i :: rs[j].kind != rs[i].name
    requires rs[i].name in listers && Listing(ScopesOf(watch, rs[i]), listers[rs[i].name], parts)
    requires if rs[i].scope == "Namespaced" && watch[i].namespaces != [] then scope in watch[i].namespaces
             else scope == ""
    requires Holds(listers[rs[i].name], scope, k, o)
    ensures o in Flatten(parts)
  {
    var keys, caches := ScopesOf(watch, rs[i]), listers[rs[i].name];
    DeclaredScopes(watch, rs, i, i);
    var n :| 0 <= n < |keys| && keys[n] == scope;
    assert caches[scope][k] in caches[scope].Values;
    ListsMembers(parts[n], caches[scope].Values);
    FlattenHas(parts, n, o);
  }

  class ScopedInformers {
    const registry: Registry
    const watch: seq<WatchResource>
    var names: seq<string>
    var nameSet: set<string>
    var clusterWide: map<string, bool>
    var namespaces: map<string, seq<string>>
    // One cache per resource and scope, filled by the informers.
    var listers: Listers
    // How often `Get` was called.
    ghost var gets: nat

    ghost predicate Valid()
      reads this, registry
    {
      && registry.Valid()
      && names == NamesOf(registry.resources)
      && clusterWide == WideTable(watch, registry.resources)
      && namespaces == ScopeTable(watch, registry.resources)
      && nameSet == namespaces.Keys
      && Shaped(namespaces, nameSet, listers)
    }

    // `NewScopedInformers`: every cache starts empty.
    constructor (watch: seq<WatchResource>, registry: Registry)
      requires registry.Valid()
      modifies registry`kindToNames
      ensures Valid() && this.registry == registry && this.watch == watch
      ensures AllEmpty(listers)
    {
      ghost var rs := registry.resources;
      var all := NamesOf(registry.resources);
      var known: set<string>, wide: map<string, bool>, scopes: map<string, seq<string>> := {}, map[], map[];
      for i := 0 to |all|
        invariant registry.Valid() && registry.resources == rs
        invariant wide == WideTable(watch, rs[..i])
        invariant scopes == ScopeTable(watch, rs[..i])
        invariant known == scopes.Keys
      {
        var name := all[i];
        LookupByName(rs, rs[i]);
        var found := registry.ResourceFor(name);
        var res := WatchFor(watch, name);
        TableStep(watch, rs, i);
        known := known + {name};
        if found.value.scope == SCOPE_CLUSTER {
          wide := wide[name := true];
          scopes := scopes[name := [""]];
        } else if res.None? || |res.value.namespaces| == 0 {
          wide := wide[name := true];
          scopes := scopes[name := [""]];
        } else {
          wide := wide[name := false];
          scopes := scopes[name := res.value.namespaces];
        }
      }
      assert rs[..|all|] == rs;
      ScopeNames(watch, rs);
      var empty := EmptyListers(all, scopes);
      this.registry, this.watch := registry, watch;
      names, nameSet, clusterWide, namespaces, listers := all, known, wide, scopes, empty;
      gets := 0;
    }

    // What the informers do between reads: the caches hold other objects.
    method Fill(contents: Listers)
      requires Valid() && Shaped(namespaces, nameSet, contents)
      modifies this`listers
      ensures Valid() && listers == contents
    {
      listers := contents;
    }

    // `resourceName`.
    method ResourceName(ref: string) returns (r: Option<string>)
      requires Valid()
      modifies registry`kindToNames
      ensures Valid()
      ensures r == match Lookup(registry.resources, ref) case Success(info) => Some(info.name) case Failure(_) => None
    {
      var found := registry.ResourceFor(ref);
      return if found.Success? then Some(found.value.name) else None;
    }

    method HasKind(ref: string) returns (has: bool)
      requires Valid()
      modifies registry`kindToNames
      ensures Valid()
      ensures has <==>
        Lookup(registry.resources, ref).Success? && Lookup(registry.resources, ref).value.name in nameSet
    {
      var found := registry.ResourceFor(ref);
      if found.Failure? {
        return false;
      }
      var name := ResourceName(ref);
      return name.Some? && name.value in nameSet;
    }

    method Get(ref: string, namespace: string, objectName: string) returns (r: Result<Object, StoreError>)
      requires Valid()
      modifies this`gets, registry`kindToNames
      ensures Valid()
      ensures r == GetFrom(registry.resources, watch, listers, ref, namespace, objectName)
      ensures gets == old(gets) + 1
    {
      gets := gets + 1;
      ghost var rs := registry.resources;
      var found := registry.ResourceFor(ref);
      if found.Failure? {
        return Failure(NotWatched);
      }
      var info := found.value;
      LookupIsWatched(rs, ref);
      LookupByName(rs, info);
      var watched := HasKind(info.name);
      if !watched {
        return Failure(NotWatched);
      }
      TableEntry(watch, rs, info);
      var key := ScopeKey(clusterWide[info.name], namespace);
      if key !in listers[info.name] {
        return Failure(NoLister);
      }
      var lister := listers[info.name][key];
      if info.scope == SCOPE_CLUSTER {
        var k := ObjectKey("", objectName);
        return if k in lister then Success(lister[k]) else Failure(NotCached);
      }
      if namespace == "" {
        return Failure(NeedsNamespace);
      }
      var k := ObjectKey(namespace, objectName);
      return if k in lister then Success(lister[k]) else Failure(NotCached);
    }

    // `ListAll`: the caches of the resource, scope after scope.
    method ListAll(ref: string) returns (out: seq<Object>, ghost parts: seq<seq<Object>>)
      requires Valid() && CachesWellKeyed(listers)
      modifies registry`kindToNames
      ensures Valid()
      ensures out == Flatten(parts)
      ensures match Lookup(registry.resources, ref)
              case Success(info) => info.name in listers && Listing(ScopesOf(watch, info), listers[info.name], parts)
              case Failure(_) => parts == []
    {
      ghost var rs := registry.resources;
      var name := ResourceName(ref);
      if name.None? {
        return [], [];
      }
      ghost var info := Lookup(rs, ref).value;
      LookupIsWatched(rs, ref);
      LookupByName(rs, info);
      TableEntry(watch, rs, info);
      var watched := HasKind(name.value);
      if !watched {
        return [], [];
      }
      out, parts := [], [];
      var keys := namespaces[name.value];
      for i := 0 to |keys|
        invariant Valid() && registry.resources == rs
        invariant out == Flatten(parts)
        invariant Listing(keys[..i], listers[name.value], parts)
      {
        ghost var part: seq<Object> := [];
        if keys[i] in listers[name.value] {
          var items := ListCache(listers[name.value][keys[i]]);
          out := out + items;
          part := items;
        }
        FlattenSnoc(parts, part);
        parts := parts + [part];
        assert keys[..i + 1] == keys[..i] + [keys[i]];
      }
      assert keys[..|keys|] == keys;
    }
  }

  method EmptyCaches(keys: seq<string>) returns (caches: map<string, Cache>)
    ensures caches.Keys == Members(keys)
    ensures forall s | s in caches :: caches[s] == map[]
  {
    caches := map[];
    for j := 0 to |keys|
      invariant caches.Keys == Members(keys[..j])
      invariant forall s | s in caches :: caches[s] == map[]
    {
      caches := caches[keys[j] := map[]];
      assert keys[..j + 1] == keys[..j] + [keys[j]];
    }
    assert keys[..|keys|] == keys;
  }

  method EmptyListers(names: seq<string>, namespaces: map<string, seq<string>>) returns (listers: Listers)
    requires namespaces.Keys == Members(names)
    ensures Shaped(namespaces, namespaces.Keys, listers) && AllEmpty(listers)
  {
    listers := map[];
    for i := 0 to |names|
      invariant listers.Keys == Members(names[..i])
      invariant forall n | n in listers :: n in namespaces && listers[n].Keys == Members(namespaces[n])
      invariant AllEmpty(listers)
    {
      assert names[i] in Members(names);
      var perNamespace := EmptyCaches(namespaces[names[i]]);
      listers := listers[names[i] := perNamespace];
      assert names[..i + 1] == names[..i] + [names[i]];
    }
    assert names[..|names|] == names;
  }

  lemma {:induction false} ScopeNames(watch: seq<WatchResource>, rs: seq<ResourceInfo>)
    ensures ScopeTable(watch, rs).Keys == Members(NamesOf(rs))
  {
    if rs != [] {
      var init, last := rs[..|rs| - 1], rs[|rs| - 1];
      ScopeNames(watch, init);
      assert NamesOf(rs) == NamesOf(init) + [last.name];
    }
  }

  function ValuesOf(cache: Cache, keys: set<ObjectKey>): set<Object>
    requires keys <= cache.Keys
  {
    set k | k in keys :: cache[k]
  }

  lemma OneMoreValue(cache: Cache, keys: set<ObjectKey>, k: ObjectKey)
    requires WellKeyed(cache) && keys <= cache.Keys && k in cache && k !in keys
    ensures cache[k] !in ValuesOf(cache, keys)
    ensures ValuesOf(cache, keys + {k}) == ValuesOf(cache, keys) + {cache[k]}
  {
    assert forall j | j in cache :: KeyedBy(cache[j], j);
  }

  // A lister lists its store in an unspecified order.
  method ListCache(cache: Cache) returns (items: seq<Object>)
    requires WellKeyed(cache)
    ensures Lists(items, cache.Values)
  {
    items := [];
    var todo := cache.Keys;
    while todo != {}
      invariant todo <= cache.Keys
      invariant Lists(items, ValuesOf(cache, cache.Keys - todo))
      decreases todo
    {
      var k :| k in todo;
      OneMoreValue(cache, cache.Keys - todo, k);
      assert cache.Keys - (todo - {k}) == cache.Keys - todo + {k};
      ListsAdd(items, ValuesOf(cache, cache.Keys - todo), cache[k]);
      items := items + [cache[k]];
      todo := todo - {k};
    }
    assert ValuesOf(cache, cache.Keys) == cache.Values;
    assert cache.Keys - {} == cache.Keys;
  }
}
