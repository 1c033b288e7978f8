// The owner-chain walk (pkg/collector/resolver.go).
module Resolvers {
  import opened Wrappers
  import opened Text
  import opened Resources
  import opened Registries
  import opened Objects
  import opened Store

  const MAX_DEPTH := 8

  // What a cache read answers for (resource, namespace, name).
  type Getter = (string, string, string) -> Option<Object>

  datatype Hop = Hop(info: ResourceInfo, obj: Object)

  // ------------------------------------------------------- the parent relation

  // The first reference flagged as controller, else the first one.
  function FindControllerRef(refs: seq<OwnerReference>): (r: Option<OwnerReference>)
    ensures r.None? <==> refs == []
    ensures r.Some? ==> exists i | 0 <= i < |refs| ::
      && r.value == refs[i]
      && (forall j | 0 <= j < i :: refs[j].controller != Some(true))
      && (refs[i].controller == Some(true) || (i == 0 && forall j | 0 <= j < |refs| ::
        refs[j].controller != Some(true)))
  {
    if refs == [] then None
    else if refs[0].controller == Some(true) then Some(refs[0])
    else
      var later := FindControllerRef(refs[1..]);
      if later.Some? && later.value.controller == Some(true) then later else Some(refs[0])
  }

  function ResourceForOwnerRef(rs: seq<ResourceInfo>, ref: OwnerReference): Option<ResourceInfo>
  {
    if ref.apiVersion == "" then
      match Lookup(rs, ref.kind)
      case Success(info) => Some(info)
      case Failure(_) => None
    else
      match ParseGroupVersion(ref.apiVersion)
      case Failure(_) => None
      case Success(gv) => FindGVK(rs, GroupVersionKind(gv.group, gv.version, ref.kind))
  }

  function ResourceForObject(rs: seq<ResourceInfo>, o: Object): Option<ResourceInfo>
  {
    if o.gvk == GroupVersionKind("", "", "") then None else FindGVK(rs, o.gvk)
  }

  // The watched, followed resource that the controller reference of `o` names.
  function ParentResource(rs: seq<ResourceInfo>, o: Object): Option<(ResourceInfo, string)>
  {
    if o.meta.None? then None
    else
      match FindControllerRef(o.meta.value.owners)
      case None => None
      case Some(ref) =>
        match ResourceForOwnerRef(rs, ref)
        case None => None
        case Some(info) => if info.owner.FollowEnabled() then Some((info, ref.name)) else None
  }

  function Parent(rs: seq<ResourceInfo>, get: Getter, o: Object): Option<Hop>
  {
    match ParentResource(rs, o)
    case None => None
    case Some((info, name)) =>
      match get(info.name, o.meta.value.namespace, name)
      case None => None
      case Some(parent) => Some(Hop(info, parent))
  }

  type Next = Object -> Option<Hop>

  function NextOf(rs: seq<ResourceInfo>, get: Getter): Next
  {
    o => Parent(rs, get, o)
  }

  // At most `fuel` steps from an object to the next.
  function Trail(next: Next, o: Object, fuel: nat): seq<Hop>
    decreases fuel
  {
    if fuel == 0 then []
    else
      match next(o)
      case None => []
      case Some(hop) => [hop] + Trail(next, hop.obj, fuel - 1)
  }

  // At most `fuel` hops of the parent walk.
  function Walk(rs: seq<ResourceInfo>, get: Getter, o: Object, fuel: nat): seq<Hop>
  {
    Trail(NextOf(rs, get), o, fuel)
  }

  // The n-th hop of the unbounded parent walk, if the walk gets that far.
  function NthHop(rs: seq<ResourceInfo>, get: Getter, o: Object, n: nat): Option<Hop>
    decreases n
  {
    match Parent(rs, get, o)
    case None => None
    case Some(hop) => if n == 0 then Some(hop) else NthHop(rs, get, hop.obj, n - 1)
  }

  // A bounded walk is exactly the first min(fuel, length) hops of the unbounded
  // one, on any owner graph.
  lemma {:induction false} WalkIsPrefix(rs: seq<ResourceInfo>, get: Getter, o: Object, fuel: nat)
    ensures var w := Walk(rs, get, o, fuel);
      && |w| <= fuel
      && (forall i | 0 <= i < |w| :: NthHop(rs, get, o, i) == Some(w[i]))
      && (|w| < fuel ==> NthHop(rs, get, o, |w|) == None)
    decreases fuel
  {
    if fuel > 0 && Parent(rs, get, o).Some? {
      var hop := Parent(rs, get, o).value;
      WalkIsPrefix(rs, get, hop.obj, fuel - 1);
      var w, rest := Walk(rs, get, o, fuel), Walk(rs, get, hop.obj, fuel - 1);
      forall i | 0 <= i < |w| ensures NthHop(rs, get, o, i) == Some(w[i]) {
        if i > 0 { assert w[i] == rest[i - 1]; }
      }
    }
  }

  // A walk that ends within the bound is the complete walk.
  lemma {:induction false} WalkIsComplete(rs: seq<ResourceInfo>, get: Getter, o: Object, fuel: nat, more: nat)
    requires NthHop(rs, get, o, fuel) == None && fuel <= more
    ensures Walk(rs, get, o, more) == Walk(rs, get, o, fuel)
    decreases fuel
  {
    if Parent(rs, get, o).Some? {
      var hop := Parent(rs, get, o).value;
      if fuel > 0 { WalkIsComplete(rs, get, hop.obj, fuel - 1, more - 1); }
    }
  }

  // ------------------------------------------------- what the next hop is

  // The reference that counts: the first one flagged as controller, else the
  // first of all.
  ghost predicate Controls(o: Object, ref: OwnerReference)
  {
    && o.meta.Some?
    && var owners := o.meta.value.owners;
    && exists i | 0 <= i < |owners| ::
         && owners[i] == ref
         && (forall j | 0 <= j < i :: owners[j].controller != Some(true))
         && (ref.controller == Some(true) || (i == 0 && NoneFlagged(owners)))
  }

  predicate NoneFlagged(refs: seq<OwnerReference>)
  {
    forall j | 0 <= j < |refs| :: refs[j].controller != Some(true)
  }

  // The declaration a reference names: by group, version and kind, or without an
  // apiVersion by name, else by kind if no other has it.
  ghost predicate Refers(rs: seq<ResourceInfo>, ref: OwnerReference, r: ResourceInfo)
  {
    && r in rs
    && if ref.apiVersion != "" then
         && Splits(ref.apiVersion, r.group, r.version)
         && r.version != "" && r.kind != "" && r.kind == ref.kind
       else
         || r.name == ref.kind
         || ((forall x | x in rs :: x.name != ref.kind) && OnlyOfKind(rs, ref.kind, r))
  }

  // The controller reference of an object names a declared resource that is not
  // excluded from following.
  ghost predicate Follow(rs: seq<ResourceInfo>, o: Object, ref: OwnerReference, r: ResourceInfo)
  {
    Controls(o, ref) && Refers(rs, ref, r) && r.owner.follow != Some(false)
  }

  // And the cache holds that object in the namespace of its child.
  ghost predicate IsParent(rs: seq<ResourceInfo>, get: Getter, o: Object, hop: Hop)
  {
    exists ref ::
      Follow(rs, o, ref, hop.info) && get(hop.info.name, o.meta.value.namespace, ref.name) == Some(hop.obj)
  }

  lemma ControlsMeans(o: Object, ref: OwnerReference)
    requires o.meta.Some?
    ensures FindControllerRef(o.meta.value.owners) == Some(ref) <==> Controls(o, ref)
  {
    var owners := o.meta.value.owners;
    var found := FindControllerRef(owners);
    if Controls(o, ref) {
      var i :| 0 <= i < |owners| && owners[i] == ref
        && (forall j | 0 <= j < i :: owners[j].controller != Some(true))
        && (ref.controller == Some(true) || (i == 0 && NoneFlagged(owners)));
      var k :| 0 <= k < |owners| && found.value == owners[k]
        && (forall j | 0 <= j < k :: owners[j].controller != Some(true))
        && (owners[k].controller == Some(true) || (k == 0 && NoneFlagged(owners)));
      assert i == k;
    }
  }

  lemma RefersMeans(rs: seq<ResourceInfo>, ref: OwnerReference, r: ResourceInfo)
    requires WellDeclared(rs)
    ensures ResourceForOwnerRef(rs, ref) == Some(r) <==> Refers(rs, ref, r)
  {
    if ref.apiVersion == "" {
      LookupMeans(rs, ref.kind, r);
    } else {
      ParseGroupVersionMeans(ref.apiVersion, r.group, r.version);
      if ParseGroupVersion(ref.apiVersion).Success? {
        var gv := ParseGroupVersion(ref.apiVersion).value;
        FindGVKIs(rs, GroupVersionKind(gv.group, gv.version, ref.kind), r);
      }
    }
  }

  // The resource of the anchor: the declaration with its group, version and kind.
  lemma AnchorResource(rs: seq<ResourceInfo>, o: Object, r: ResourceInfo)
    requires WellDeclared(rs)
    ensures ResourceForObject(rs, o) == Some(r) <==>
      && r in rs && r.version != "" && r.kind != ""
      && r.group == o.gvk.group && r.version == o.gvk.version && r.kind == o.gvk.kind
  {
    FindGVKIs(rs, o.gvk, r);
  }

  // The cache is read for an object exactly if its controller reference is followed.
  lemma ReadsWhenFollowed(rs: seq<ResourceInfo>, o: Object)
    requires WellDeclared(rs)
    ensures ParentResource(rs, o).Some? <==> exists ref, r :: Follow(rs, o, ref, r)
  {
    forall ref, r ensures Follow(rs, o, ref, r) <==> ParentResource(rs, o) == Some((r, ref.name)) && Controls(o, ref) {
      FollowMeans(rs, o, ref, r);
    }
    if ParentResource(rs, o).Some? {
      var ref := FindControllerRef(o.meta.value.owners).value;
      ControlsMeans(o, ref);
      assert Follow(rs, o, ref, ParentResource(rs, o).value.0);
    }
  }

  lemma FollowMeans(rs: seq<ResourceInfo>, o: Object, ref: OwnerReference, r: ResourceInfo)
    requires WellDeclared(rs)
    ensures Follow(rs, o, ref, r) <==> ParentResource(rs, o) == Some((r, ref.name)) && Controls(o, ref)
  {
    RefersMeans(rs, ref, r);
    if o.meta.Some? { ControlsMeans(o, ref); }
  }

  // There is a next hop exactly if the controller reference is followed and the
  // cache holds the owner, and that owner is the hop.
  lemma ParentMeans(rs: seq<ResourceInfo>, get: Getter, o: Object, hop: Hop)
    requires WellDeclared(rs)
    ensures Parent(rs, get, o) == Some(hop) <==> IsParent(rs, get, o, hop)
  {
    if Parent(rs, get, o) == Some(hop) {
      var ref := FindControllerRef(o.meta.value.owners).value;
      ControlsMeans(o, ref);
      FollowMeans(rs, o, ref, hop.info);
    }
    if IsParent(rs, get, o, hop) {
      var ref :|
        Follow(rs, o, ref, hop.info) && get(hop.info.name, o.meta.value.namespace, ref.name) == Some(hop.obj);
      FollowMeans(rs, o, ref, hop.info);
    }
  }

  // Where the i-th hop of a walk starts.
  function Before(o: Object, w: seq<Hop>, i: nat): Object
    requires i <= |w|
  {
    if i == 0 then o else w[i - 1].obj
  }

  ghost predicate Linked(rs: seq<ResourceInfo>, get: Getter, o: Object, w: seq<Hop>)
  {
    forall i | 0 <= i < |w| :: IsParent(rs, get, Before(o, w, i), w[i])
  }

  // An object without a parent to go to.
  ghost predicate IsLast(rs: seq<ResourceInfo>, get: Getter, o: Object)
  {
    forall hop :: !IsParent(rs, get, o, hop)
  }

  // Each hop of a walk is the parent of the object before it, and a walk shorter
  // than the bound ends where there is no parent.
  lemma WalkLinks(rs: seq<ResourceInfo>, get: Getter, o: Object)
    requires WellDeclared(rs)
    ensures var w := Walk(rs, get, o, MAX_DEPTH);
      && |w| <= 8
      && Linked(rs, get, o, w)
      && (|w| < 8 ==> IsLast(rs, get, Before(o, w, |w|)))
  {
    var next, rel := NextOf(rs, get), ParentsOf(rs, get);
    forall x, hop ensures Ask(next, x) == Some(hop) <==> rel(x, hop) { ParentMeans(rs, get, x, hop); }
    TrailLinks(next, rel, o, MAX_DEPTH);
    var w := Walk(rs, get, o, MAX_DEPTH);
    forall i | 0 <= i < |w| ensures IsParent(rs, get, Before(o, w, i), w[i]) { assert rel(Before(o, w, i), w[i]); }
    if |w| < 8 {
      forall hop ensures !IsParent(rs, get, Before(o, w, |w|), hop) { assert !rel(Before(o, w, |w|), hop); }
    }
  }

  ghost function ParentsOf(rs: seq<ResourceInfo>, get: Getter): (Object, Hop) -> bool
  {
    (o, hop) => IsParent(rs, get, o, hop)
  }

  ghost predicate LinkedBy(rel: (Object, Hop) -> bool, o: Object, w: seq<Hop>)
  {
    forall i | 0 <= i < |w| :: rel(Before(o, w, i), w[i])
  }

  lemma {:induction false} TrailLinks(next: Next, rel: (Object, Hop) -> bool, o: Object, fuel: nat)
    requires forall x, hop :: Ask(next, x) == Some(hop) <==> rel(x, hop)
    ensures var w := Trail(next, o, fuel);
      && |w| <= fuel
      && LinkedBy(rel, o, w)
      && (|w| < fuel ==> forall hop :: !rel(Before(o, w, |w|), hop))
    decreases fuel
  {
    if fuel > 0 {
      assert Ask(next, o) == next(o);
      if next(o).Some? {
        var hop := next(o).value;
        TrailLinks(next, rel, hop.obj, fuel - 1);
        LinksCons(rel, o, hop, Trail(next, hop.obj, fuel - 1));
      }
    }
  }

  lemma LinksCons(rel: (Object, Hop) -> bool, o: Object, hop: Hop, rest: seq<Hop>)
    requires rel(o, hop) && LinkedBy(rel, hop.obj, rest)
    ensures LinkedBy(rel, o, [hop] + rest)
    ensures Before(o, [hop] + rest, |rest| + 1) == Before(hop.obj, rest, |rest|)
  {
    var w := [hop] + rest;
    forall i | 0 < i < |w| ensures rel(Before(o, w, i), w[i]) {
      assert w[i] == rest[i - 1] && Before(o, w, i) == Before(hop.obj, rest, i - 1);
    }
  }

  // --------------------------------------------------------- namespace safety

  // Answers carry no namespace or the namespace of the question.
  ghost predicate KeepsNamespace(get: Getter)
  {
    forall ref, ns, name :: get(ref, ns, name).Some? ==> InNamespace(get(ref, ns, name).value, ns)
  }

  predicate InNamespace(o: Object, ns: string)
  {
    o.meta.Some? && (o.meta.value.namespace == "" || o.meta.value.namespace == ns)
  }

  function StoreGetter(rs: seq<ResourceInfo>, watch: seq<WatchResource>, listers: Listers): Getter
  {
    (ref, ns, name) => match GetFrom(rs, watch, listers, ref, ns, name)
                       case Success(o) => Some(o)
                       case Failure(_) => None
  }

  lemma StoreKeepsNamespace(rs: seq<ResourceInfo>, watch: seq<WatchResource>, listers: Listers)
    requires CachesWellKeyed(listers)
    ensures KeepsNamespace(StoreGetter(rs, watch, listers))
  {
    forall ref, ns, name | GetFrom(rs, watch, listers, ref, ns, name).Success?
      ensures InNamespace(GetFrom(rs, watch, listers, ref, ns, name).value, ns) {
      GetIsKeyed(rs, watch, listers, ref, ns, name);
    }
  }

  function NamespaceOf(o: Object): string
  {
    if o.meta.Some? then o.meta.value.namespace else ""
  }

  // The anchor and the objects reached, in walk order.
  function Visited(o: Object, hops: seq<Hop>): seq<Object>
  {
    [o] + seq(|hops|, i requires 0 <= i < |hops| => hops[i].obj)
  }

  // Each object is in the namespace of every object before it, or in none.
  ghost predicate Confined(path: seq<Object>)
  {
    forall i, j | 0 <= i < j < |path| :: InNamespace(path[j], NamespaceOf(path[i]))
  }

  // The walk never enters a namespace: everything reached is in the anchor's
  // namespace or in none, and after an object in none so is everything else.
  lemma {:induction false} WalkKeepsNamespace(rs: seq<ResourceInfo>, get: Getter, o: Object, fuel: nat)
    requires KeepsNamespace(get)
    ensures Confined(Visited(o, Walk(rs, get, o, fuel)))
    decreases fuel
  {
    if fuel > 0 && Parent(rs, get, o).Some? {
      var hop := Parent(rs, get, o).value;
      var rest := Walk(rs, get, hop.obj, fuel - 1);
      WalkKeepsNamespace(rs, get, hop.obj, fuel - 1);
      ConfinedCons(o, Visited(hop.obj, rest));
      assert Visited(o, [hop] + rest) == [o] + Visited(hop.obj, rest);
    }
  }

  lemma ConfinedCons(o: Object, rest: seq<Object>)
    requires Confined(rest) && rest != [] && InNamespace(rest[0], NamespaceOf(o))
    ensures Confined([o] + rest)
  {
    var path := [o] + rest;
    forall i, j | 0 <= i < j < |path| ensures InNamespace(path[j], NamespaceOf(path[i])) {
      if i > 0 {
        assert InNamespace(rest[j - 1], NamespaceOf(rest[i - 1]));
      } else if j > 1 {
        assert InNamespace(rest[j - 1], NamespaceOf(rest[0]));
      }
    }
  }

  // ------------------------------------------------------------------ the chain

  type Chain = map<string, Object>

  // The kind of a resource that a reference by kind resolves to itself.
  predicate OwnsKind(rs: seq<ResourceInfo>, info: ResourceInfo)
  {
    var byKind := Lookup(rs, info.kind);
    byKind.Success? && byKind.value.name == info.name
  }

  function AddObject(rs: seq<ResourceInfo>, chain: Chain, info: ResourceInfo, o: Object): Chain
  {
    var named := chain[info.name := o];
    var kinded := if OwnsKind(rs, info) then named[info.kind := o] else named;
    if info.owner.topController then kinded["topController" := o] else kinded
  }

  type Writer<!C> = (C, Hop) -> C

  function WriterOf(rs: seq<ResourceInfo>): Writer<Chain>
  {
    (chain: Chain, hop: Hop) => AddObject(rs, chain, hop.info, hop.obj)
  }

  // Writes hop after hop.
  function Fold<C>(write: Writer<C>, c: C, hops: seq<Hop>): C
  {
    if hops == [] then c else write(Fold(write, c, hops[..|hops| - 1]), hops[|hops| - 1])
  }

  function AddHops(rs: seq<ResourceInfo>, chain: Chain, hops: seq<Hop>): Chain
  {
    Fold(WriterOf(rs), chain, hops)
  }

  function StartChain(o: Object): Chain
  {
    var chain := map["anchor" := o];
    if o.meta.Some? && o.kind != "" then chain[o.kind := o] else chain
  }

  // The objects that name keys: the anchor, if its resource is watched, and
  // then every parent reached.
  function Stops(rs: seq<ResourceInfo>, get: Getter, o: Object): seq<Hop>
  {
    if o.meta.None? then []
    else
      (match ResourceForObject(rs, o)
       case Some(info) => [Hop(info, o)]
       case None => [])
      + Walk(rs, get, o, MAX_DEPTH)
  }

  // The chain before the walk.
  function OwnChain(rs: seq<ResourceInfo>, o: Object): Chain
  {
    match ResourceForObject(rs, o)
    case Some(info) => AddObject(rs, StartChain(o), info, o)
    case None => StartChain(o)
  }

  // The anchor's entries, the direct parent, then the parents in walk order.
  function ChainOf(rs: seq<ResourceInfo>, get: Getter, o: Object): Chain
  {
    if o.meta.None? then StartChain(o)
    else WithParents(rs, OwnChain(rs, o), Walk(rs, get, o, MAX_DEPTH))
  }

  function WithParents(rs: seq<ResourceInfo>, own: Chain, hops: seq<Hop>): Chain
  {
    if hops == [] then own else AddHops(rs, own["ownerController" := hops[0].obj], hops)
  }

  // The last occurrence of a resource, and the last flagged one, on a walk.
  function LastOf(hops: seq<Hop>, name: string): Option<Object>
  {
    if hops == [] then None
    else
      var last := hops[|hops| - 1];
      if last.info.name == name then Some(last.obj) else LastOf(hops[..|hops| - 1], name)
  }

  function LastTop(hops: seq<Hop>): Option<Object>
  {
    if hops == [] then None
    else
      var last := hops[|hops| - 1];
      if last.info.owner.topController then Some(last.obj) else LastTop(hops[..|hops| - 1])
  }

  function FirstOf(hops: seq<Hop>, name: string): Option<Object>
  {
    if hops == [] then None
    else if hops[0].info.name == name then Some(hops[0].obj)
    else FirstOf(hops[1..], name)
  }

  function At(chain: Chain, key: string): Option<Object>
  {
    if key in chain then Some(chain[key]) else None
  }

  // No watched resource is called like a built-in source.
  ghost predicate PlainNames(rs: seq<ResourceInfo>)
  {
    forall r | r in rs :: r.name !in BUILTIN_SOURCES && r.kind !in BUILTIN_SOURCES
  }

  // Kinds start with an upper-case letter, so only names can break this.
  lemma DeclaredPlainNames(watch: seq<WatchResource>, rs: seq<ResourceInfo>)
    requires Declares(watch, false, rs)
    ensures PlainNames(rs) <==> forall r | r in rs :: r.name !in BUILTIN_SOURCES
  {
    forall r | r in rs ensures r.kind !in BUILTIN_SOURCES {
      var i :| 0 <= i < |rs| && rs[i] == r;
      NormalizedIdentity(watch[i], false);
      KindIsNotBuiltin(r.kind);
    }
  }

  lemma KindIsNotBuiltin(kind: string)
    requires IsKindName(kind)
    ensures kind !in BUILTIN_SOURCES
  {
    assert IsUpper(kind[0]);
  }

  ghost predicate Watched(rs: seq<ResourceInfo>, hops: seq<Hop>)
  {
    forall i | 0 <= i < |hops| :: hops[i].info in rs
  }

  lemma ParentIsWatched(rs: seq<ResourceInfo>, o: Object)
    requires ParentResource(rs, o).Some?
    ensures ParentResource(rs, o).value.0 in rs
  {
    var ref := FindControllerRef(o.meta.value.owners).value;
    if ref.apiVersion == "" {
      LookupIsWatched(rs, ref.kind);
    } else {
      var gv := ParseGroupVersion(ref.apiVersion).value;
      FindGVKMeans(rs, GroupVersionKind(gv.group, gv.version, ref.kind));
    }
  }

  lemma {:induction false} WalkIsWatched(rs: seq<ResourceInfo>, get: Getter, o: Object, fuel: nat)
    ensures Watched(rs, Walk(rs, get, o, fuel))
    decreases fuel
  {
    if fuel > 0 && Parent(rs, get, o).Some? {
      ParentIsWatched(rs, o);
      WalkIsWatched(rs, get, Parent(rs, get, o).value.obj, fuel - 1);
    }
  }

  // A reference that resolves is written by exactly the hops of its resource.
  lemma WritesResolved(rs: seq<ResourceInfo>, chain: Chain, info: ResourceInfo, o: Object, ref: string)
    requires WellDeclared(rs) && PlainNames(rs) && info in rs && Lookup(rs, ref).Success?
    ensures At(AddObject(rs, chain, info, o), ref) ==
      if Lookup(rs, ref).value.name == info.name then Some(o) else At(chain, ref)
  {
    LookupIsWatched(rs, ref);
    LookupByName(rs, info);
    var target := Lookup(rs, ref).value;
    LookupByName(rs, target);
    assert ref !in BUILTIN_SOURCES;
    if target.name == info.name {
      assert Lookup(rs, target.name) == Lookup(rs, info.name);
      assert target == info;
    }
  }

  lemma {:induction false} AddHopsResolved(rs: seq<ResourceInfo>, chain: Chain, hops: seq<Hop>, ref: string)
    requires WellDeclared(rs) && PlainNames(rs) && Watched(rs, hops) && Lookup(rs, ref).Success?
    ensures At(AddHops(rs, chain, hops), ref) ==
      var last := LastOf(hops, Lookup(rs, ref).value.name);
      if last.Some? then last else At(chain, ref)
    decreases |hops|
  {
    if hops != [] {
      var init, last := hops[..|hops| - 1], hops[|hops| - 1];
      AddHopsResolved(rs, chain, init, ref);
      WritesResolved(rs, AddHops(rs, chain, init), last.info, last.obj, ref);
    }
  }

  lemma AddHopsBuiltin(rs: seq<ResourceInfo>, chain: Chain, hops: seq<Hop>)
    requires PlainNames(rs) && Watched(rs, hops)
    ensures At(AddHops(rs, chain, hops), "anchor") == At(chain, "anchor")
    ensures At(AddHops(rs, chain, hops), "ownerController") == At(chain, "ownerController")
    ensures At(AddHops(rs, chain, hops), "topController") ==
      if LastTop(hops).Some? then LastTop(hops) else At(chain, "topController")
  {
    forall i | 0 <= i < |hops| ensures hops[i].info.name !in BUILTIN_SOURCES { assert hops[i].info in rs; }
    AddHopsPlain(rs, chain, hops, "anchor");
    AddHopsPlain(rs, chain, hops, "ownerController");
    AddHopsPlain(rs, chain, hops, "topController");
  }

  lemma AddHopsPlain(rs: seq<ResourceInfo>, chain: Chain, hops: seq<Hop>, key: string)
    requires PlainNames(rs) && Watched(rs, hops) && key in BUILTIN_SOURCES
    requires forall i | 0 <= i < |hops| :: hops[i].info.name !in BUILTIN_SOURCES
    ensures At(AddHops(rs, chain, hops), key) ==
      if key == "topController" && LastTop(hops).Some? then LastTop(hops) else At(chain, key)
  {
    AddHopsWrite(rs, chain, hops, key);
    LastWriterPlain(hops, key);
  }

  lemma {:induction false} LastOfAppend(a: seq<Hop>, b: seq<Hop>, name: string)
    ensures LastOf(a + b, name) == if LastOf(b, name).Some? then LastOf(b, name) else LastOf(a, name)
    ensures LastTop(a + b) == if LastTop(b).Some? then LastTop(b) else LastTop(a)
    decreases |b|
  {
    if b == [] {
      assert a + b == a;
    } else {
      assert (a + b)[..|a + b| - 1] == a + b[..|b| - 1];
      LastOfAppend(a, b[..|b| - 1], name);
    }
  }

  // The anchor's resource is watched, and its kind stands for no other resource.
  predicate AnchorKnown(rs: seq<ResourceInfo>, o: Object)
  {
    && o.meta.Some?
    && ResourceForObject(rs, o).Some?
    && o.kind !in BUILTIN_SOURCES
    && (Lookup(rs, o.kind).Success? ==> Lookup(rs, o.kind).value == ResourceForObject(rs, o).value)
  }

  // The chain before the parents, with `ownerController` if there is one.
  function BeforeParents(rs: seq<ResourceInfo>, o: Object, info: ResourceInfo, parents: seq<Hop>): Chain
  {
    var own := AddObject(rs, StartChain(o), info, o);
    if parents == [] then own else own["ownerController" := parents[0].obj]
  }

  lemma KnownStops(rs: seq<ResourceInfo>, get: Getter, o: Object) returns (info: ResourceInfo)
    requires AnchorKnown(rs, o)
    ensures ResourceForObject(rs, o) == Some(info) && info in rs
    ensures var parents := Walk(rs, get, o, MAX_DEPTH);
      && Watched(rs, parents)
      && Stops(rs, get, o) == [Hop(info, o)] + parents
      && ChainOf(rs, get, o) == AddHops(rs, BeforeParents(rs, o, info, parents), parents)
  {
    info := ResourceForObject(rs, o).value;
    FindGVKMeans(rs, o.gvk);
    WalkIsWatched(rs, get, o, MAX_DEPTH);
  }

  lemma WritesBuiltin(rs: seq<ResourceInfo>, chain: Chain, info: ResourceInfo, o: Object)
    requires PlainNames(rs) && info in rs
    ensures At(AddObject(rs, chain, info, o), "anchor") == At(chain, "anchor")
    ensures At(AddObject(rs, chain, info, o), "ownerController") == At(chain, "ownerController")
    ensures At(AddObject(rs, chain, info, o), "topController") ==
      if info.owner.topController then Some(o) else At(chain, "topController")
  {
    assert info.name !in BUILTIN_SOURCES && info.kind !in BUILTIN_SOURCES;
  }

  lemma StartBuiltin(o: Object)
    requires o.kind !in BUILTIN_SOURCES
    ensures At(StartChain(o), "anchor") == Some(o)
    ensures At(StartChain(o), "ownerController") == None && At(StartChain(o), "topController") == None
  {
  }

  // `anchor` is the anchor, whether or not its resource is watched.
  lemma AnchorIsItself(rs: seq<ResourceInfo>, get: Getter, o: Object)
    requires PlainNames(rs) && o.kind !in BUILTIN_SOURCES
    ensures At(ChainOf(rs, get, o), "anchor") == Some(o)
  {
    StartBuiltin(o);
    if o.meta.Some? {
      var parents := Walk(rs, get, o, MAX_DEPTH);
      WalkIsWatched(rs, get, o, MAX_DEPTH);
      FindGVKMeans(rs, o.gvk);
      var own := OwnChain(rs, o);
      if ResourceForObject(rs, o).Some? { WritesBuiltin(rs, StartChain(o), ResourceForObject(rs, o).value, o); }
      if parents != [] { AddHopsBuiltin(rs, own["ownerController" := parents[0].obj], parents); }
    }
  }

  lemma AnchorBuiltin(rs: seq<ResourceInfo>, o: Object, info: ResourceInfo, parents: seq<Hop>)
    requires PlainNames(rs) && AnchorKnown(rs, o) && info in rs
    ensures var chain := BeforeParents(rs, o, info, parents);
      && At(chain, "anchor") == Some(o)
      && At(chain, "ownerController") == (if parents == [] then None else Some(parents[0].obj))
      && At(chain, "topController") == LastTop([Hop(info, o)])
  {
    StartBuiltin(o);
    WritesBuiltin(rs, StartChain(o), info, o);
    assert [Hop(info, o)][..0] == [];
  }

  lemma BuiltinMeaning(rs: seq<ResourceInfo>, get: Getter, o: Object)
    requires PlainNames(rs) && AnchorKnown(rs, o)
    ensures var chain, parents := ChainOf(rs, get, o), Walk(rs, get, o, MAX_DEPTH);
      && At(chain, "anchor") == Some(o)
      && At(chain, "ownerController") == (if parents == [] then None else Some(parents[0].obj))
      && At(chain, "topController") == LastTop(Stops(rs, get, o))
  {
    var info := KnownStops(rs, get, o);
    var parents := Walk(rs, get, o, MAX_DEPTH);
    AnchorBuiltin(rs, o, info, parents);
    AddHopsBuiltin(rs, BeforeParents(rs, o, info, parents), parents);
    LastOfAppend([Hop(info, o)], parents, "");
  }

  lemma ReferenceMeaning(rs: seq<ResourceInfo>, get: Getter, o: Object, ref: string)
    requires WellDeclared(rs) && PlainNames(rs) && AnchorKnown(rs, o) && Lookup(rs, ref).Success?
    ensures At(ChainOf(rs, get, o), ref) == LastOf(Stops(rs, get, o), Lookup(rs, ref).value.name)
  {
    var info := KnownStops(rs, get, o);
    var parents := Walk(rs, get, o, MAX_DEPTH);
    AnchorMeaning(rs, o, info, ref);
    AddHopsResolved(rs, BeforeParents(rs, o, info, parents), parents, ref);
    LastOfAppend([Hop(info, o)], parents, Lookup(rs, ref).value.name);
  }

  // What the keys of a chain mean. `ownerController` is the first parent,
  // `topController` the deepest flagged object of the walk, anchor included,
  // and a reference that resolves stands for the last occurrence of its
  // resource, bound exactly when the resource occurs.
  lemma ChainMeaning(rs: seq<ResourceInfo>, get: Getter, o: Object)
    requires WellDeclared(rs) && PlainNames(rs) && AnchorKnown(rs, o)
    ensures var chain, parents := ChainOf(rs, get, o), Walk(rs, get, o, MAX_DEPTH);
      && At(chain, "anchor") == Some(o)
      && At(chain, "ownerController") == (if parents == [] then None else Some(parents[0].obj))
      && At(chain, "topController") == LastTop(Stops(rs, get, o))
    ensures forall ref | Lookup(rs, ref).Success? ::
      At(ChainOf(rs, get, o), ref) == LastOf(Stops(rs, get, o), Lookup(rs, ref).value.name)
  {
    BuiltinMeaning(rs, get, o);
    forall ref | Lookup(rs, ref).Success?
      ensures At(ChainOf(rs, get, o), ref) == LastOf(Stops(rs, get, o), Lookup(rs, ref).value.name) {
      ReferenceMeaning(rs, get, o, ref);
    }
  }

  lemma WritesNothingElse(rs: seq<ResourceInfo>, chain: Chain, info: ResourceInfo, o: Object, key: string)
    requires WellDeclared(rs) && info in rs && Lookup(rs, key).Failure? && key != "topController"
    ensures At(AddObject(rs, chain, info, o), key) == At(chain, key)
  {
    LookupByName(rs, info);
  }

  lemma {:induction false} AddHopsNothingElse(rs: seq<ResourceInfo>, chain: Chain, hops: seq<Hop>, key: string)
    requires WellDeclared(rs) && Watched(rs, hops) && Lookup(rs, key).Failure? && key != "topController"
    ensures At(AddHops(rs, chain, hops), key) == At(chain, key)
    decreases |hops|
  {
    if hops != [] {
      var init, last := hops[..|hops| - 1], hops[|hops| - 1];
      AddHopsNothingElse(rs, chain, init, key);
      WritesNothingElse(rs, AddHops(rs, chain, init), last.info, last.obj, key);
    }
  }

  // A chain has no other keys: one that neither resolves nor is a built-in
  // source is bound only if it is the kind of the anchor, and then to the anchor.
  lemma ChainHasNoOther(rs: seq<ResourceInfo>, get: Getter, o: Object, key: string)
    requires WellDeclared(rs) && AnchorKnown(rs, o)
    requires Lookup(rs, key).Failure? && (key == "item" || key !in BUILTIN_SOURCES)
    ensures At(ChainOf(rs, get, o), key) == if key == o.kind && key != "" then Some(o) else None
  {
    var info := KnownStops(rs, get, o);
    var parents := Walk(rs, get, o, MAX_DEPTH);
    WritesNothingElse(rs, StartChain(o), info, o, key);
    AddHopsNothingElse(rs, BeforeParents(rs, o, info, parents), parents, key);
  }

  lemma AnchorMeaning(rs: seq<ResourceInfo>, o: Object, info: ResourceInfo, ref: string)
    requires WellDeclared(rs) && PlainNames(rs) && AnchorKnown(rs, o) && info in rs
    requires ResourceForObject(rs, o) == Some(info) && Lookup(rs, ref).Success?
    ensures ref != "ownerController"
    ensures At(AddObject(rs, StartChain(o), info, o), ref) == LastOf([Hop(info, o)], Lookup(rs, ref).value.name)
  {
    LookupIsWatched(rs, ref);
    assert ref !in BUILTIN_SOURCES;
    LastOfOne(Hop(info, o), Lookup(rs, ref).value.name);
    WritesResolved(rs, StartChain(o), info, o, ref);
    assert info.name != Lookup(rs, ref).value.name ==> At(StartChain(o), ref) == None;
  }

  lemma LastOfOne(hop: Hop, name: string)
    ensures LastOf([hop], name) == if hop.info.name == name then Some(hop.obj) else None
  {
    assert [hop][..0] == [];
  }

  // ------------------------------------------------- namespaces in the chain

  // Every object a label can read is the anchor, in its namespace, or in none.
  ghost predicate StaysWithin(chain: Chain, o: Object)
  {
    forall k | k in chain :: chain[k] == o || InNamespace(chain[k], NamespaceOf(o))
  }

  lemma {:induction false} AddHopsStayWithin(rs: seq<ResourceInfo>, chain: Chain, hops: seq<Hop>, o: Object)
    requires StaysWithin(chain, o)
    requires forall i | 0 <= i < |hops| :: InNamespace(hops[i].obj, NamespaceOf(o))
    ensures StaysWithin(AddHops(rs, chain, hops), o)
    decreases |hops|
  {
    if hops != [] {
      AddHopsStayWithin(rs, chain, hops[..|hops| - 1], o);
    }
  }

  lemma ChainKeepsNamespace(rs: seq<ResourceInfo>, get: Getter, o: Object)
    requires KeepsNamespace(get)
    ensures StaysWithin(ChainOf(rs, get, o), o)
  {
    if o.meta.Some? {
      var hops := Walk(rs, get, o, MAX_DEPTH);
      var path := Visited(o, hops);
      WalkKeepsNamespace(rs, get, o, MAX_DEPTH);
      forall i | 0 <= i < |hops| ensures InNamespace(hops[i].obj, NamespaceOf(o)) {
        assert path[0] == o && path[i + 1] == hops[i].obj;
      }
      OwnStaysWithin(rs, o);
      ParentsStayWithin(rs, OwnChain(rs, o), hops, o);
    }
  }

  lemma OwnStaysWithin(rs: seq<ResourceInfo>, o: Object)
    ensures StaysWithin(OwnChain(rs, o), o)
  {
  }

  lemma ParentsStayWithin(rs: seq<ResourceInfo>, own: Chain, hops: seq<Hop>, o: Object)
    requires StaysWithin(own, o) && forall i | 0 <= i < |hops| :: InNamespace(hops[i].obj, NamespaceOf(o))
    ensures StaysWithin(WithParents(rs, own, hops), o)
  {
    if hops != [] { AddHopsStayWithin(rs, own["ownerController" := hops[0].obj], hops, o); }
  }

  // ------------------------------------- a resource named like a built-in source

  // The last hop that writes a built-in key: one of a resource of that name, or
  // for `topController` a flagged one.
  predicate WritesKey(hop: Hop, key: string)
  {
    hop.info.name == key || (key == "topController" && hop.info.owner.topController)
  }

  function LastWriter(hops: seq<Hop>, key: string): Option<Object>
  {
    if hops == [] then None
    else
      var last := hops[|hops| - 1];
      if WritesKey(last, key) then Some(last.obj) else LastWriter(hops[..|hops| - 1], key)
  }

  lemma {:induction false} AddHopsWrite(rs: seq<ResourceInfo>, chain: Chain, hops: seq<Hop>, key: string)
    requires Watched(rs, hops) && key in BUILTIN_SOURCES && forall r | r in rs :: r.kind !in BUILTIN_SOURCES
    ensures At(AddHops(rs, chain, hops), key) ==
      if LastWriter(hops, key).Some? then LastWriter(hops, key) else At(chain, key)
    decreases |hops|
  {
    if hops != [] {
      var init, last := hops[..|hops| - 1], hops[|hops| - 1];
      AddHopsWrite(rs, chain, init, key);
      assert last.info in rs;
    }
  }

  // What each built-in source means whatever the resources are called: the last
  // parent that writes it, else what it was before the parents - the first
  // parent for `ownerController`, else the anchor if it writes it itself, and
  // for `anchor` in any case.
  lemma BuiltinAnyNames(rs: seq<ResourceInfo>, get: Getter, o: Object, key: string)
    requires AnchorKnown(rs, o) && key in BUILTIN_SOURCES && forall r | r in rs :: r.kind !in BUILTIN_SOURCES
    ensures var parents, own := Walk(rs, get, o, MAX_DEPTH), Hop(ResourceForObject(rs, o).value, o);
      At(ChainOf(rs, get, o), key) ==
        if LastWriter(parents, key).Some? then LastWriter(parents, key)
        else if key == "ownerController" && parents != [] then Some(parents[0].obj)
        else if WritesKey(own, key) || key == "anchor" then Some(o)
        else None
  {
    var info := KnownStops(rs, get, o);
    var parents := Walk(rs, get, o, MAX_DEPTH);
    OwnKeys(rs, o, info, key);
    AddHopsWrite(rs, BeforeParents(rs, o, info, parents), parents, key);
  }

  lemma OwnKeys(rs: seq<ResourceInfo>, o: Object, info: ResourceInfo, key: string)
    requires o.kind !in BUILTIN_SOURCES && info.kind !in BUILTIN_SOURCES && key in BUILTIN_SOURCES
    ensures At(AddObject(rs, StartChain(o), info, o), key) ==
      if WritesKey(Hop(info, o), key) || key == "anchor" then Some(o) else None
  {
  }

  // Without resources of such names these are the documented meanings.
  lemma {:induction false} LastWriterPlain(hops: seq<Hop>, key: string)
    requires key in BUILTIN_SOURCES && forall i | 0 <= i < |hops| :: hops[i].info.name !in BUILTIN_SOURCES
    ensures LastWriter(hops, key) == if key == "topController" then LastTop(hops) else None
    decreases |hops|
  {
    if hops != [] { LastWriterPlain(hops[..|hops| - 1], key); }
  }

  lemma {:induction false} LastWriterOf(hops: seq<Hop>)
    ensures LastWriter(hops, "ownerController") == LastOf(hops, "ownerController")
    decreases |hops|
  {
    if hops != [] { LastWriterOf(hops[..|hops| - 1]); }
  }

  // What `ownerController` means whatever the resources are called: the last
  // parent of a resource of that name, else the first parent, else the anchor
  // if its own resource has that name.
  lemma OwnerControllerMeaning(rs: seq<ResourceInfo>, get: Getter, o: Object)
    requires AnchorKnown(rs, o) && forall r | r in rs :: r.kind !in BUILTIN_SOURCES
    ensures var parents, taken := Walk(rs, get, o, MAX_DEPTH), LastOf(Walk(rs, get, o, MAX_DEPTH), "ownerController");
      At(ChainOf(rs, get, o), "ownerController") ==
        if taken.Some? then taken
        else if parents != [] then Some(parents[0].obj)
        else if ResourceForObject(rs, o).value.name == "ownerController" then Some(o)
        else None
  {
    BuiltinAnyNames(rs, get, o, "ownerController");
    LastWriterOf(Walk(rs, get, o, MAX_DEPTH));
  }

  // ------------------------------------------- the documented first occurrence

  function OccurrencesOf(hops: seq<Hop>, name: string): nat
  {
    if hops == [] then 0 else (if hops[0].info.name == name then 1 else 0) + OccurrencesOf(hops[1..], name)
  }

  // No object is reached twice under this resource; other objects may repeat.
  ghost predicate NoRepeats(hops: seq<Hop>, name: string)
  {
    forall i, j | 0 <= i < j < |hops| && hops[i].info.name == hops[j].info.name == name :: hops[i].obj != hops[j].obj
  }

  // Documented is the first occurrence, kept is the last. They agree if the
  // resource occurs at most once, on every walk, cyclic ones included; and when
  // the resource repeats no object they agree only then.
  lemma {:induction false} FirstIsLast(hops: seq<Hop>, name: string)
    ensures OccurrencesOf(hops, name) <= 1 ==> FirstOf(hops, name) == LastOf(hops, name)
    ensures NoRepeats(hops, name) ==>
      (FirstOf(hops, name) == LastOf(hops, name) <==> OccurrencesOf(hops, name) <= 1)
  {
    if hops != [] {
      var rest := hops[1..];
      assert hops == [hops[0]] + rest;
      LastOfOne(hops[0], name);
      LastOfAppend([hops[0]], rest, name);
      OccursIffFound(rest, name);
      FirstIsLast(rest, name);
      if NoRepeats(hops, name) {
        forall i, j | 0 <= i < j < |rest| && rest[i].info.name == rest[j].info.name == name
          ensures rest[i].obj != rest[j].obj {
          assert rest[i] == hops[i + 1] && rest[j] == hops[j + 1];
        }
        if hops[0].info.name == name && LastOf(rest, name).Some? {
          var i :| 0 <= i < |rest| && rest[i].info.name == name && rest[i].obj == LastOf(rest, name).value;
          assert hops[i + 1] == rest[i];
        }
      }
    }
  }

  lemma {:induction false} OccursIffFound(hops: seq<Hop>, name: string)
    ensures LastOf(hops, name).Some? <==> OccurrencesOf(hops, name) > 0
    ensures FirstOf(hops, name).Some? <==> OccurrencesOf(hops, name) > 0
    ensures LastOf(hops, name).Some? ==>
      exists i | 0 <= i < |hops| :: hops[i].info.name == name && hops[i].obj == LastOf(hops, name).value
    decreases |hops|
  {
    if hops != [] {
      var rest := hops[1..];
      assert hops == [hops[0]] + rest;
      LastOfOne(hops[0], name);
      LastOfAppend([hops[0]], rest, name);
      OccursIffFound(rest, name);
      if LastOf(rest, name).Some? {
        var i :| 0 <= i < |rest| && rest[i].info.name == name && rest[i].obj == LastOf(rest, name).value;
        assert hops[i + 1] == rest[i];
      } else if hops[0].info.name == name {
        assert hops[0].obj == LastOf(hops, name).value;
      }
    }
  }

  // The positions that these occurrences are at.
  lemma {:induction false} LastOfMeans(hops: seq<Hop>, name: string)
    ensures match LastOf(hops, name)
            case None => forall i | 0 <= i < |hops| :: hops[i].info.name != name
            case Some(o) => exists i | 0 <= i < |hops| ::
              && hops[i].info.name == name && hops[i].obj == o
              && forall j | i < j < |hops| :: hops[j].info.name != name
    ensures match LastTop(hops)
            case None => forall i | 0 <= i < |hops| :: !hops[i].info.owner.topController
            case Some(o) => exists i | 0 <= i < |hops| ::
              && hops[i].info.owner.topController && hops[i].obj == o
              && forall j | i < j < |hops| :: !hops[j].info.owner.topController
    decreases |hops|
  {
    if hops != [] { LastOfMeans(hops[..|hops| - 1], name); }
  }

  lemma {:induction false} FirstOfMeans(hops: seq<Hop>, name: string)
    ensures match FirstOf(hops, name)
            case None => forall i | 0 <= i < |hops| :: hops[i].info.name != name
            case Some(o) => exists i | 0 <= i < |hops| ::
              && hops[i].info.name == name && hops[i].obj == o
              && forall j | 0 <= j < i :: hops[j].info.name != name
    ensures OccurrencesOf(hops, name) == 0 <==> forall i | 0 <= i < |hops| :: hops[i].info.name != name
    ensures OccurrencesOf(hops, name) <= 1 <==>
      !exists i, j | 0 <= i < j < |hops| :: hops[i].info.name == hops[j].info.name == name
  {
    if hops != [] {
      var rest := hops[1..];
      FirstOfMeans(rest, name);
      assert forall i | 0 < i < |hops| :: hops[i] == rest[i - 1];
      if i :| 0 <= i < |rest| && rest[i].info.name == name {
        assert hops[i + 1] == rest[i];
      }
      if i, j :| 0 <= i < j < |rest| && rest[i].info.name == rest[j].info.name == name {
        assert hops[i + 1] == rest[i] && hops[j + 1] == rest[j];
      }
      if i :| 0 <= i < |rest| && rest[i].info.name == name && FirstOf(rest, name) == Some(rest[i].obj)
              && forall j | 0 <= j < i :: rest[j].info.name != name {
        assert hops[i + 1] == rest[i];
      }
    }
  }

  // What a reference stands for is the documented first occurrence whenever its
  // resource occurs at most once, and, if the resource repeats no object, only
  // then.
  lemma DocumentedMeaning(rs: seq<ResourceInfo>, get: Getter, o: Object, ref: string)
    requires WellDeclared(rs) && PlainNames(rs) && AnchorKnown(rs, o) && Lookup(rs, ref).Success?
    ensures var stops, name := Stops(rs, get, o), Lookup(rs, ref).value.name;
      && (OccurrencesOf(stops, name) <= 1 ==> At(ChainOf(rs, get, o), ref) == FirstOf(stops, name))
      && (NoRepeats(stops, name) ==>
            (At(ChainOf(rs, get, o), ref) == FirstOf(stops, name) <==> OccurrencesOf(stops, name) <= 1))
  {
    ReferenceMeaning(rs, get, o, ref);
    FirstIsLast(Stops(rs, get, o), Lookup(rs, ref).value.name);
  }

  // -------------------------------------------------------------- the resolver

  class Resolver {
    const informers: ScopedInformers
    const registry: Registry

    ghost predicate Valid()
      reads this, informers, registry
    {
      informers.registry == registry && informers.Valid()
    }

    constructor (informers: ScopedInformers, registry: Registry)
      requires informers.registry == registry && informers.Valid()
      ensures Valid() && this.informers == informers && this.registry == registry
    {
      this.informers, this.registry := informers, registry;
    }

    ghost function Reads(): Getter
      reads this, informers, registry
    {
      StoreGetter(registry.resources, informers.watch, informers.listers)
    }

    method AddChainObject(chain: Chain, info: ResourceInfo, o: Object) returns (out: Chain)
      requires Valid()
      modifies registry`kindToNames
      ensures Valid()
      ensures out == AddObject(registry.resources, chain, info, o)
    {
      out := chain[info.name := o];
      var byKind := registry.ResourceFor(info.kind);
      if byKind.Success? && byKind.value.name == info.name {
        out := out[info.kind := o];
      }
      if info.owner.topController {
        out := out["topController" := o];
      }
    }

    method OwnerResource(ref: OwnerReference) returns (r: Option<ResourceInfo>)
      requires Valid()
      modifies registry`kindToNames
      ensures Valid()
      ensures r == ResourceForOwnerRef(registry.resources, ref)
    {
      if ref.apiVersion == "" {
        var found := registry.ResourceFor(ref.kind);
        return if found.Success? then Some(found.value) else None;
      }
      var gv := ParseGroupVersion(ref.apiVersion);
      if gv.Failure? {
        return None;
      }
      return registry.ResourceForGVK(GroupVersionKind(gv.value.group, gv.value.version, ref.kind));
    }

    // One turn of the walk: the parent that the cache holds for the controller
    // reference of `o`, if that names a watched resource that is followed.
    method ParentOf(o: Object) returns (hop: Option<Hop>)
      requires Valid()
      modifies informers`gets, registry`kindToNames
      ensures Valid()
      ensures hop == Parent(registry.resources, Reads(), o)
      ensures informers.gets == old(informers.gets) + if ParentResource(registry.resources, o).Some? then 1 else 0
    {
      if o.meta.None? {
        return None;
      }
      var ref := FindControllerRef(o.meta.value.owners);
      if ref.None? {
        return None;
      }
      var info := OwnerResource(ref.value);
      if info.None? || !info.value.owner.FollowEnabled() {
        return None;
      }
      var parent := informers.Get(info.value.name, o.meta.value.namespace, ref.value.name);
      return if parent.Success? then Some(Hop(info.value, parent.value)) else None;
    }

    // `asks`, `next` and `write` are whether a hop reads the cache, what it finds
    // and what it writes. They stand for them in the loop, which needs nothing
    // else of any.
    ghost predicate Follows(asks: Asks, next: Next, write: Writer<Chain>)
      reads this, informers, registry
    {
      && (forall o {:trigger Inquires(asks, o)} :: Inquires(asks, o) <==> ParentResource(registry.resources, o).Some?)
      && (forall o {:trigger Ask(next, o)} :: Ask(next, o) == Parent(registry.resources, Reads(), o))
      && (forall c, hop {:trigger Put(write, c, hop)} ::
            Put(write, c, hop) == AddObject(registry.resources, c, hop.info, hop.obj))
    }

    // One turn of the loop: the parent, if any, is written into the chain.
    method FollowOne(o: Object, first: bool, chain: Chain, ghost asks: Asks, ghost next: Next,
                     ghost write: Writer<Chain>) returns (hop: Option<Hop>, after: Chain)
      requires Valid() && Follows(asks, next, write)
      modifies informers`gets, registry`kindToNames
      ensures Valid() && Follows(asks, next, write)
      ensures hop == next(o) && (hop.Some? ==> asks(o))
      ensures hop.Some? ==> after == write(if first then WithOwner(chain, hop) else chain, hop.value)
      ensures hop.None? ==> after == chain
      ensures informers.gets == old(informers.gets) + if asks(o) then 1 else 0
    {
      assert Ask(next, o) == next(o) && Inquires(asks, o) == asks(o);
      after := chain;
      hop := ParentOf(o);
      if hop.None? {
        return;
      }
      if first {
        after := after["ownerController" := hop.value.obj];
      }
      assert Put(write, after, hop.value) == write(after, hop.value);
      after := AddChainObject(after, hop.value.info, hop.value.obj);
    }

    // The loop of `Resolve`: follows controller references through the cache, at
    // most MAX_DEPTH times, writing into the chain as it goes.
    method FollowOwners(o: Object, own: Chain, ghost asks: Asks, ghost next: Next, ghost write: Writer<Chain>)
      returns (chain: Chain)
      requires Valid() && Follows(asks, next, write)
      modifies informers`gets, registry`kindToNames
      ensures Valid()
      ensures chain == Fold(write, WithOwner(own, next(o)), Trail(next, o, MAX_DEPTH))
      ensures informers.gets == old(informers.gets) + Inquiries(asks, next, o, MAX_DEPTH)
    {
      ghost var whole := Fold(write, WithOwner(own, next(o)), Trail(next, o, MAX_DEPTH));
      ghost var total := informers.gets + Inquiries(asks, next, o, MAX_DEPTH);
      OnwardFolds(next, write, WithOwner(own, next(o)), o, MAX_DEPTH);
      chain := own;
      var current := o;
      var i := 0;
      while i < MAX_DEPTH
        invariant 0 <= i <= MAX_DEPTH
        invariant Valid() && Follows(asks, next, write)
        invariant i == 0 ==> chain == own && current == o
        invariant Onward(next, write, if i == 0 then WithOwner(own, next(o)) else chain, current,
          MAX_DEPTH - i) == whole
        invariant informers.gets + Inquiries(asks, next, current, MAX_DEPTH - i) == total
      {
        ghost var before := if i == 0 then WithOwner(own, next(o)) else chain;
        var hop, after := FollowOne(current, i == 0, chain, asks, next, write);
        TakesHop(asks, next, write, before, current, MAX_DEPTH - i);
        if hop.None? {
          return;
        }
        chain := after;
        current := hop.value.obj;
        i := i + 1;
      }
    }

    // The loop, for the hops that the declarations and the caches give.
    method FollowParents(o: Object, own: Chain) returns (chain: Chain)
      requires Valid()
      modifies informers`gets, registry`kindToNames
      ensures Valid()
      ensures chain == WithParents(registry.resources, own, Walk(registry.resources, Reads(), o, MAX_DEPTH))
      ensures informers.gets == old(informers.gets)
        + Inquiries(AsksOf(registry.resources), NextOf(registry.resources, Reads()), o, MAX_DEPTH)
    {
      ghost var asks, next, write :=
        AsksOf(registry.resources), NextOf(registry.resources, Reads()), WriterOf(registry.resources);
      WalkFolds(registry.resources, Reads(), own, o);
      chain := FollowOwners(o, own, asks, next, write);
    }

    method Resolve(o: Object) returns (chain: Chain)
      requires Valid()
      modifies informers`gets, registry`kindToNames
      ensures Valid()
      ensures chain == ChainOf(registry.resources, Reads(), o)
      ensures informers.gets == old(informers.gets) + ReadsOf(registry.resources, Reads(), o)
    {
      chain := map["anchor" := o];
      if o.meta.None? {
        return;
      }
      if o.kind != "" {
        chain := chain[o.kind := o];
      }
      if o.gvk != GroupVersionKind("", "", "") {
        var info := registry.ResourceForGVK(o.gvk);
        if info.Some? {
          chain := AddChainObject(chain, info.value, o);
        }
      }
      chain := FollowParents(o, chain);
    }
  }

  // ------------------------------------------------------------- the loop's laws

  type Asks = Object -> bool

  // The walk reads the cache at an object whose controller reference names a
  // watched resource that is followed.
  function AsksOf(rs: seq<ResourceInfo>): Asks
  {
    o => ParentResource(rs, o).Some?
  }

  // How often a walk of at most `left` hops reads the cache.
  function Inquiries(asks: Asks, next: Next, o: Object, left: nat): nat
    decreases left
  {
    if left == 0 || !asks(o) then 0
    else
      match next(o)
      case None => 1
      case Some(hop) => 1 + Inquiries(asks, next, hop.obj, left - 1)
  }

  function ReadsOf(rs: seq<ResourceInfo>, get: Getter, o: Object): nat
  {
    if o.meta.None? then 0 else Inquiries(AsksOf(rs), NextOf(rs, get), o, MAX_DEPTH)
  }

  lemma {:induction false} InquiriesBound(asks: Asks, next: Next, o: Object, left: nat)
    requires forall x :: next(x).Some? ==> asks(x)
    ensures |Trail(next, o, left)| <= Inquiries(asks, next, o, left) <= |Trail(next, o, left)| + 1
    ensures Inquiries(asks, next, o, left) <= left
    decreases left
  {
    if left > 0 && next(o).Some? {
      InquiriesBound(asks, next, next(o).value.obj, left - 1);
    }
  }

  // One read per hop, one more if the last one misses, and at most 8 in all.
  lemma ReadsAreBounded(rs: seq<ResourceInfo>, get: Getter, o: Object)
    ensures var hops := Walk(rs, get, o, MAX_DEPTH);
      o.meta.Some? ==> |hops| <= ReadsOf(rs, get, o) <= |hops| + 1
    ensures ReadsOf(rs, get, o) <= 8
  {
    InquiriesBound(AsksOf(rs), NextOf(rs, get), o, MAX_DEPTH);
  }

  // What the rest of a walk from `o` makes of an accumulator.
  function Onward<C>(next: Next, write: Writer<C>, c: C, o: Object, left: nat): C
    decreases left
  {
    if left == 0 then c
    else
      match next(o)
      case None => c
      case Some(hop) => Onward(next, write, write(c, hop), hop.obj, left - 1)
  }

  lemma {:induction false} OnwardFolds<C>(next: Next, write: Writer<C>, c: C, o: Object, left: nat)
    ensures Onward(next, write, c, o, left) == Fold(write, c, Trail(next, o, left))
    decreases left
  {
    if left > 0 && next(o).Some? {
      var hop := next(o).value;
      OnwardFolds(next, write, write(c, hop), hop.obj, left - 1);
      FoldCons(write, c, hop, Trail(next, hop.obj, left - 1));
    }
  }

  lemma {:induction false} FoldCons<C>(write: Writer<C>, c: C, hop: Hop, rest: seq<Hop>)
    ensures Fold(write, c, [hop] + rest) == Fold(write, write(c, hop), rest)
    decreases |rest|
  {
    var hops := [hop] + rest;
    if rest == [] {
      assert hops == [hop] && hops[..0] == [];
    } else {
      FoldCons(write, c, hop, rest[..|rest| - 1]);
      assert hops[..|hops| - 1] == [hop] + rest[..|rest| - 1];
    }
  }

  lemma TakesHop<C>(asks: Asks, next: Next, write: Writer<C>, c: C, current: Object, left: nat)
    requires 0 < left && (next(current).Some? ==> asks(current))
    ensures match next(current)
            case None =>
              && Onward(next, write, c, current, left) == c
              && Inquiries(asks, next, current, left) == if asks(current) then 1 else 0
            case Some(hop) =>
              && Onward(next, write, c, current, left) == Onward(next, write, write(c, hop), hop.obj, left - 1)
              && Inquiries(asks, next, current, left) == 1 + Inquiries(asks, next, hop.obj, left - 1)
  {
  }

  // The chain with `ownerController` set if there is a first hop.
  function WithOwner(own: Chain, first: Option<Hop>): Chain
  {
    match first
    case None => own
    case Some(hop) => own["ownerController" := hop.obj]
  }

  lemma WalkFolds(rs: seq<ResourceInfo>, get: Getter, own: Chain, o: Object)
    ensures Fold(WriterOf(rs), WithOwner(own, NextOf(rs, get)(o)), Trail(NextOf(rs, get), o, MAX_DEPTH))
            == WithParents(rs, own, Walk(rs, get, o, MAX_DEPTH))
  {
  }

  function Inquires(asks: Asks, o: Object): bool
  {
    asks(o)
  }

  function Ask(next: Next, o: Object): Option<Hop>
  {
    next(o)
  }

  function Put<C>(write: Writer<C>, c: C, hop: Hop): C
  {
    write(c, hop)
  }
}
