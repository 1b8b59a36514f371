/** What the informers hold while one synchronization runs, and the requests it gives rise to. */
module Informers {
  import opened Common
  import opened RbacTypes
  import opened SubjectLocator
  import opened Reviewer
  import opened AccessIndex

  datatype Namespace = Namespace(name: string, resourceVersion: string)

  /** namespaceLister.Get: the namespace under that name, NotFound, or some other failure. */
  datatype Lookup = Found(resourceVersion: string) | NotFound | Failed(error: Error)

  /** LastSyncResourceVersion of each reflector. */
  datatype Versions = Versions(
    namespaces: string, clusterRoles: string, clusterRoleBindings: string, roles: string, roleBindings: string)

  /** Every list and lookup the cache makes, fixed for one synchronization. Each may fail on its own,
      and nothing ties them to one another until `Sound` or `Coherent` says so. */
  datatype World = World(
    versions: Versions,
    namespaces: Result<seq<Namespace>, Error>,
    getNamespace: string -> Lookup,
    roles: Result<seq<Role>, Error>,
    roleBindings: Result<seq<Binding>, Error>,
    clusterRoles: Result<seq<Role>, Error>,
    clusterRoleBindings: Result<seq<Binding>, Error>,
    evaluator: Evaluator)

  function NamespaceRequest(ns: Namespace): ReviewRequest {
    ReviewRequest(ns.name, ns.resourceVersion, map[], map[])
  }

  function RoleRequest(role: Role): ReviewRequest {
    ReviewRequest(role.meta.namespace, "", map[role.meta.uid := role.meta.resourceVersion], map[])
  }

  function BindingRequest(b: Binding): ReviewRequest {
    ReviewRequest(b.meta.namespace, "", map[], map[b.meta.uid := b.meta.resourceVersion])
  }

  function NamespaceRequests(w: World): seq<ReviewRequest> {
    match w.namespaces
    case Err(_) => []
    case Ok(items) => seq(|items|, i requires 0 <= i < |items| => NamespaceRequest(items[i]))
  }

  function RoleRequests(w: World): seq<ReviewRequest> {
    match w.roles
    case Err(_) => []
    case Ok(items) => seq(|items|, i requires 0 <= i < |items| => RoleRequest(items[i]))
  }

  function BindingRequests(w: World): seq<ReviewRequest> {
    match w.roleBindings
    case Err(_) => []
    case Ok(items) => seq(|items|, i requires 0 <= i < |items| => BindingRequest(items[i]))
  }

  /** Everything one synchronization asks, in order. */
  function Requests(w: World): seq<ReviewRequest> {
    NamespaceRequests(w) + RoleRequests(w) + BindingRequests(w)
  }

  /** The namespaces a synchronization lists; none when listing fails. */
  function Listed(w: World): set<string> {
    match w.namespaces
    case Err(_) => {}
    case Ok(items) => set ns | ns in items :: ns.name
  }

  /** No namespace, role or binding listing fails, names are unique, and Get agrees with List. */
  ghost predicate Sound(w: World) {
    && w.namespaces.Ok? && w.roles.Ok? && w.roleBindings.Ok?
    && (forall a, b | a in w.namespaces.value && b in w.namespaces.value && a.name == b.name :: a == b)
    && (forall ns | ns in w.namespaces.value :: w.getNamespace(ns.name) == Found(ns.resourceVersion))
    && (forall n | n !in Listed(w) :: w.getNamespace(n) == NotFound)
  }

  /** If namespaces can be listed, their names are unique and Get agrees with List about them. */
  ghost predicate NamesAgree(w: World) {
    w.namespaces.Ok? ==>
      && (forall a, b | a in w.namespaces.value && b in w.namespaces.value && a.name == b.name :: a == b)
      && (forall ns | ns in w.namespaces.value :: w.getNamespace(ns.name) == Found(ns.resourceVersion))
  }

  /** Every listed namespace carries a version. */
  ghost predicate Versioned(w: World) {
    w.namespaces.Ok? ==> forall ns | ns in w.namespaces.value :: |ns.resourceVersion| > 0
  }

  /** Within a namespace, no UID carries two resource versions. */
  ghost predicate UniqueUIDs(w: World) {
    && (w.roles.Ok? ==> forall a, b | a in w.roles.value && b in w.roles.value &&
        a.meta.namespace == b.meta.namespace && a.meta.uid == b.meta.uid ::
         a.meta.resourceVersion == b.meta.resourceVersion)
    && (w.roleBindings.Ok? ==>
        forall a, b | a in w.roleBindings.value && b in w.roleBindings.value && a.meta.namespace == b.meta.namespace &&
        a.meta.uid == b.meta.uid ::
         a.meta.resourceVersion == b.meta.resourceVersion)
  }

  /** Every listed namespace can be reviewed. */
  ghost predicate ReviewsSucceed(w: World) {
    forall n | n in Listed(w) :: Review(w.evaluator, n).Ok?
  }

  /** Every role and binding lives in a listed namespace. */
  ghost predicate ObjectsInListedNamespaces(w: World) {
    && (w.roles.Ok? ==> forall r | r in w.roles.value :: r.meta.namespace in Listed(w))
    && (w.roleBindings.Ok? ==> forall b | b in w.roleBindings.value :: b.meta.namespace in Listed(w))
  }

  lemma RequestsComeFrom(w: World, r: ReviewRequest)
    requires r in Requests(w)
    ensures || (w.namespaces.Ok? && exists ns | ns in w.namespaces.value :: r == NamespaceRequest(ns))
            || (w.roles.Ok? && exists role | role in w.roles.value :: r == RoleRequest(role))
            || (w.roleBindings.Ok? && exists b | b in w.roleBindings.value :: r == BindingRequest(b))
  {
  }

  lemma NamespaceIsRequested(w: World, ns: Namespace)
    requires w.namespaces.Ok? && ns in w.namespaces.value
    ensures NamespaceRequest(ns) in Requests(w)
  {
    var i :| 0 <= i < |w.namespaces.value| && w.namespaces.value[i] == ns;
    assert NamespaceRequests(w)[i] == NamespaceRequest(ns);
    assert NamespaceRequest(ns) in NamespaceRequests(w);
  }

  lemma RoleIsRequested(w: World, role: Role)
    requires w.roles.Ok? && role in w.roles.value
    ensures RoleRequest(role) in Requests(w)
  {
    var i :| 0 <= i < |w.roles.value| && w.roles.value[i] == role;
    assert RoleRequests(w)[i] == RoleRequest(role);
    assert RoleRequest(role) in RoleRequests(w);
  }

  lemma BindingIsRequested(w: World, b: Binding)
    requires w.roleBindings.Ok? && b in w.roleBindings.value
    ensures BindingRequest(b) in Requests(w)
  {
    var i :| 0 <= i < |w.roleBindings.value| && w.roleBindings.value[i] == b;
    assert BindingRequests(w)[i] == BindingRequest(b);
    assert BindingRequest(b) in BindingRequests(w);
  }

  /** Requests from one state of the informers never disagree about an object's version. */
  lemma RequestsAreCompatible(w: World)
    requires UniqueUIDs(w)
    requires w.namespaces.Ok? ==>
        forall a, b | a in w.namespaces.value && b in w.namespaces.value && a.name == b.name :: a == b
    ensures AllCompatible(Requests(w))
  {
    forall a, b | a in Requests(w) && b in Requests(w) && a.namespace == b.namespace ensures Compatible(a, b) {
      RequestsComeFrom(w, a);
      RequestsComeFrom(w, b);
    }
  }

  /** A namespace of that name is listed and not on record, or at a version other than the recorded one. */
  ghost predicate NamespaceIsNews(ix: Index, w: World, n: string) {
    w.namespaces.Ok? && exists ns | ns in w.namespaces.value && ns.name == n ::
        n in ix.reviews ==> ns.resourceVersion !in {"", ix.reviews[n].request.namespaceVersion}
  }

  /** A role in the namespace is listed that its record, if there is one, does not have at that version. */
  ghost predicate RoleIsNews(ix: Index, w: World, n: string) {
    w.roles.Ok? && exists role | role in w.roles.value && role.meta.namespace == n ::
        n in ix.reviews ==> Unrecorded(role.meta, ix.reviews[n].request.roles)
  }

  /** ... or a role binding. */
  ghost predicate BindingIsNews(ix: Index, w: World, n: string) {
    w.roleBindings.Ok? && exists b | b in w.roleBindings.value && b.meta.namespace == n ::
        n in ix.reviews ==> Unrecorded(b.meta, ix.reviews[n].request.bindings)
  }

  /** The object's UID is not recorded, or at another version. */
  predicate Unrecorded(meta: ObjectMeta, versions: map<string, string>) {
    meta.uid !in versions || versions[meta.uid] != meta.resourceVersion
  }

  /** Exactly which news make a synchronization review a namespace. */
  lemma AskedAboutIff(ix: Index, w: World, n: string)
    requires Consistent(ix)
    ensures Triggered(ix, Requests(w), n) <==>
            NamespaceIsNews(ix, w, n) || RoleIsNews(ix, w, n) || BindingIsNews(ix, w, n)
  {
    NewsIsAsked(ix, w, n);
    if Triggered(ix, Requests(w), n) {
      var r :| r in Requests(w) && r.namespace == n && !SkipReview(r, LastKnown(ix.reviews, n));
      RequestsComeFrom(w, r);
      AskedIsNews(ix, w, n, r);
    }
  }

  lemma AskedIsNews(ix: Index, w: World, n: string, r: ReviewRequest)
    requires Consistent(ix) && r.namespace == n && !SkipReview(r, LastKnown(ix.reviews, n))
    ensures w.namespaces.Ok? && (exists ns | ns in w.namespaces.value :: r == NamespaceRequest(ns)) ==>
              NamespaceIsNews(ix, w, n)
    ensures w.roles.Ok? && (exists role | role in w.roles.value :: r == RoleRequest(role)) ==> RoleIsNews(ix, w, n)
    ensures w.roleBindings.Ok? && (exists b | b in w.roleBindings.value :: r == BindingRequest(b)) ==>
              BindingIsNews(ix, w, n)
  {
  }

  lemma NewsIsAsked(ix: Index, w: World, n: string)
    requires Consistent(ix)
    ensures NamespaceIsNews(ix, w, n) || RoleIsNews(ix, w, n) || BindingIsNews(ix, w, n) ==>
              Triggered(ix, Requests(w), n)
  {
    if NamespaceIsNews(ix, w, n) {
      var ns :| ns in w.namespaces.value && ns.name == n &&
        (n in ix.reviews ==> ns.resourceVersion !in {"", ix.reviews[n].request.namespaceVersion});
      NamespaceIsRequested(w, ns);
      assert !SkipReview(NamespaceRequest(ns), LastKnown(ix.reviews, n));
    } else if RoleIsNews(ix, w, n) {
      var role :| role in w.roles.value && role.meta.namespace == n &&
        (n in ix.reviews ==> Unrecorded(role.meta, ix.reviews[n].request.roles));
      RoleIsRequested(w, role);
      assert !SkipReview(RoleRequest(role), LastKnown(ix.reviews, n));
    } else if BindingIsNews(ix, w, n) {
      var b :| b in w.roleBindings.value && b.meta.namespace == n &&
        (n in ix.reviews ==> Unrecorded(b.meta, ix.reviews[n].request.bindings));
      BindingIsRequested(w, b);
      assert !SkipReview(BindingRequest(b), LastKnown(ix.reviews, n));
    }
  }

  // ---- one pass over everything ----------------------------------------------------------------

  /** What a synchronization makes of an index: a pass over all requests, then the purge. */
  function Refresh(ix: Index, w: World): Index {
    Purge(SyncAll(w.evaluator, ix, Requests(w)).index, Listed(w))
  }

  /** After a pass, every listed namespace that can be reviewed has a record, whatever else failed. */
  lemma ListedIsRecorded(ix: Index, w: World, n: string)
    requires n in Listed(w) && Review(w.evaluator, n).Ok?
    ensures n in Refresh(ix, w).reviews
  {
    var ns :| ns in w.namespaces.value && ns.name == n;
    NamespaceIsRequested(w, ns);
    PassEffect(w.evaluator, ix, Requests(w), n);
  }

  /** ... and if it carries a version, the record is at the version the lister finds. */
  lemma ListedIsAtItsVersion(ix: Index, w: World, n: string)
    requires NamesAgree(w) && Versioned(w) && n in Listed(w) && Review(w.evaluator, n).Ok?
    ensures n in Refresh(ix, w).reviews
    ensures w.getNamespace(n) == Found(Refresh(ix, w).reviews[n].request.namespaceVersion)
  {
    var ns :| ns in w.namespaces.value && ns.name == n;
    NamespaceIsRequested(w, ns);
    assert NamespaceRequest(ns).namespace == n && NamespaceRequest(ns).namespaceVersion == ns.resourceVersion;
    forall r | r in Requests(w) && r.namespace == n
        ensures r.namespaceVersion == "" || r.namespaceVersion == ns.resourceVersion {
      RequestsComeFrom(w, r);
    }
    PassRecordsVersion(w.evaluator, ix, Requests(w), n, ns.resourceVersion);
  }

  /** Version coverage: after a pass without errors the record of each listed namespace covers the
      namespace's version and every role and binding listed in it. */
  lemma RefreshCovers(ix: Index, w: World)
    requires Sound(w) && UniqueUIDs(w) && ReviewsSucceed(w)
    ensures forall r | r in Requests(w) && r.namespace in Listed(w) ::
        SkipReview(r, LastKnown(Refresh(ix, w).reviews, r.namespace))
  {
    RequestsAreCompatible(w);
    forall r | r in Requests(w) && r.namespace in Listed(w)
      ensures SkipReview(r, LastKnown(Refresh(ix, w).reviews, r.namespace))
    {
      PassCovers(w.evaluator, ix, Requests(w), r.namespace);
    }
  }

  /** Quiescence: after a pass without errors, a second pass over the same informers makes no review,
      announces nothing, purges nothing and leaves the index as it is. */
  lemma SecondPassIsQuiet(ix: Index, w: World)
    requires Consistent(ix) && Sound(w) && UniqueUIDs(w) && ReviewsSucceed(w) && ObjectsInListedNamespaces(w)
    ensures SyncAll(w.evaluator, Refresh(ix, w), Requests(w)) == Synced(Refresh(ix, w), [])
    ensures Refresh(Refresh(ix, w), w) == Refresh(ix, w)
  {
    var ix1 := Refresh(ix, w);
    RefreshCovers(ix, w);
    forall r | r in Requests(w) ensures SkipReview(r, LastKnown(ix1.reviews, r.namespace)) {
      RequestsComeFrom(w, r);
      assert r.namespace in Listed(w);
    }
    CoveredPassIsQuiet(w.evaluator, ix1, Requests(w));
    SyncAllKeepsConsistent(w.evaluator, ix, Requests(w));
    PurgeKeepsConsistent(SyncAll(w.evaluator, ix, Requests(w)).index, Listed(w));
    assert ix1.reviews.Keys - Listed(w) == {};
    WithoutNothing(ix1);
  }
}
