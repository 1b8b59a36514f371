/** The incremental path against a rebuild from empty stores. */
module Incremental {
  import opened Common
  import opened RbacTypes
  import opened RuleResolver
  import opened SubjectLocator
  import opened Reviewer
  import opened InvertedIndex
  import opened AccessIndex
  import opened Informers
  import opened Synchronization

  // ---- one step --------------------------------------------------------------------------------

  /** Two indexes current for the same informers have the same inverted stores and the same reviewed subjects. */
  lemma CurrentIsUnique(a: Index, b: Index, w: World)
    requires Current(a, w) && Current(b, w)
    ensures SameAnswers(a, b)
  {
    CurrentListings(a.reviews, b.reviews, w);
    InverseIsUnique(a.users, b.users, UsersListed(a.reviews));
    InverseIsUnique(a.groups, b.groups, GroupsListed(a.reviews));
  }

  lemma CurrentListings(a: map<string, ReviewRecord>, b: map<string, ReviewRecord>, w: World)
    requires ReviewsCurrent(a, w) && ReviewsCurrent(b, w)
    ensures UsersListed(a) == UsersListed(b) && GroupsListed(a) == GroupsListed(b)
  {
    assert a.Keys == b.Keys;
  }

  /** What the incremental path has to find on record about a listed namespace: its review, unless there is
      reason to make it again; and nothing at all if it cannot be reviewed, since a failed review does not
      drop a record. */
  ghost predicate OnRecord(ix: Index, w: World, n: string) {
    if Review(w.evaluator, n).Ok? then
      !Triggered(ix, Requests(w), n) ==> n in ix.reviews && Shows(ix.reviews[n], w.evaluator, n)
    else
      n !in ix.reviews
  }

  /** Exactly when the incremental path does as well as a rebuild, whatever reviews fail. */
  lemma IncrementalIsCurrentIff(ix: Index, w: World)
    requires Consistent(ix)
    ensures Current(Refresh(ix, w), w) <==> forall n | n in Listed(w) :: OnRecord(ix, w, n)
  {
    RefreshKeepsConsistent(ix, w);
    forall n { RefreshShows(ix, w, n); }
    CurrentIffEachShows(ix, w, Refresh(ix, w).reviews);
  }

  lemma CurrentIffEachShows(ix: Index, w: World, reviews: map<string, ReviewRecord>)
    requires forall n :: ShowsRightly(reviews, w, n) <==> (n in Listed(w) ==> OnRecord(ix, w, n))
    ensures ReviewsCurrent(reviews, w) <==> forall n | n in Listed(w) :: OnRecord(ix, w, n)
  {
    assert ReviewsCurrent(reviews, w) <==> forall n :: ShowsRightly(reviews, w, n);
  }

  ghost predicate ShowsRightly(reviews: map<string, ReviewRecord>, w: World, n: string) {
    && (n in reviews <==> n in Listed(w) && Review(w.evaluator, n).Ok?)
    && (n in reviews ==> Shows(reviews[n], w.evaluator, n))
  }

  lemma RefreshShows(ix: Index, w: World, n: string)
    ensures ShowsRightly(Refresh(ix, w).reviews, w, n) <==> (n in Listed(w) ==> OnRecord(ix, w, n))
  {
    if n in Listed(w) {
      PassEffect(w.evaluator, ix, Requests(w), n);
      if n !in ix.reviews {
        ListedIsTriggered(ix, w, n);
      }
    }
  }

  lemma RefreshKeepsConsistent(ix: Index, w: World)
    requires Consistent(ix)
    ensures Consistent(Refresh(ix, w))
  {
    SyncAllKeepsConsistent(w.evaluator, ix, Requests(w));
    PurgeKeepsConsistent(SyncAll(w.evaluator, ix, Requests(w)).index, Listed(w));
  }

  ghost predicate Refreshed(ix: Index, w: World, n: string) {
    && n in Refresh(ix, w).reviews
    && (Triggered(ix, Requests(w), n) ==> Shows(Refresh(ix, w).reviews[n], w.evaluator, n))
    && (!Triggered(ix, Requests(w), n) ==> n in ix.reviews && Refresh(ix, w).reviews[n] == ix.reviews[n])
  }

  lemma RefreshOutcome(ix: Index, w: World, n: string)
    requires n in Listed(w) && Review(w.evaluator, n).Ok?
    ensures Refreshed(ix, w, n)
  {
    PassEffect(w.evaluator, ix, Requests(w), n);
    if n !in ix.reviews {
      ListedIsTriggered(ix, w, n);
    }
  }

  // ---- what a review depends on ----------------------------------------------------------------

  /** The policy is read from the same objects the cache lists, by namespace and name. */
  ghost predicate Coherent(w: World) {
    var p := w.evaluator.policy;
    && w.roles.Ok? && w.roleBindings.Ok?
    && (forall a, b | a in w.roles.value && b in w.roles.value && a.meta.namespace == b.meta.namespace &&
        a.meta.name == b.meta.name :: a == b)
    && (forall ns, n :: p.getRole(ns, n).Ok? ==> p.getRole(ns, n).value in w.roles.value)
    && (forall ns, n :: p.getRole(ns, n).Ok? ==>
        p.getRole(ns, n).value.meta.namespace == ns && p.getRole(ns, n).value.meta.name == n)
    && (forall r | r in w.roles.value :: p.getRole(r.meta.namespace, r.meta.name).Ok?)
    && (forall ns :: p.listRoleBindings(ns).Ok?)
    && (forall ns ::
          Elements(p.listRoleBindings(ns).value) == set b | b in w.roleBindings.value && b.meta.namespace == ns)
  }

  ghost predicate SameRules(a: Result<Role, Error>, b: Result<Role, Error>) {
    a.Ok? == b.Ok? && (a.Ok? ==> a.value.rules == b.value.rules)
  }

  /** Cluster roles and cluster bindings (in whatever order listed) are unchanged, and so is the superuser. */
  ghost predicate SameCluster(w: World, w': World) {
    var p, p' := w.evaluator.policy, w'.evaluator.policy;
    && w.evaluator.superUser == w'.evaluator.superUser
    && (forall n :: SameRules(p.getClusterRole(n), p'.getClusterRole(n)))
    && (forall n :: SameRules(p.getRole("", n), p'.getRole("", n)))
    && p.listClusterRoleBindings.Ok? && p'.listClusterRoleBindings.Ok?
    && Elements(p.listClusterRoleBindings.value) == Elements(p'.listClusterRoleBindings.value)
  }

  function RolesIn(w: World, n: string): set<Role> {
    if w.roles.Err? then {} else set r | r in w.roles.value && r.meta.namespace == n
  }

  function BindingsIn(w: World, n: string): set<Binding> {
    if w.roleBindings.Err? then {} else set b | b in w.roleBindings.value && b.meta.namespace == n
  }

  lemma SameRolesResolve(w: World, w': World, n: string, name: string)
    requires Coherent(w) && Coherent(w') && RolesIn(w, n) == RolesIn(w', n)
    ensures SameRules(w.evaluator.policy.getRole(n, name), w'.evaluator.policy.getRole(n, name))
  {
    var a, b := w.evaluator.policy.getRole(n, name), w'.evaluator.policy.getRole(n, name);
    if a.Ok? {
      assert a.value in RolesIn(w, n);
      assert a.value in w'.roles.value;
    }
    if b.Ok? {
      assert b.value in RolesIn(w', n);
      assert b.value in w.roles.value;
    }
  }

  lemma SameBindingAllows(w: World, w': World, b: Binding, n: string, a: Attributes)
    requires SameCluster(w, w')
    requires n == "" || (Coherent(w) && Coherent(w') && RolesIn(w, n) == RolesIn(w', n))
    ensures BindingAllows(w.evaluator.policy, b, n, a) <==> BindingAllows(w'.evaluator.policy, b, n, a)
  {
    var p, p' := w.evaluator.policy, w'.evaluator.policy;
    assert SameRules(p.getClusterRole(b.roleRef.name), p'.getClusterRole(b.roleRef.name));
    if n == "" {
      assert SameRules(p.getRole("", b.roleRef.name), p'.getRole("", b.roleRef.name));
    } else {
      SameRolesResolve(w, w', n, b.roleRef.name);
    }
  }

  /** A review of `n` depends on the cluster's roles and bindings and on the roles and bindings in `n`, nothing else. */
  lemma SameObjectsSameReview(w: World, w': World, n: string)
    requires Coherent(w) && Coherent(w') && SameCluster(w, w')
    requires RolesIn(w, n) == RolesIn(w', n) && BindingsIn(w, n) == BindingsIn(w', n)
    ensures ReviewedUsers(w.evaluator, n) == ReviewedUsers(w'.evaluator, n)
    ensures ReviewedGroups(w.evaluator, n) == ReviewedGroups(w'.evaluator, n)
  {
    var a := Action(n);
    forall s ensures s in Subjects(w.evaluator, a) <==> s in Subjects(w'.evaluator, a) {
      SameNames(w, w', n, s);
      PolicySubjectsContains(w.evaluator.policy, a, s);
      PolicySubjectsContains(w'.evaluator.policy, a, s);
    }
    forall u ensures u in ReviewedUsers(w.evaluator, n) <==> u in ReviewedUsers(w'.evaluator, n) {
      FlatUsersContains(Subjects(w.evaluator, a), n, u);
      FlatUsersContains(Subjects(w'.evaluator, a), n, u);
    }
    forall g ensures g in ReviewedGroups(w.evaluator, n) <==> g in ReviewedGroups(w'.evaluator, n) {
      FlatGroupsContains(Subjects(w.evaluator, a), g);
      FlatGroupsContains(Subjects(w'.evaluator, a), g);
    }
  }

  lemma SameNames(w: World, w': World, n: string, s: Subject)
    requires Coherent(w) && Coherent(w') && SameCluster(w, w')
    requires RolesIn(w, n) == RolesIn(w', n) && BindingsIn(w, n) == BindingsIn(w', n)
    ensures ClusterNames(w.evaluator.policy, Action(n), s) <==> ClusterNames(w'.evaluator.policy, Action(n), s)
    ensures NamespaceNames(w.evaluator.policy, Action(n), s) <==> NamespaceNames(w'.evaluator.policy, Action(n), s)
  {
    var p, p', a := w.evaluator.policy, w'.evaluator.policy, Action(n);
    forall b: Binding
      ensures BindingAllows(p, b, "", a) <==> BindingAllows(p', b, "", a)
      ensures BindingAllows(p, b, n, a) <==> BindingAllows(p', b, n, a)
    {
      SameBindingAllows(w, w', b, "", a);
      SameBindingAllows(w, w', b, n, a);
    }
    SameElements(p.listClusterRoleBindings.value, p'.listClusterRoleBindings.value);
    assert Elements(p.listRoleBindings(n).value) == BindingsIn(w, n);
    assert Elements(p'.listRoleBindings(n).value) == BindingsIn(w', n);
    SameElements(p.listRoleBindings(n).value, p'.listRoleBindings(n).value);
  }

  lemma SameElements<T>(a: seq<T>, b: seq<T>)
    requires Elements(a) == Elements(b)
    ensures forall x :: x in a <==> x in b
  {
    assert forall x :: x in a <==> x in Elements(a);
    assert forall x :: x in b <==> x in Elements(b);
  }

  // ---- where a record's versions come from -----------------------------------------------------

  ghost predicate FromRoles(versions: map<string, string>, roles: set<Role>) {
    forall uid | uid in versions :: exists r | r in roles ::
        r.meta.uid == uid && r.meta.resourceVersion == versions[uid]
  }

  ghost predicate FromBindings(versions: map<string, string>, bindings: set<Binding>) {
    forall uid | uid in versions :: exists b | b in bindings ::
        b.meta.uid == uid && b.meta.resourceVersion == versions[uid]
  }

  /** Every version on the record of `n` was seen on an object of `roles` or `bindings`. */
  ghost predicate Sourced(reviews: map<string, ReviewRecord>, n: string, roles: set<Role>, bindings: set<Binding>) {
    n in reviews ==> FromRoles(reviews[n].request.roles, roles) && FromBindings(reviews[n].request.bindings, bindings)
  }

  lemma {:induction false} PassIsSourced(e: Evaluator, ix: Index, requests: seq<ReviewRequest>, n: string,
      roles: set<Role>, bindings: set<Binding>)
    requires Sourced(ix.reviews, n, roles, bindings)
    requires forall r | r in requests && r.namespace == n ::
        FromRoles(r.roles, roles) && FromBindings(r.bindings, bindings)
    ensures Sourced(SyncAll(e, ix, requests).index.reviews, n, roles, bindings)
  {
    if requests != [] {
      var init, last := requests[..|requests| - 1], requests[|requests| - 1];
      assert last in requests && forall r | r in init :: r in requests;
      PassIsSourced(e, ix, init, n, roles, bindings);
      RequestStaysSourced(e, SyncAll(e, ix, init).index, last, n, roles, bindings);
    }
  }

  lemma RequestStaysSourced(e: Evaluator, ix: Index, request: ReviewRequest, n: string, roles: set<Role>,
      bindings: set<Binding>)
    requires Sourced(ix.reviews, n, roles, bindings)
    requires request.namespace == n ==> FromRoles(request.roles, roles) && FromBindings(request.bindings, bindings)
    ensures Sourced(SyncRequest(e, ix, request).index.reviews, n, roles, bindings)
  {
    RequestRecord(e, ix, request);
    if request.namespace == n {
      MergeIsSourced(request, LastKnown(ix.reviews, n), roles, bindings);
    }
  }

  /** A request leaves the records as they are or merges into its own. */
  lemma RequestRecord(e: Evaluator, ix: Index, request: ReviewRequest)
    ensures var n, reviews := request.namespace, SyncRequest(e, ix, request).index.reviews;
      reviews == ix.reviews || exists users, groups ::
          reviews == ix.reviews[n := Merge(request, LastKnown(ix.reviews, n), users, groups)]
  {
  }

  lemma MergeIsSourced(request: ReviewRequest, known: Option<ReviewRecord>, roles: set<Role>, bindings: set<Binding>)
    requires FromRoles(request.roles, roles) && FromBindings(request.bindings, bindings)
    requires known.Some? ==>
               FromRoles(known.value.request.roles, roles) && FromBindings(known.value.request.bindings, bindings)
    ensures forall users, groups :: var merged := Merge(request, known, users, groups).request;
              FromRoles(merged.roles, roles) && FromBindings(merged.bindings, bindings)
  {
    var kept := if known.Some? then known.value.request else ReviewRequest("", "", map[], map[]);
    MergedVersionsAreSourced(kept, request, roles, bindings);
  }

  lemma MergedVersionsAreSourced(a: ReviewRequest, b: ReviewRequest, roles: set<Role>, bindings: set<Binding>)
    requires FromRoles(a.roles, roles) && FromBindings(a.bindings, bindings)
    requires FromRoles(b.roles, roles) && FromBindings(b.bindings, bindings)
    ensures FromRoles(a.roles + b.roles, roles) && FromBindings(a.bindings + b.bindings, bindings)
  {
  }

  // ---- whole runs ------------------------------------------------------------------------------

  /** The index after a rebuild on the first world and an incremental pass on each later one. */
  ghost function IndexAfter(worlds: seq<World>): Index
    requires worlds != []
  {
    if |worlds| == 1 then Refresh(EMPTY_INDEX, worlds[0])
    else Refresh(IndexAfter(worlds[..|worlds| - 1]), worlds[|worlds| - 1])
  }

  /** Every role ever listed in `n` along the run. */
  ghost function RolesSeen(worlds: seq<World>, n: string): set<Role> {
    set i, r | 0 <= i < |worlds| && r in RolesIn(worlds[i], n) :: r
  }

  ghost function BindingsSeen(worlds: seq<World>, n: string): set<Binding> {
    set i, b | 0 <= i < |worlds| && b in BindingsIn(worlds[i], n) :: b
  }

  /** Each state of the informers on its own: listings and reviews work, agree with each other, and
      every object carries a version. */
  ghost predicate WellFormed(w: World) {
    && Sound(w) && UniqueUIDs(w) && ReviewsSucceed(w) && Coherent(w)
    && (forall ns | ns in w.namespaces.value :: |ns.resourceVersion| > 0)
  }

  /** UID and resource version determine content. */
  ghost predicate VersionsDetermineContent(w: World, w': World) {
    && (forall n, a, b | a in RolesIn(w, n) && b in RolesIn(w', n) && a.meta.uid == b.meta.uid &&
        a.meta.resourceVersion == b.meta.resourceVersion :: a == b)
    && (forall n, a, b | a in BindingsIn(w, n) && b in BindingsIn(w', n) && a.meta.uid == b.meta.uid &&
        a.meta.resourceVersion == b.meta.resourceVersion :: a == b)
  }

  /** Something in `n`, the namespace included, is there in a version `w` did not have. */
  ghost predicate NewVersionIn(w: World, w': World, n: string) {
    || w.getNamespace(n) != w'.getNamespace(n)
    || !(RolesIn(w', n) <= RolesIn(w, n))
    || !(BindingsIn(w', n) <= BindingsIn(w, n))
  }

  /** A namespace that lost a role or binding also has something in a new version. */
  ghost predicate LossesShow(w: World, w': World) {
    forall n | n in Listed(w) && n in Listed(w') ::
      (RolesIn(w, n) <= RolesIn(w', n) && BindingsIn(w, n) <= BindingsIn(w', n)) || NewVersionIn(w, w', n)
  }

  /** A run the incremental path can follow: cluster policy unchanged, versions determine content, losses
      show, and an object version that is gone does not come back. */
  ghost predicate Followable(worlds: seq<World>) {
    AllWellFormed(worlds) && AllCompare(worlds) && LossesAllShow(worlds) && AllStayGone(worlds)
  }

  ghost predicate AllWellFormed(worlds: seq<World>) {
    forall w | w in worlds :: WellFormed(w)
  }

  ghost predicate AllCompare(worlds: seq<World>) {
    forall w, w' | w in worlds && w' in worlds :: Comparable(w, w')
  }

  ghost predicate Comparable(w: World, w': World) {
    SameCluster(w, w') && VersionsDetermineContent(w, w')
  }

  ghost predicate LossesAllShow(worlds: seq<World>) {
    forall i, j | 0 <= i < j < |worlds| && j == i + 1 :: LossesShow(worlds[i], worlds[j])
  }

  ghost predicate AllStayGone(worlds: seq<World>) {
    forall i, j, k | 0 <= i < j < k < |worlds| :: StaysGone(worlds[i], worlds[j], worlds[k])
  }

  /** What is in the first and the third state was there in between. */
  ghost predicate StaysGone(first: World, second: World, third: World) {
    forall n ::
      && RolesIn(first, n) * RolesIn(third, n) <= RolesIn(second, n)
      && BindingsIn(first, n) * BindingsIn(third, n) <= BindingsIn(second, n)
  }

  lemma FollowablePrefix(worlds: seq<World>)
    requires Followable(worlds) && |worlds| > 1
    ensures Followable(worlds[..|worlds| - 1])
  {
    var init := worlds[..|worlds| - 1];
    assert forall w | w in init :: w in worlds;
    forall i, j | 0 <= i < j < |init| && j == i + 1 ensures LossesShow(init[i], init[j]) {
      assert LossesShow(worlds[i], worlds[j]);
    }
    forall i, j, k | 0 <= i < j < k < |init| ensures StaysGone(init[i], init[j], init[k]) {
      assert StaysGone(worlds[i], worlds[j], worlds[k]);
    }
  }

  /** What the records remember, after any run: only versions the run has shown. */
  lemma {:induction false} RecordsAreSourced(worlds: seq<World>, n: string)
    requires worlds != []
    ensures Sourced(IndexAfter(worlds).reviews, n, RolesSeen(worlds, n), BindingsSeen(worlds, n))
  {
    var last := worlds[|worlds| - 1];
    var start := if |worlds| == 1 then EMPTY_INDEX else IndexAfter(worlds[..|worlds| - 1]);
    if |worlds| > 1 {
      var init := worlds[..|worlds| - 1];
      RecordsAreSourced(init, n);
      SeenGrows(worlds, n);
      assert Sourced(start.reviews, n, RolesSeen(worlds, n), BindingsSeen(worlds, n));
    }
    forall r | r in Requests(last) && r.namespace == n
      ensures FromRoles(r.roles, RolesSeen(worlds, n)) && FromBindings(r.bindings, BindingsSeen(worlds, n))
    {
      SeenGrows(worlds, n);
      RequestIsSourced(last, r);
    }
    PassIsSourced(last.evaluator, start, Requests(last), n, RolesSeen(worlds, n), BindingsSeen(worlds, n));
  }

  lemma SeenGrows(worlds: seq<World>, n: string)
    requires worlds != []
    ensures RolesSeen(worlds[..|worlds| - 1], n) <= RolesSeen(worlds, n)
    ensures BindingsSeen(worlds[..|worlds| - 1], n) <= BindingsSeen(worlds, n)
    ensures RolesIn(worlds[|worlds| - 1], n) <= RolesSeen(worlds, n)
    ensures BindingsIn(worlds[|worlds| - 1], n) <= BindingsSeen(worlds, n)
  {
    var init := worlds[..|worlds| - 1];
    forall r | r in RolesSeen(init, n) ensures r in RolesSeen(worlds, n) {
      var i :| 0 <= i < |init| && r in RolesIn(init[i], n);
      assert r in RolesIn(worlds[i], n);
    }
    forall b | b in BindingsSeen(init, n) ensures b in BindingsSeen(worlds, n) {
      var i :| 0 <= i < |init| && b in BindingsIn(init[i], n);
      assert b in BindingsIn(worlds[i], n);
    }
  }

  lemma RequestIsSourced(w: World, r: ReviewRequest)
    requires r in Requests(w)
    ensures FromRoles(r.roles, RolesIn(w, r.namespace)) && FromBindings(r.bindings, BindingsIn(w, r.namespace))
  {
    RequestsComeFrom(w, r);
  }

  /** Incremental refines rebuild: along a followable run the incremental path keeps the index current. */
  lemma {:induction false} IncrementalStaysCurrent(worlds: seq<World>, ix: Index, w: World)
    requires worlds != [] && Followable(worlds)
    requires ix == IndexAfter(worlds) && w == worlds[|worlds| - 1]
    ensures Current(ix, w)
    decreases |worlds|
  {
    if |worlds| == 1 {
      RebuildIsCurrent(w);
    } else {
      var init := worlds[..|worlds| - 1];
      var before := IndexAfter(init);
      FollowablePrefix(worlds);
      IncrementalStaysCurrent(init, before, init[|init| - 1]);
      LastPair(worlds);
      forall n | n in Listed(w) ensures OnRecord(before, w, n) {
        if !Triggered(before, Requests(w), n) {
          UntriggeredIsUnchanged(worlds, n);
        }
      }
      IncrementalIsCurrentIff(before, w);
    }
  }

  /** The same inverted stores and the same reviewed subjects. */
  ghost predicate SameAnswers(a: Index, b: Index) {
    && a.users == b.users && a.groups == b.groups
    && UsersListed(a.reviews) == UsersListed(b.reviews) && GroupsListed(a.reviews) == GroupsListed(b.reviews)
  }

  lemma CurrentAnswersAsRebuilt(ix: Index, w: World)
    requires Current(ix, w)
    ensures SameAnswers(ix, Refresh(EMPTY_INDEX, w))
  {
    RebuildIsCurrent(w);
    CurrentIsUnique(ix, Refresh(EMPTY_INDEX, w), w);
  }

  /** The heart of the refinement: a namespace the last pass sees no reason to review has exactly the
      roles and bindings it had the time before, so its record still shows its review. */
  lemma UntriggeredIsUnchanged(worlds: seq<World>, n: string)
    requires |worlds| > 1 && Followable(worlds)
    requires ReviewsCurrent(IndexAfter(worlds[..|worlds| - 1]).reviews, worlds[|worlds| - 2])
    requires n in Listed(worlds[|worlds| - 1])
    requires !Triggered(IndexAfter(worlds[..|worlds| - 1]), Requests(worlds[|worlds| - 1]), n)
    ensures n in IndexAfter(worlds[..|worlds| - 1]).reviews
    ensures Shows(IndexAfter(worlds[..|worlds| - 1]).reviews[n], worlds[|worlds| - 1].evaluator, n)
  {
    var reviews, w, w' := IndexAfter(worlds[..|worlds| - 1]).reviews, worlds[|worlds| - 2], worlds[|worlds| - 1];
    if n !in reviews {
      ListedIsTriggered(IndexAfter(worlds[..|worlds| - 1]), w', n);
    }
    assert n in Listed(w);
    NothingNew(worlds, n);
    LastPair(worlds);
    NothingNewShows(reviews, w, w', n);
  }

  /** What a followable run says of its last step. */
  lemma LastPair(worlds: seq<World>)
    requires |worlds| > 1 && Followable(worlds)
    ensures var w, w' := worlds[|worlds| - 2], worlds[|worlds| - 1];
      WellFormed(w) && WellFormed(w') && Comparable(w, w') && LossesShow(w, w')
  {
    var k := |worlds| - 1;
    assert worlds[k - 1] in worlds && worlds[k] in worlds;
    assert LossesShow(worlds[k - 1], worlds[k]);
  }

  lemma NothingNewShows(reviews: map<string, ReviewRecord>, w: World, w': World, n: string)
    requires ReviewsCurrent(reviews, w) && n in reviews && n in Listed(w')
    requires WellFormed(w) && WellFormed(w') && Comparable(w, w') && LossesShow(w, w')
    requires !NewVersionIn(w, w', n)
    ensures Shows(reviews[n], w'.evaluator, n)
  {
    assert RolesIn(w, n) == RolesIn(w', n) && BindingsIn(w, n) == BindingsIn(w', n);
    SameObjectsSameReview(w, w', n);
  }

  lemma NothingNew(worlds: seq<World>, n: string)
    requires |worlds| > 1 && Followable(worlds)
    requires n in IndexAfter(worlds[..|worlds| - 1]).reviews
    requires n in Listed(worlds[|worlds| - 2]) && n in Listed(worlds[|worlds| - 1])
    requires !Triggered(IndexAfter(worlds[..|worlds| - 1]), Requests(worlds[|worlds| - 1]), n)
    ensures !NewVersionIn(worlds[|worlds| - 2], worlds[|worlds| - 1], n)
  {
    var init, w, w' := worlds[..|worlds| - 1], worlds[|worlds| - 2], worlds[|worlds| - 1];
    var ix := IndexAfter(init);
    LastPair(worlds);
    var before := LastPass(init);
    UntriggeredAtItsVersion(before, w, ix, w', n);
    forall r | r in RolesIn(w', n) ensures r in RolesIn(w, n) {
      UntriggeredRoleIsSeen(init, w', n, r);
      var seen :| seen in RolesSeen(init, n) && seen.meta.uid == r.meta.uid &&
          seen.meta.resourceVersion == r.meta.resourceVersion;
      SeenIsStillThere(worlds, n);
    }
    forall b | b in BindingsIn(w', n) ensures b in BindingsIn(w, n) {
      UntriggeredBindingIsSeen(init, w', n, b);
      var seen :| seen in BindingsSeen(init, n) && seen.meta.uid == b.meta.uid &&
          seen.meta.resourceVersion == b.meta.resourceVersion;
      SeenIsStillThere(worlds, n);
    }
  }

  lemma UntriggeredRoleIsSeen(init: seq<World>, w': World, n: string, r: Role)
    requires init != [] && n in IndexAfter(init).reviews && r in RolesIn(w', n)
    requires !Triggered(IndexAfter(init), Requests(w'), n)
    ensures exists seen | seen in RolesSeen(init, n) ::
        seen.meta.uid == r.meta.uid && seen.meta.resourceVersion == r.meta.resourceVersion
  {
    RecordsAreSourced(init, n);
    RoleIsRequested(w', r);
    assert SkipReview(RoleRequest(r), LastKnown(IndexAfter(init).reviews, n));
    assert r.meta.uid in RoleRequest(r).roles;
  }

  lemma UntriggeredBindingIsSeen(init: seq<World>, w': World, n: string, b: Binding)
    requires init != [] && n in IndexAfter(init).reviews && b in BindingsIn(w', n)
    requires !Triggered(IndexAfter(init), Requests(w'), n)
    ensures exists seen | seen in BindingsSeen(init, n) ::
        seen.meta.uid == b.meta.uid && seen.meta.resourceVersion == b.meta.resourceVersion
  {
    RecordsAreSourced(init, n);
    BindingIsRequested(w', b);
    assert SkipReview(BindingRequest(b), LastKnown(IndexAfter(init).reviews, n));
    assert b.meta.uid in BindingRequest(b).bindings;
  }

  lemma LastPass(worlds: seq<World>) returns (before: Index)
    requires worlds != []
    ensures IndexAfter(worlds) == Refresh(before, worlds[|worlds| - 1])
  {
    before := if |worlds| == 1 then EMPTY_INDEX else IndexAfter(worlds[..|worlds| - 1]);
  }

  lemma UntriggeredAtItsVersion(before: Index, w: World, ix: Index, w': World, n: string)
    requires ix == Refresh(before, w) && WellFormed(w) && WellFormed(w')
    requires n in Listed(w) && n in Listed(w') && n in ix.reviews && !Triggered(ix, Requests(w'), n)
    ensures w.getNamespace(n) == w'.getNamespace(n)
  {
    var ns' :| ns' in w'.namespaces.value && ns'.name == n;
    NamespaceIsRequested(w', ns');
    assert SkipReview(NamespaceRequest(ns'), LastKnown(ix.reviews, n));
    ListedIsAtItsVersion(before, w, n);
  }

  /** An object listed now in a version the run has shown before was there the time before as well. */
  lemma SeenIsStillThere(worlds: seq<World>, n: string)
    requires |worlds| > 1 && Followable(worlds)
    ensures forall seen, r | seen in RolesSeen(worlds[..|worlds| - 1], n) && r in RolesIn(worlds[|worlds| - 1], n)
              && seen.meta.uid == r.meta.uid && seen.meta.resourceVersion == r.meta.resourceVersion ::
                  r in RolesIn(worlds[|worlds| - 2], n)
    ensures forall seen, b | seen in BindingsSeen(worlds[..|worlds| - 1], n) && b in BindingsIn(worlds[|worlds| - 1], n)
              && seen.meta.uid == b.meta.uid && seen.meta.resourceVersion == b.meta.resourceVersion ::
                  b in BindingsIn(worlds[|worlds| - 2], n)
  {
    var init, k := worlds[..|worlds| - 1], |worlds| - 1;
    forall seen, r | seen in RolesSeen(init, n) && r in RolesIn(worlds[k], n)
        && seen.meta.uid == r.meta.uid && seen.meta.resourceVersion == r.meta.resourceVersion
      ensures r in RolesIn(worlds[k - 1], n)
    {
      var i :| 0 <= i < |init| && seen in RolesIn(init[i], n);
      SeenAt(worlds, i);
    }
    forall seen, b | seen in BindingsSeen(init, n) && b in BindingsIn(worlds[k], n)
        && seen.meta.uid == b.meta.uid && seen.meta.resourceVersion == b.meta.resourceVersion
      ensures b in BindingsIn(worlds[k - 1], n)
    {
      var i :| 0 <= i < |init| && seen in BindingsIn(init[i], n);
      SeenAt(worlds, i);
    }
  }

  lemma SeenAt(worlds: seq<World>, i: nat)
    requires i < |worlds| - 1 && Followable(worlds)
    ensures VersionsDetermineContent(worlds[i], worlds[|worlds| - 1])
    ensures StaysGone(worlds[i], worlds[|worlds| - 2], worlds[|worlds| - 1])
  {
    assert worlds[i] in worlds && worlds[|worlds| - 1] in worlds;
    assert Comparable(worlds[i], worlds[|worlds| - 1]);
    if i < |worlds| - 2 {
      assert StaysGone(worlds[i], worlds[|worlds| - 2], worlds[|worlds| - 1]);
    }
  }
}
