/** Runs in which rebuilds and incremental synchronizations alternate as the change detector decides. */
module MixedRuns {
  import opened Common
  import opened RbacTypes
  import opened Allows
  import opened RuleResolver
  import opened SubjectLocator
  import opened Reviewer
  import opened AccessIndex
  import opened Informers
  import opened ChangeDetector
  import opened SkipToken
  import opened Synchronization
  import opened Incremental
  import opened Freshness

  /** The completed synchronizations from the last rebuild on, the rebuild included. */
  ghost function SinceRebuild(worlds: seq<World>): seq<World> {
    if worlds == [] then []
    else
      var init, w := worlds[..|worlds| - 1], worlds[|worlds| - 1];
      var st := CacheAfterAll(init);
      if Skips(st, w) then SinceRebuild(init)
      else if Detected(st, w).invalidate then [w]
      else SinceRebuild(init) + [w]
  }

  lemma SinceRebuildNext(init: seq<World>, w: World)
    ensures var st := CacheAfterAll(init);
      SinceRebuild(init + [w]) ==
        if Skips(st, w) then SinceRebuild(init)
        else if Detected(st, w).invalidate then [w]
        else SinceRebuild(init) + [w]
  {
    assert (init + [w])[..|init|] == init;
  }

  /** The index is what the passes since the last rebuild made of empty stores. */
  ghost predicate BuiltFrom(ix: Index, segment: seq<World>) {
    if segment == [] then ix == EMPTY_INDEX else ix == IndexAfter(segment)
  }

  lemma {:induction false} IndexIsBuilt(worlds: seq<World>)
    ensures BuiltFrom(CacheAfterAll(worlds).index, SinceRebuild(worlds))
  {
    if worlds != [] {
      var init, w := worlds[..|worlds| - 1], worlds[|worlds| - 1];
      assert init + [w] == worlds;
      IndexIsBuilt(init);
      LastSynchronization(init, w);
      SinceRebuildNext(init, w);
      BuiltFurther(CacheAfterAll(init), SinceRebuild(init), w);
    }
  }

  /** The last completed synchronization is the last one since the rebuild. */
  lemma {:induction false} SinceRebuildIsCompleted(worlds: seq<World>)
    requires worlds != []
    ensures SinceRebuild(worlds) != [] && IsLastCompleted(SinceRebuild(worlds)[|SinceRebuild(worlds)| - 1], worlds)
  {
    var init, w := worlds[..|worlds| - 1], worlds[|worlds| - 1];
    assert init + [w] == worlds;
    LastSynchronization(init, w);
    SinceRebuildNext(init, w);
    if Skips(CacheAfterAll(init), w) {
      SinceRebuildIsCompleted(init);
    }
  }

  lemma BuiltFurther(st: CacheState, segment: seq<World>, w: World)
    requires BuiltFrom(st.index, segment)
    ensures BuiltFrom(CacheAfter(st, w).index, if Detected(st, w).invalidate then [w] else segment + [w])
  {
    assert (segment + [w])[..|segment|] == segment;
  }

  /** What the passes since the last rebuild have to satisfy: nothing, if there was none. */
  ghost predicate Followed(segment: seq<World>) {
    |segment| == 1 || (segment != [] && Followable(segment))
  }

  lemma FollowedIsCurrent(ix: Index, segment: seq<World>, w: World)
    requires Followed(segment) && ix == IndexAfter(segment) && w == segment[|segment| - 1]
    ensures Current(ix, w)
  {
    if |segment| == 1 {
      RebuildIsCurrent(w);
    } else {
      IncrementalStaysCurrent(segment, ix, w);
    }
  }

  /** However rebuilds, incremental passes and skipped synchronizations alternate, if those since the last
      rebuild can be followed, the index is current for the last completed synchronization. */
  lemma RunStaysCurrent(worlds: seq<World>, ix: Index, w: World)
    requires worlds != [] && Followed(SinceRebuild(worlds))
    requires ix == CacheAfterAll(worlds).index && IsLastCompleted(w, worlds)
    ensures Current(ix, w)
  {
    IndexIsBuilt(worlds);
    SinceRebuildIsCompleted(worlds);
    FollowedIsCurrent(ix, SinceRebuild(worlds), w);
  }

  /** It then has the same user and group stores and reviewed subjects as a rebuild from empty stores. */
  lemma RunRefinesRebuild(worlds: seq<World>, ix: Index, w: World)
    requires worlds != [] && Followed(SinceRebuild(worlds))
    requires ix == CacheAfterAll(worlds).index && IsLastCompleted(w, worlds)
    ensures SameAnswers(ix, Refresh(EMPTY_INDEX, w))
  {
    RunStaysCurrent(worlds, ix, w);
    CurrentAnswersAsRebuilt(ix, w);
  }

  /** End to end: List then answers the RBAC decision as of the last completed synchronization. */
  lemma RunListsTheRbacDecision(worlds: seq<World>, ix: Index, w: World, user: UserInfo,
      answer: Result<seq<Namespace>, Error>)
    requires worlds != [] && Followed(SinceRebuild(worlds))
    requires ix == CacheAfterAll(worlds).index && IsLastCompleted(w, worlds) && NamesAgree(w)
    requires forall n | n in Listed(w) :: ClusterSubjectsQualified(w.evaluator.policy, Reviewer.Action(n))
    requires ListAnswer(ix, w, user, answer)
    ensures RbacAnswer(w, user, answer)
  {
    RunStaysCurrent(worlds, ix, w);
    CurrentIndexAnswers(ix, w, user, answer);
  }

  /** The records of the cache remember only versions of objects listed since the last rebuild. */
  lemma RunRecordsAreSourced(worlds: seq<World>, n: string)
    requires worlds != []
    ensures Sourced(CacheAfterAll(worlds).index.reviews, n, RolesSeen(SinceRebuild(worlds), n),
        BindingsSeen(SinceRebuild(worlds), n))
  {
    IndexIsBuilt(worlds);
    SinceRebuildIsCompleted(worlds);
    RecordsAreSourced(SinceRebuild(worlds), n);
  }

  /** Exactly when one more synchronization, rebuilding or not, leaves a current index. */
  lemma SynchronizationIsCurrentIff(st: CacheState, w: World)
    requires Consistent(st.index)
    ensures Current(CacheAfter(st, w).index, w) <==>
            Detected(st, w).invalidate || forall n | n in Listed(w) :: OnRecord(st.index, w, n)
  {
    if Detected(st, w).invalidate {
      RebuildIsCurrent(w);
    } else {
      IncrementalIsCurrentIff(st.index, w);
    }
  }

  /** Along a run that can be followed, a namespace that the next synchronization has no reason to review
      is on record with the review it would get. */
  lemma UntriggeredKeepsItsReview(worlds: seq<World>, st: CacheState, w: World, n: string)
    requires st == CacheAfterAll(worlds) && !Skips(st, w) && !Detected(st, w).invalidate
    requires Followed(SinceRebuild(worlds + [w]))
    requires n in Listed(w) && Review(w.evaluator, n).Ok? && !Triggered(st.index, Requests(w), n)
    ensures n in st.index.reviews && Shows(st.index.reviews[n], w.evaluator, n)
  {
    LastSynchronization(worlds, w);
    RunStaysCurrent(worlds + [w], CacheAfter(st, w).index, w);
    EveryReachableIndexIsConsistent(worlds);
    SynchronizationIsCurrentIff(st, w);
  }

  // ---- a deletion alone is not seen ------------------------------------------------------------

  /** The versions of the namespace and of the role binding reflector. */
  datatype Stage = Stage(namespace: string, bindings: string)

  /** One namespace with a role to view it and the given role bindings; no cluster roles or bindings. */
  function OneNamespace(bindings: seq<Binding>, stage: Stage): World {
    var policy := Policy(
      (ns, n) => if ns == "dev" && n == "viewer" then Ok(Viewer()) else Err("not found"),
      ns => if ns == "dev" then Ok(bindings) else Ok([]),
      n => Err("not found"),
      Ok([]));
    World(Versions(stage.namespace, "", "", "1", stage.bindings), Ok([Namespace("dev", stage.namespace)]),
          n => if n == "dev" then Found(stage.namespace) else NotFound,
          Ok([Viewer()]), Ok(bindings), Ok([]), Ok([]), Evaluator("", policy))
  }

  function Viewer(): Role {
    Role(ObjectMeta("dev", "viewer", "u1", "1"), [PolicyRule(["get"], [""], ["namespaces"], [], [])])
  }

  function AliceViews(): Binding {
    Binding(ObjectMeta("dev", "view", "u2", "2"), [Subject(USER_KIND, GROUP_NAME, "alice", "")],
        RoleRef(GROUP_NAME, "Role", "viewer"))
  }

  ghost predicate Example(w: World, bindings: seq<Binding>, stage: Stage) {
    && w == OneNamespace(bindings, stage) && |stage.namespace| > 0 && ',' !in stage.namespace
    && (bindings == [] || bindings == [AliceViews()])
  }

  lemma ExampleIsCoherent(w: World, bindings: seq<Binding>, stage: Stage)
    requires Example(w, bindings, stage)
    ensures Coherent(w)
  {
    forall ns ensures Elements(w.evaluator.policy.listRoleBindings(ns).value) == set b | b in w.roleBindings.value &&
        b.meta.namespace == ns {
      assert AliceViews().meta.namespace == "dev";
    }
    assert Viewer() in w.roles.value;
  }

  lemma ExampleIsSound(w: World, bindings: seq<Binding>, stage: Stage)
    requires Example(w, bindings, stage)
    ensures Sound(w) && UniqueUIDs(w) && Listed(w) == {"dev"}
  {
    assert Listed(w) == {"dev"} by {
      assert Namespace("dev", stage.namespace) in w.namespaces.value;
    }
  }

  lemma ExampleIsWellFormed(w: World, bindings: seq<Binding>, stage: Stage)
    requires Example(w, bindings, stage)
    ensures WellFormed(w) && Listed(w) == {"dev"}
  {
    ExampleIsSound(w, bindings, stage);
    ExampleIsCoherent(w, bindings, stage);
    assert ReviewsSucceed(w) by {
      LocatorErrorFreeIff(w.evaluator.policy, "dev");
    }
  }

  lemma AliceIsReviewedIffBound(w: World, bindings: seq<Binding>, stage: Stage)
    requires Example(w, bindings, stage)
    ensures "alice" in ReviewedUsers(w.evaluator, "dev") <==> bindings != []
  {
    var e, a, alice := w.evaluator, Reviewer.Action("dev"), AliceViews().subjects[0];
    FlatUsersContains(Subjects(e, a), "dev", "alice");
    if bindings == [] {
      forall s ensures s !in PolicySubjects(e.policy, a) {
        PolicySubjectsContains(e.policy, a, s);
      }
    } else {
      AliceIsNamed(e.policy, a, bindings);
      PolicySubjectsContains(e.policy, a, alice);
      assert alice in Subjects(e, a) && UserNamed(alice, "dev") == Some("alice");
    }
  }

  lemma AliceIsNamed(p: Policy, a: Attributes, bindings: seq<Binding>)
    requires p.getRole("dev", "viewer") == Ok(Viewer()) && p.listRoleBindings("dev") == Ok(bindings)
    requires bindings == [AliceViews()] && a == Reviewer.Action("dev")
    ensures NamespaceNames(p, a, AliceViews().subjects[0])
  {
    var rule := Viewer().rules[0];
    assert RuleAllows(a, rule) by {
      assert "get" in rule.verbs && "" in rule.apiGroups && "namespaces" in rule.resources;
    }
    assert rule in Viewer().rules;
    assert BindingAllows(p, AliceViews(), "dev", a);
    assert AliceViews() in bindings && AliceViews().subjects[0] in AliceViews().subjects;
  }

  /** A current index lists the namespace for alice iff she is bound. */
  lemma AliceIsIndexedIffBound(ix: Index, w: World, bindings: seq<Binding>, stage: Stage)
    requires Example(w, bindings, stage) && Current(ix, w)
    ensures "dev" in IndexedFor(ix, UserInfo("alice", [])) <==> bindings != []
  {
    ExampleIsWellFormed(w, bindings, stage);
    AliceIsReviewedIffBound(w, bindings, stage);
    IndexedIffReviewed(ix, UserInfo("alice", []), "dev");
  }

  /** A cache that has seen no cluster role or binding, and a synchronization that sees none either: if the token
      differs it is carried out, and does not rebuild. */
  lemma QuietStep(worlds: seq<World>, w: World)
    requires CacheAfterAll(worlds).recorded == NOTHING && CacheAfterAll(worlds).lastState != Token(w.versions)
    requires w.clusterRoles == Ok([]) && w.clusterRoleBindings == Ok([])
    ensures !Skips(CacheAfterAll(worlds), w) && !Detected(CacheAfterAll(worlds), w).invalidate
    ensures CacheAfterAll(worlds + [w]).index == Refresh(CacheAfterAll(worlds).index, w)
    ensures CacheAfterAll(worlds + [w]).recorded == NOTHING
    ensures CacheAfterAll(worlds + [w]).lastState == Token(w.versions)
    ensures SinceRebuild(worlds + [w]) == SinceRebuild(worlds) + [w]
  {
    NothingDetected(CacheAfterAll(worlds), w);
    LastSynchronization(worlds, w);
    SinceRebuildNext(worlds, w);
  }

  lemma QuietStart(w: World)
    requires w.clusterRoles == Ok([]) && w.clusterRoleBindings == Ok([])
    ensures CacheAfterAll([w]).index == Refresh(EMPTY_INDEX, w) && SinceRebuild([w]) == [w]
    ensures CacheAfterAll([w]).recorded == NOTHING && CacheAfterAll([w]).lastState == Token(w.versions)
  {
    ReadyFromTheFirstSync([]);
    QuietStep([], w);
    assert [] + [w] == [w];
  }

  lemma QuietRun(w: World, w': World)
    requires w.clusterRoles == w'.clusterRoles == Ok([]) && w.clusterRoleBindings == w'.clusterRoleBindings == Ok([])
    requires Token(w.versions) != Token(w'.versions)
    ensures CacheAfterAll([w]).index == Refresh(EMPTY_INDEX, w)
    ensures !Skips(CacheAfterAll([w]), w') && !Detected(CacheAfterAll([w]), w').invalidate
    ensures CacheAfterAll([w, w']).index == Refresh(Refresh(EMPTY_INDEX, w), w')
    ensures CacheAfterAll([w, w']).recorded == NOTHING && CacheAfterAll([w, w']).lastState == Token(w'.versions)
    ensures SinceRebuild([w, w']) == [w, w']
  {
    QuietStart(w);
    QuietStep([w], w');
    assert [w] + [w'] == [w, w'];
  }

  lemma NothingDetected(st: CacheState, w: World)
    requires st.recorded == NOTHING && w.clusterRoles == Ok([]) && w.clusterRoleBindings == Ok([])
    ensures Detected(st, w) == Answer(false, NOTHING)
  {
    assert RoleVersions([]) == {} && BindingVersions([]) == {};
  }

  lemma TokensDiffer(w: World, a: seq<Binding>, v: Stage, w': World, b: seq<Binding>, v': Stage)
    requires Example(w, a, v) && Example(w', b, v') && v != v'
    ensures Token(w.versions) != Token(w'.versions)
  {
    if Token(w.versions) == Token(w'.versions) {
      SameTokenSameVersionsIff(w.versions, w'.versions);
    }
  }

  /** The condition that losses show is needed: deleting a role binding and nothing else moves the role
      binding reflector, so that the next synchronization takes place, but changes no version a request
      carries. That synchronization does not rebuild, and keeps listing the namespace for a user whom
      RBAC no longer lets get it. */
  lemma DeletionAloneIsMissed() returns (w: World, w': World, alice: UserInfo)
    ensures WellFormed(w) && WellFormed(w') && SameCluster(w, w') && VersionsDetermineContent(w, w') &&
        !LossesShow(w, w')
    ensures !Skips(CacheAfterAll([w]), w') && !Detected(CacheAfterAll([w]), w').invalidate
    ensures "dev" in IndexedFor(CacheAfterAll([w, w']).index, alice)
    ensures !MayGet(w', alice, "dev") && "dev" !in IndexedFor(Refresh(EMPTY_INDEX, w'), alice)
  {
    w, w', alice := OneNamespace([AliceViews()], Stage("3", "2")), OneNamespace([], Stage("3", "4")),
        UserInfo("alice", []);
    ExampleIsWellFormed(w, [AliceViews()], Stage("3", "2"));
    ExampleIsWellFormed(w', [], Stage("3", "4"));
    ExamplesCompare(w, [AliceViews()], Stage("3", "2"), w', [], Stage("3", "4"));
    OnlyTheBindingIsGone(w, w');
    TokensDiffer(w, [AliceViews()], Stage("3", "2"), w', [], Stage("3", "4"));
    QuietRun(w, w');
    AliceStaysIndexed(w, w', alice);
    AliceMayNotGet(w', alice);
  }

  lemma OnlyTheBindingIsGone(w: World, w': World)
    requires Example(w, [AliceViews()], Stage("3", "2")) && Example(w', [], Stage("3", "4"))
    ensures !LossesShow(w, w')
  {
    assert AliceViews() in BindingsIn(w, "dev");
    assert BindingsIn(w', "dev") == {} && RolesIn(w, "dev") == RolesIn(w', "dev");
    assert Namespace("dev", "3") in w.namespaces.value && Namespace("dev", "3") in w'.namespaces.value;
    assert !NewVersionIn(w, w', "dev");
  }

  lemma AliceStaysIndexed(w: World, w': World, alice: UserInfo)
    requires Example(w, [AliceViews()], Stage("3", "2")) && Example(w', [], Stage("3", "4")) &&
        alice == UserInfo("alice", [])
    ensures "dev" in IndexedFor(Refresh(Refresh(EMPTY_INDEX, w), w'), alice)
  {
    var ix := Refresh(EMPTY_INDEX, w);
    RebuildIsCurrent(w);
    AliceIsIndexedIffBound(ix, w, [AliceViews()], Stage("3", "2"));
    ExampleIsWellFormed(w, [AliceViews()], Stage("3", "2"));
    ExampleIsWellFormed(w', [], Stage("3", "4"));
    NothingToReview(ix, w, w');
    UntriggeredStaysIndexed(ix, w', alice, "dev");
  }

  lemma UntriggeredStaysIndexed(ix: Index, w: World, user: UserInfo, n: string)
    requires Consistent(ix)
    requires n in Listed(w) && Review(w.evaluator, n).Ok? && !Triggered(ix, Requests(w), n)
    ensures n in IndexedFor(Refresh(ix, w), user) <==> n in IndexedFor(ix, user)
  {
    RefreshOutcome(ix, w, n);
    RefreshKeepsConsistent(ix, w);
    IndexedIffReviewed(ix, user, n);
    IndexedIffReviewed(Refresh(ix, w), user, n);
  }

  lemma NothingToReview(ix: Index, w: World, w': World)
    requires Example(w, [AliceViews()], Stage("3", "2")) && Example(w', [], Stage("3", "4")) &&
        ix == Refresh(EMPTY_INDEX, w)
    requires WellFormed(w) && Listed(w) == {"dev"}
    ensures !Triggered(ix, Requests(w'), "dev")
  {
    RefreshCovers(EMPTY_INDEX, w);
    NamespaceIsRequested(w, Namespace("dev", "3"));
    RoleIsRequested(w, Viewer());
    forall r | r in Requests(w') ensures r in Requests(w) && r.namespace == "dev" {
      RequestsComeFrom(w', r);
      assert r == NamespaceRequest(Namespace("dev", "3")) || r == RoleRequest(Viewer());
    }
  }

  lemma AliceMayNotGet(w: World, alice: UserInfo)
    requires Example(w, [], Stage("3", "4")) && alice == UserInfo("alice", [])
    ensures !MayGet(w, alice, "dev") && "dev" !in IndexedFor(Refresh(EMPTY_INDEX, w), alice)
  {
    RebuildIsCurrent(w);
    ExampleIsWellFormed(w, [], Stage("3", "4"));
    AliceIsIndexedIffBound(Refresh(EMPTY_INDEX, w), w, [], Stage("3", "4"));
    CurrentIndexDecides(Refresh(EMPTY_INDEX, w), w, alice, "dev");
  }

  lemma ExamplesCompare(w: World, a: seq<Binding>, v: Stage, w': World, b: seq<Binding>, v': Stage)
    requires Example(w, a, v) && Example(w', b, v')
    ensures SameCluster(w, w') && VersionsDetermineContent(w, w')
  {
  }

  /** The same binding appearing is followed: a new version shows, the synchronization takes place, does
      not rebuild, and lists the namespace for the user. */
  lemma AdditionIsFollowed() returns (w: World, w': World, alice: UserInfo)
    ensures !Skips(CacheAfterAll([w]), w') && !Detected(CacheAfterAll([w]), w').invalidate
    ensures SinceRebuild([w, w']) == [w, w'] && Followable([w, w'])
    ensures "dev" !in IndexedFor(CacheAfterAll([w]).index, alice)
    ensures "dev" in IndexedFor(CacheAfterAll([w, w']).index, alice)
  {
    w, w', alice := OneNamespace([], Stage("3", "1")), OneNamespace([AliceViews()], Stage("3", "2")),
        UserInfo("alice", []);
    TokensDiffer(w, [], Stage("3", "1"), w', [AliceViews()], Stage("3", "2"));
    QuietRun(w, w');
    AdditionIsFollowable(w, w');
    RebuildIsCurrent(w);
    AliceIsIndexedIffBound(Refresh(EMPTY_INDEX, w), w, [], Stage("3", "1"));
    AliceIsFound(w, w');
  }

  lemma AliceIsFound(w: World, w': World)
    requires Example(w, [], Stage("3", "1")) && Example(w', [AliceViews()], Stage("3", "2")) && Followable([w, w'])
    ensures "dev" in IndexedFor(Refresh(Refresh(EMPTY_INDEX, w), w'), UserInfo("alice", []))
  {
    var ix := Refresh(Refresh(EMPTY_INDEX, w), w');
    TwoStatesStayCurrent(w, w', ix);
    AliceIsIndexedIffBound(ix, w', [AliceViews()], Stage("3", "2"));
  }

  lemma AdditionIsFollowable(w: World, w': World)
    requires Example(w, [], Stage("3", "1")) && Example(w', [AliceViews()], Stage("3", "2"))
    ensures Followable([w, w'])
  {
    ExampleIsWellFormed(w, [], Stage("3", "1"));
    ExampleIsWellFormed(w', [AliceViews()], Stage("3", "2"));
    ExamplesCompare(w, [], Stage("3", "1"), w, [], Stage("3", "1"));
    ExamplesCompare(w, [], Stage("3", "1"), w', [AliceViews()], Stage("3", "2"));
    ExamplesCompare(w', [AliceViews()], Stage("3", "2"), w, [], Stage("3", "1"));
    ExamplesCompare(w', [AliceViews()], Stage("3", "2"), w', [AliceViews()], Stage("3", "2"));
    NothingIsLost(w, w');
    TwoStates(w, w');
  }

  lemma NothingIsLost(w: World, w': World)
    requires Example(w, [], Stage("3", "1")) && Example(w', [AliceViews()], Stage("3", "2"))
    ensures LossesShow(w, w')
  {
    assert forall n :: RolesIn(w, n) == RolesIn(w', n) && BindingsIn(w, n) == {};
  }

  lemma TwoStatesStayCurrent(w: World, w': World, ix: Index)
    requires Followable([w, w']) && ix == Refresh(Refresh(EMPTY_INDEX, w), w')
    ensures Current(ix, w')
  {
    assert [w, w'][..1] == [w];
    IncrementalStaysCurrent([w, w'], ix, w');
  }

  lemma TwoStates(w: World, w': World)
    requires WellFormed(w) && WellFormed(w') && LossesShow(w, w')
    requires Comparable(w, w) && Comparable(w, w') && Comparable(w', w) && Comparable(w', w')
    ensures Followable([w, w'])
  {
    BothWellFormed(w, w');
    AllComparable(w, w');
    OneLossStep(w, w');
    NothingReturns(w, w');
  }

  lemma BothWellFormed(w: World, w': World)
    requires WellFormed(w) && WellFormed(w')
    ensures AllWellFormed([w, w'])
  {
    forall x | x in [w, w'] ensures WellFormed(x) {
      assert x == w || x == w';
    }
  }

  lemma AllComparable(w: World, w': World)
    requires Comparable(w, w) && Comparable(w, w') && Comparable(w', w) && Comparable(w', w')
    ensures AllCompare([w, w'])
  {
    forall x, y | x in [w, w'] && y in [w, w'] ensures Comparable(x, y) {
      assert (x == w || x == w') && (y == w || y == w');
    }
  }

  lemma OneLossStep(w: World, w': World)
    requires LossesShow(w, w')
    ensures LossesAllShow([w, w'])
  {
  }

  lemma NothingReturns(w: World, w': World)
    ensures AllStayGone([w, w'])
  {
  }

  // ---- nor is a return -------------------------------------------------------------------------

  /** The condition that what is gone stays gone is needed as well. A role binding is deleted while the namespace
      changes, which shows; then it comes back in the version it had, which the record still remembers. None of
      the synchronizations is skipped or rebuilds, and the last does not find a user whom RBAC lets get the
      namespace. */
  lemma ReturnIsMissed() returns (w: World, w': World, w'': World, alice: UserInfo)
    ensures AllWellFormed([w, w', w'']) && AllCompare([w, w', w'']) && LossesAllShow([w, w', w''])
    ensures !AllStayGone([w, w', w''])
    ensures !Skips(CacheAfterAll([w]), w') && !Detected(CacheAfterAll([w]), w').invalidate
    ensures !Skips(CacheAfterAll([w, w']), w'') && !Detected(CacheAfterAll([w, w']), w'').invalidate
    ensures MayGet(w'', alice, "dev") && "dev" !in IndexedFor(CacheAfterAll([w, w', w'']).index, alice)
  {
    w, w' := OneNamespace([AliceViews()], Stage("3", "2")), OneNamespace([], Stage("4", "5"));
    w'', alice := OneNamespace([AliceViews()], Stage("4", "6")), UserInfo("alice", []);
    ReturnIsComparable(w, w', w'');
    ReturnIsARun(w, w', w'');
    AliceStaysOut(w, w', w'', alice);
    AliceMayGet(w'', alice);
  }

  ghost predicate Returns(w: World, w': World, w'': World) {
    && Example(w, [AliceViews()], Stage("3", "2")) && Example(w', [], Stage("4", "5"))
    && Example(w'', [AliceViews()], Stage("4", "6"))
  }

  lemma ReturnIsComparable(w: World, w': World, w'': World)
    requires Returns(w, w', w'')
    ensures AllWellFormed([w, w', w'']) && AllCompare([w, w', w'']) && LossesAllShow([w, w', w''])
    ensures !AllStayGone([w, w', w''])
  {
    AllExamples(w, w', w'');
    LossShowsReturnLosesNothing(w, w', w'');
    assert AliceViews() in BindingsIn(w, "dev") * BindingsIn(w'', "dev") && AliceViews() !in BindingsIn(w', "dev");
    assert !StaysGone([w, w', w''][0], [w, w', w''][1], [w, w', w''][2]);
  }

  lemma AllExamples(w: World, w': World, w'': World)
    requires Returns(w, w', w'')
    ensures AllWellFormed([w, w', w'']) && AllCompare([w, w', w''])
  {
    forall x | x in [w, w', w''] ensures exists bindings, stage :: Example(x, bindings, stage) {
      assert x == w || x == w' || x == w'';
    }
    forall x | x in [w, w', w''] ensures WellFormed(x) {
      var bindings, stage :| Example(x, bindings, stage);
      ExampleIsWellFormed(x, bindings, stage);
    }
    forall x, y | x in [w, w', w''] && y in [w, w', w''] ensures Comparable(x, y) {
      var a, v :| Example(x, a, v);
      var b, v' :| Example(y, b, v');
      ExamplesCompare(x, a, v, y, b, v');
    }
  }

  lemma LossShowsReturnLosesNothing(w: World, w': World, w'': World)
    requires Returns(w, w', w'')
    ensures LossesAllShow([w, w', w'']) && LossesShow(w, w')
  {
    assert w.getNamespace("dev") != w'.getNamespace("dev");
    ExampleIsSound(w, [AliceViews()], Stage("3", "2"));
    assert LossesShow(w, w');
    assert forall n :: RolesIn(w', n) == RolesIn(w'', n) && BindingsIn(w', n) == {};
    assert LossesShow(w', w'');
  }

  lemma ReturnIsARun(w: World, w': World, w'': World)
    requires Returns(w, w', w'')
    ensures !Skips(CacheAfterAll([w]), w') && !Detected(CacheAfterAll([w]), w').invalidate
    ensures !Skips(CacheAfterAll([w, w']), w'') && !Detected(CacheAfterAll([w, w']), w'').invalidate
    ensures CacheAfterAll([w, w', w'']).index == Refresh(Refresh(Refresh(EMPTY_INDEX, w), w'), w'')
  {
    TokensDiffer(w, [AliceViews()], Stage("3", "2"), w', [], Stage("4", "5"));
    TokensDiffer(w', [], Stage("4", "5"), w'', [AliceViews()], Stage("4", "6"));
    QuietRunOfThree(w, w', w'');
  }

  lemma QuietRunOfThree(w: World, w': World, w'': World)
    requires w.clusterRoles == w'.clusterRoles == w''.clusterRoles == Ok([])
    requires w.clusterRoleBindings == w'.clusterRoleBindings == w''.clusterRoleBindings == Ok([])
    requires Token(w.versions) != Token(w'.versions) && Token(w'.versions) != Token(w''.versions)
    ensures !Skips(CacheAfterAll([w]), w') && !Detected(CacheAfterAll([w]), w').invalidate
    ensures !Skips(CacheAfterAll([w, w']), w'') && !Detected(CacheAfterAll([w, w']), w'').invalidate
    ensures CacheAfterAll([w, w', w'']).index == Refresh(Refresh(Refresh(EMPTY_INDEX, w), w'), w'')
  {
    QuietRun(w, w');
    QuietStep([w, w'], w'');
    assert [w, w'] + [w''] == [w, w', w''];
  }

  lemma AliceStaysOut(w: World, w': World, w'': World, alice: UserInfo)
    requires Returns(w, w', w'') && alice == UserInfo("alice", [])
    ensures "dev" !in IndexedFor(Refresh(Refresh(Refresh(EMPTY_INDEX, w), w'), w''), alice)
  {
    var ix := Refresh(Refresh(EMPTY_INDEX, w), w');
    AliceIsOut(w, w', w'', ix);
    ReturnIsNotTriggered(w, w', w'', ix);
    ExampleIsWellFormed(w'', [AliceViews()], Stage("4", "6"));
    UntriggeredStaysIndexed(ix, w'', alice, "dev");
  }

  lemma AliceIsOut(w: World, w': World, w'': World, ix: Index)
    requires Returns(w, w', w'') && ix == Refresh(Refresh(EMPTY_INDEX, w), w')
    ensures Consistent(ix) && "dev" !in IndexedFor(ix, UserInfo("alice", []))
  {
    LossIsFollowable(w, w', w'');
    TwoStatesStayCurrent(w, w', ix);
    AliceIsIndexedIffBound(ix, w', [], Stage("4", "5"));
  }

  lemma LossIsFollowable(w: World, w': World, w'': World)
    requires Returns(w, w', w'')
    ensures Followable([w, w'])
  {
    AllExamples(w, w', w'');
    LossShowsReturnLosesNothing(w, w', w'');
    assert w in [w, w', w''] && w' in [w, w', w''];
    TwoStates(w, w');
  }

  lemma ReturnIsNotTriggered(w: World, w': World, w'': World, ix: Index)
    requires Returns(w, w', w'') && ix == Refresh(Refresh(EMPTY_INDEX, w), w')
    ensures !Triggered(ix, Requests(w''), "dev")
  {
    ExampleIsWellFormed(w', [], Stage("4", "5"));
    RefreshCovers(Refresh(EMPTY_INDEX, w), w');
    BindingIsRemembered(w, w', ix);
    forall r | r in Requests(w'') ensures SkipReview(r, LastKnown(ix.reviews, "dev")) {
      OnlyTheBindingIsRequestedAnew(w, w', w'', r);
    }
  }

  lemma OnlyTheBindingIsRequestedAnew(w: World, w': World, w'': World, r: ReviewRequest)
    requires Returns(w, w', w'') && r in Requests(w'')
    ensures r.namespace == "dev" && (r in Requests(w') || r == BindingRequest(AliceViews()))
  {
    NamespaceIsRequested(w', Namespace("dev", "4"));
    RoleIsRequested(w', Viewer());
    RequestsComeFrom(w'', r);
  }

  lemma BindingIsRemembered(w: World, w': World, ix: Index)
    requires Example(w, [AliceViews()], Stage("3", "2")) && Example(w', [], Stage("4", "5"))
    requires ix == Refresh(Refresh(EMPTY_INDEX, w), w')
    ensures SkipReview(BindingRequest(AliceViews()), LastKnown(ix.reviews, "dev"))
  {
    var request, first := BindingRequest(AliceViews()), Refresh(EMPTY_INDEX, w);
    ExampleIsWellFormed(w, [AliceViews()], Stage("3", "2"));
    ExampleIsWellFormed(w', [], Stage("4", "5"));
    RefreshCovers(EMPTY_INDEX, w);
    BindingIsRequested(w, AliceViews());
    forall r | r in Requests(w') ensures Compatible(request, r) {
      NoBindingIsRequested(w', r);
    }
    PassKeepsCoverage(w'.evaluator, first, Requests(w'), "dev", request);
  }

  lemma NoBindingIsRequested(w: World, r: ReviewRequest)
    requires Example(w, [], Stage("4", "5")) && r in Requests(w)
    ensures Compatible(BindingRequest(AliceViews()), r)
  {
    RequestsComeFrom(w, r);
  }

  lemma AliceMayGet(w: World, alice: UserInfo)
    requires Example(w, [AliceViews()], Stage("4", "6")) && alice == UserInfo("alice", [])
    ensures MayGet(w, alice, "dev")
  {
    RebuildIsCurrent(w);
    AliceIsIndexedIffBound(Refresh(EMPTY_INDEX, w), w, [AliceViews()], Stage("4", "6"));
    CurrentIndexDecides(Refresh(EMPTY_INDEX, w), w, alice, "dev");
  }
}
