/** How old the cache's answers can be: which synchronizations are skipped, and which rebuild. */
module Freshness {
  import opened Common
  import opened RbacTypes
  import opened SubjectLocator
  import opened Reviewer
  import opened AccessIndex
  import opened Informers
  import opened ChangeDetector
  import opened SkipToken
  import opened Synchronization
  import opened Incremental
  import opened ProjectWatcher
  import opened Notifications
  import opened WatchRuns

  /** The states of the informers that were not skipped. */
  ghost function Completed(worlds: seq<World>): seq<World> {
    if worlds == [] then []
    else
      var init, w := worlds[..|worlds| - 1], worlds[|worlds| - 1];
      Completed(init) + if Skips(CacheAfterAll(init), w) then [] else [w]
  }

  ghost predicate IsLastCompleted(w: World, worlds: seq<World>) {
    Completed(worlds) != [] && w == Completed(worlds)[|Completed(worlds)| - 1]
  }

  function CallsFor(worlds: seq<World>): seq<Call> {
    seq(|worlds|, i requires 0 <= i < |worlds| => CallOf(worlds[i].clusterRoles, worlds[i].clusterRoleBindings))
  }

  lemma {:induction false} CompletedAreListed(worlds: seq<World>)
    ensures forall w | w in Completed(worlds) :: w in worlds
    ensures worlds != [] ==> Completed(worlds) != []
  {
    if worlds != [] {
      var init := worlds[..|worlds| - 1];
      CompletedAreListed(init);
      if init == [] {
        ReadyFromTheFirstSync(init);
      }
    }
  }

  /** One more synchronization: skipped, it changes nothing, and it is never the first; otherwise it counts. */
  lemma LastSynchronization(init: seq<World>, w: World)
    ensures var before, after := CacheAfterAll(init), CacheAfterAll(init + [w]);
      if Skips(before, w) then init != [] && after == before && Completed(init + [w]) == Completed(init)
      else after == CacheAfter(before, w) && Completed(init + [w]) == Completed(init) + [w]
  {
    assert (init + [w])[..|init|] == init;
    if init == [] {
      ReadyFromTheFirstSync(init);
    }
  }

  /** The cache remembers exactly its last completed synchronization's token and listing, and what the
      change detector recorded over the completed ones. */
  lemma {:induction false} CacheRemembers(worlds: seq<World>)
    ensures Remembers(CacheAfterAll(worlds), Completed(worlds))
  {
    if worlds != [] {
      var init, w := worlds[..|worlds| - 1], worlds[|worlds| - 1];
      assert init + [w] == worlds;
      CacheRemembers(init);
      LastSynchronization(init, w);
      if !Skips(CacheAfterAll(init), w) {
        RemembersOneMore(CacheAfterAll(init), Completed(init), w);
      }
    }
  }

  ghost predicate Remembers(st: CacheState, completed: seq<World>) {
    && st.recorded == After(CallsFor(completed))
    && (completed != [] ==>
          && st.lastState == Token(completed[|completed| - 1].versions)
          && st.known == Listed(completed[|completed| - 1]))
  }

  lemma RemembersOneMore(st: CacheState, completed: seq<World>, w: World)
    requires Remembers(st, completed)
    ensures Remembers(CacheAfter(st, w), completed + [w])
  {
    CallsSoFar(completed, w);
  }

  lemma CallsSoFar(worlds: seq<World>, w: World)
    ensures After(CallsFor(worlds + [w])) ==
        Detect(After(CallsFor(worlds)), CallOf(w.clusterRoles, w.clusterRoleBindings)).recorded
  {
    var calls := CallsFor(worlds + [w]);
    assert calls[..|calls| - 1] == CallsFor(worlds);
  }

  /** Along the run every reflector's version is empty or a canonical decimal, and never decreases. */
  ghost predicate Advancing(worlds: seq<World>) {
    && (forall w | w in worlds :: ValidVersions(w.versions))
    && (forall i, j | 0 <= i < j < |worlds| :: VersionsGrow(worlds[i].versions, worlds[j].versions))
  }

  /** A synchronization is skipped exactly when no reflector moved since the last completed one. */
  lemma SkippedIffNothingMoved(worlds: seq<World>, w: World)
    requires worlds != [] && Advancing(worlds + [w])
    ensures Completed(worlds) != []
    ensures Skips(CacheAfterAll(worlds), w) <==> Completed(worlds)[|Completed(worlds)| - 1].versions == w.versions
  {
    CompletedAreListed(worlds);
    CacheRemembers(worlds);
    var last := Completed(worlds)[|Completed(worlds)| - 1];
    var i :| 0 <= i < |worlds| && worlds[i] == last;
    var all := worlds + [w];
    assert all[i] == last && all[|worlds|] == w && last in all && w in all;
    assert VersionsGrow(all[i].versions, all[|worlds|].versions);
    TokenIsFaithful(last.versions, w.versions);
  }

  /** Cluster roles and bindings can be listed, there is a cluster role, and no two of them share a version. */
  ghost predicate ClusterListed(worlds: seq<World>) {
    && (forall w | w in worlds :: w.clusterRoles.Ok? && w.clusterRoles.value != [] && w.clusterRoleBindings.Ok?)
    && (forall w, w', r, b | w in worlds && w' in worlds && r in w.clusterRoles.value &&
        b in w'.clusterRoleBindings.value ::
          r.meta.resourceVersion != b.meta.resourceVersion)
  }

  lemma ClusterCalls(worlds: seq<World>)
    requires ClusterListed(worlds)
    ensures ErrorFree(CallsFor(worlds)) && NeverShared(CallsFor(worlds))
    ensures forall c | c in CallsFor(worlds) :: c.roles.value != {}
  {
    forall c | c in CallsFor(worlds)
        ensures exists w | w in worlds :: c == CallOf(w.clusterRoles, w.clusterRoleBindings) {
      var i :| 0 <= i < |worlds| && CallsFor(worlds)[i] == c;
      assert worlds[i] in worlds;
    }
    forall c | c in CallsFor(worlds) ensures c.roles.Ok? && c.bindings.Ok? && c.roles.value != {} {
      var w :| w in worlds && c == CallOf(w.clusterRoles, w.clusterRoleBindings);
      assert w.clusterRoles.value[0] in w.clusterRoles.value;
      assert w.clusterRoles.value[0].meta.resourceVersion in c.roles.value;
    }
  }

  /** Because the change detector keeps mistaking binding versions for role versions, in an ordinary
      cluster every synchronization that is not skipped is a rebuild. */
  lemma EverySyncRebuilds(worlds: seq<World>, w: World)
    requires ClusterListed(worlds + [w])
    ensures Detected(CacheAfterAll(worlds), w).invalidate
  {
    CacheRemembers(worlds);
    CompletedAreListed(worlds);
    FewerAreListed(worlds, Completed(worlds), w);
    NextCallInvalidates(Completed(worlds), w);
  }

  lemma FewerAreListed(worlds: seq<World>, completed: seq<World>, w: World)
    requires ClusterListed(worlds + [w]) && forall x | x in completed :: x in worlds
    ensures ClusterListed(completed + [w])
  {
    assert forall x | x in completed + [w] :: x in worlds + [w];
  }

  lemma NextCallInvalidates(completed: seq<World>, w: World)
    requires ClusterListed(completed + [w])
    ensures Detect(After(CallsFor(completed)), CallOf(w.clusterRoles, w.clusterRoleBindings)).invalidate
  {
    ClusterCalls(completed + [w]);
    assert CallsFor(completed + [w]) == CallsFor(completed) + [CallOf(w.clusterRoles, w.clusterRoleBindings)];
    EveryCallInvalidates(CallsFor(completed), CallOf(w.clusterRoles, w.clusterRoleBindings));
  }

  lemma CurrentAfterRebuild(init: seq<World>, w: World)
    requires ClusterListed(init + [w])
    ensures Current(CacheAfter(CacheAfterAll(init), w).index, w)
  {
    EverySyncRebuilds(init, w);
    RebuildIsCurrent(w);
  }

  /** So the index is always current for the last completed synchronization, deletions included. */
  lemma {:induction false} AlwaysCurrent(worlds: seq<World>)
    requires worlds != [] && ClusterListed(worlds)
    ensures Completed(worlds) != []
    ensures forall w | IsLastCompleted(w, worlds) :: Current(CacheAfterAll(worlds).index, w)
  {
    var init, w := worlds[..|worlds| - 1], worlds[|worlds| - 1];
    assert init + [w] == worlds;
    LastSynchronization(init, w);
    if Skips(CacheAfterAll(init), w) {
      assert forall x | x in init :: x in worlds;
      AlwaysCurrent(init);
    } else {
      CurrentAfterRebuild(init, w);
    }
  }

  /** End to end over whole runs: in an ordinary cluster List always answers the RBAC decision as of the last
      completed synchronization, and (by `SkippedIffNothingMoved`) none is skipped once anything moved. */
  lemma ListIsAlwaysTheRbacDecision(worlds: seq<World>, ix: Index, w: World, user: UserInfo,
      answer: Result<seq<Namespace>, Error>)
    requires worlds != [] && ClusterListed(worlds)
    requires ix == CacheAfterAll(worlds).index && IsLastCompleted(w, worlds) && NamesAgree(w)
    requires forall n | n in Listed(w) :: ClusterSubjectsQualified(w.evaluator.policy, Reviewer.Action(n))
    requires ListAnswer(ix, w, user, answer)
    ensures RbacAnswer(w, user, answer)
  {
    AlwaysCurrent(worlds);
    CurrentIndexAnswers(ix, w, user, answer);
  }

  // ---- running again over the same informers ---------------------------------------------------

  /** Offering this note changes nothing: the watcher already knows what it says. */
  ghost predicate Settled(w: Watcher, note: Note, get: string -> Lookup) {
    w.overflow.None? && Offer(w, note, get) == w
  }

  lemma {:induction false} SettledNotified<W>(watchers: map<W, Watcher>, order: seq<W>, note: Note,
      get: string -> Lookup)
    requires forall id | id in order :: id in watchers && Settled(watchers[id], note, get)
    ensures Notified(watchers, order, note, get) == Told(watchers, false)
  {
    if order != [] {
      var init, last := order[..|order| - 1], order[|order| - 1];
      assert last in order && forall id | id in init :: id in order;
      SettledNotified(watchers, init, note, get);
      assert watchers[last := watchers[last]] == watchers;
    }
  }

  lemma {:induction false} SettledRound<W>(watchers: map<W, Watcher>, order: seq<W>, notes: seq<Note>,
      get: string -> Lookup)
    requires forall id | id in order :: id in watchers
    requires forall id, note | id in order && note in notes :: Settled(watchers[id], note, get)
    ensures AllNotified(watchers, order, notes, get) == Told(watchers, false)
  {
    if notes != [] {
      var init, last := notes[..|notes| - 1], notes[|notes| - 1];
      assert last in notes && forall note | note in init :: note in notes;
      SettledRound(watchers, order, init, get);
      SettledNotified(watchers, order, last, get);
    }
  }

  /** A watcher that tracks a current index has nothing to learn from the same informers. */
  lemma TrackingIsSettled(cache: CacheState, world: World, w: Watcher, note: Note)
    requires CacheInvariant(cache, world, true) && GetMatchesList(world) && Tracks(cache, w, true) && w.overflow.None?
    requires ReviewsCurrent(cache.index.reviews, world)
    requires note == ReviewNote(world.evaluator, note.namespace) ||
        (note == GoneNote(note.namespace) && note.namespace !in Listed(world))
    ensures note.namespace in Listed(world) ==> Review(world.evaluator, note.namespace).Ok? ==>
        Settled(w, note, world.getNamespace)
    ensures note.namespace !in Listed(world) ==> Settled(w, note, world.getNamespace)
  {
    var n := note.namespace;
    if Sees(w, n) {
      assert TracksAt(cache, w, n, true);
    }
  }

  /** Running again over the same informers is unobservable, whether it rebuilds or not: the index answers
      the same and no watcher receives an event. So nothing is lost by skipping. */
  lemma ResyncIsUnobservable<W>(s: System<W>, purged: seq<string>)
    requires Invariant(s, true) && GetMatchesList(s.world) && Current(s.cache.index, s.world)
    requires Enumerates(purged, s.cache.known - Listed(s.world))
    ensures SameAnswers(CacheAfter(s.cache, s.world).index, s.cache.index)
    ensures AllNotified(s.watchers, s.order, NotesOf(s.cache, s.world, purged), s.world.getNamespace) ==
        Told(s.watchers, false)
  {
    var w, base := s.world, Base(s.cache, s.world);
    ResyncStaysCurrent(s.cache, w);
    CurrentIsUnique(CacheAfter(s.cache, w).index, s.cache.index, w);
    forall id, note | id in s.order && note in NotesOf(s.cache, w, purged)
      ensures Settled(s.watchers[id], note, w.getNamespace)
    {
      assert KeepsUp(s.cache, s.watchers[id], s.origins[id], true);
      NotesAreKnown(s.cache, w, purged, note);
      TrackingIsSettled(s.cache, w, s.watchers[id], note);
    }
    SettledRound(s.watchers, s.order, NotesOf(s.cache, w, purged), w.getNamespace);
  }

  lemma ResyncStaysCurrent(cache: CacheState, w: World)
    requires Current(cache.index, w)
    ensures Current(CacheAfter(cache, w).index, w)
  {
    if Detected(cache, w).invalidate {
      RebuildIsCurrent(w);
    } else {
      IncrementalIsCurrentIff(cache.index, w);
    }
  }

  lemma NotesAreKnown(cache: CacheState, w: World, purged: seq<string>, note: Note)
    requires Enumerates(purged, cache.known - Listed(w)) && note in NotesOf(cache, w, purged)
    ensures (note == ReviewNote(w.evaluator, note.namespace) && Review(w.evaluator, note.namespace).Ok?)
         || (note == GoneNote(note.namespace) && note.namespace !in Listed(w))
  {
    if note in GoneNotes(purged) {
      GoneNotesTell(purged, cache.known - Listed(w), note.namespace);
      assert ToldAbout(GoneNotes(purged), note.namespace);
    } else {
      PassEffect(w.evaluator, Base(cache, w), Requests(w), note.namespace);
    }
  }
}
