/** From RBAC to the client of a watch: what a run of cache and watchers amounts to. */
module EndToEnd {
  import opened RbacTypes
  import opened SubjectLocator
  import opened Reviewer
  import opened Informers
  import opened Synchronization
  import opened Freshness
  import opened MixedRuns
  import opened ProjectWatcher
  import opened WatchProgress
  import opened WatchRuns

  // ---- the cache in a run ----------------------------------------------------------------------

  /** The states of the informers a run synchronizes with, skipped or not. */
  function SyncWorlds<W>(steps: seq<Step<W>>): seq<World> {
    if steps == [] then []
    else
      var last := steps[|steps| - 1];
      SyncWorlds(steps[..|steps| - 1]) + if last.Sync? then [last.w] else []
  }

  /** Whatever watchers do meanwhile, the cache goes through the states of its own runs, and the lister is that
      of its last completed synchronization. */
  lemma {:induction false} RunsOfTheCache<W>(run: seq<System<W>>, steps: seq<Step<W>>)
    requires IsRun(run, steps)
    ensures Synchronized(run[|run| - 1], SyncWorlds(steps))
    decreases |steps|
  {
    if steps != [] {
      var k := |steps| - 1;
      RunsOfTheCache(run[..|steps|], steps[..k]);
      StepStaysSynchronized(run[k], SyncWorlds(steps[..k]), steps[k], run[k + 1]);
    }
  }

  ghost predicate Synchronized<W>(s: System<W>, worlds: seq<World>) {
    s.cache == CacheAfterAll(worlds) && (worlds != [] ==> IsLastCompleted(s.world, worlds))
  }

  lemma StepStaysSynchronized<W>(s: System<W>, worlds: seq<World>, step: Step<W>, s': System<W>)
    requires Synchronized(s, worlds) && TakesTo(s, step, s')
    ensures Synchronized(s', worlds + if step.Sync? then [step.w] else [])
  {
    if step.Sync? {
      LastSynchronization(worlds, step.w);
      if Skips(s.cache, step.w) {
        assert Completed(worlds + [step.w]) == Completed(worlds);
      } else {
        assert Completed(worlds + [step.w])[|Completed(worlds)|] == step.w;
      }
    } else {
      assert worlds + [] == worlds;
    }
  }

  /** Runs whose synchronizations can be told to leave a current index: in an ordinary cluster all of them, in
      any other those that can be followed since the last rebuild. */
  ghost predicate KeptCurrent(worlds: seq<World>) {
    worlds != [] && (ClusterListed(worlds) || Followed(SinceRebuild(worlds)))
  }

  lemma RunIsCurrent<W>(run: seq<System<W>>, steps: seq<Step<W>>, s: System<W>)
    requires IsRun(run, steps) && s == run[|run| - 1] && KeptCurrent(SyncWorlds(steps))
    ensures Current(s.cache.index, s.world) && s.cache.known == Listed(s.world)
  {
    RunsOfTheCache(run, steps);
    SynchronizedIsCurrent(s, SyncWorlds(steps));
  }

  lemma SynchronizedIsCurrent<W>(s: System<W>, worlds: seq<World>)
    requires Synchronized(s, worlds) && KeptCurrent(worlds)
    ensures Current(s.cache.index, s.world) && s.cache.known == Listed(s.world)
  {
    CacheRemembers(worlds);
    if ClusterListed(worlds) {
      AlwaysCurrent(worlds);
    } else {
      RunStaysCurrent(worlds, s.cache.index, s.world);
    }
  }

  /** A run whose every synchronization finds Get matching List is steady. */
  lemma {:induction false} MatchingRunIsSteady<W>(run: seq<System<W>>, steps: seq<Step<W>>)
    requires IsRun(run, steps) && forall w | w in SyncWorlds(steps) :: GetMatchesList(w)
    ensures SteadyRun(run, steps, false)
    decreases |steps|
  {
    if steps != [] {
      var k := |steps| - 1;
      var init := steps[..k];
      assert forall w | w in SyncWorlds(init) :: w in SyncWorlds(steps);
      MatchingRunIsSteady(run[..k + 1], init);
      RunsOfTheCache(run[..k + 1], init);
      RunKeepsInvariant(run[..k + 1], init, false);
      MatchingStepIsSteady(run[k], SyncWorlds(init), steps[k]);
      SteadyFurther(run, steps);
    }
  }

  lemma SteadyFurther<W>(run: seq<System<W>>, steps: seq<Step<W>>)
    requires steps != [] && |run| == |steps| + 1
    requires SteadyRun(run[..|steps|], steps[..|steps| - 1], false)
    requires SteadyStep(run[|steps| - 1], steps[|steps| - 1], false)
    ensures SteadyRun(run, steps, false)
  {
    var k := |steps| - 1;
    forall i | 0 <= i < |steps| ensures SteadyStep(run[i], steps[i], false) {
      if i < k {
        assert SteadyStep(run[..k + 1][i], steps[..k][i], false);
      }
    }
  }

  lemma MatchingStepIsSteady<W>(s: System<W>, worlds: seq<World>, step: Step<W>)
    requires Registered(s) && Synchronized(s, worlds) && CacheInvariant(s.cache, s.world, false)
    requires forall w | w in worlds :: GetMatchesList(w)
    requires step.Sync? ==> GetMatchesList(step.w)
    ensures SteadyStep(s, step, false)
  {
    if step.Sync? {
      MatchingIsSteady(s, step.w);
    }
    if step.Register? {
      CompletedAreListed(worlds);
      MatchingIsRegistrable(s, worlds, step.user);
    }
  }

  lemma MatchingIsRegistrable<W>(s: System<W>, worlds: seq<World>, user: UserInfo)
    requires Synchronized(s, worlds) && CacheInvariant(s.cache, s.world, false)
    requires forall w | IsLastCompleted(w, worlds) :: GetMatchesList(w)
    ensures Registrable(s, user, false)
  {
    forall n | n in IndexedFor(s.cache.index, user) ensures s.world.getNamespace(n).Found? {
      IndexedIffReviewed(s.cache.index, user, n);
      assert n in Listed(s.world);
      var ns :| ns in s.world.namespaces.value && ns.name == n;
    }
  }

  // ---- from RBAC to the watcher ----------------------------------------------------------------

  /** A watcher knows, of the namespaces it sees that are not listed or can be reviewed, exactly the listed ones
      that RBAC, as of the last completed synchronization, lets its user get. */
  lemma WatcherKnowsTheRbacDecision<W>(run: seq<System<W>>, steps: seq<Step<W>>, s: System<W>, id: W, n: string)
    requires IsRun(run, steps) && s == run[|run| - 1] && !s.stuck
    requires SteadyRun(run, steps, false) && KeptCurrent(SyncWorlds(steps))
    requires id in s.order && id in s.watchers && Sees(s.watchers[id], n)
    requires Decidable(s.world, n)
    ensures n in s.watchers[id].known <==> n in Listed(s.world) && MayGet(s.world, s.watchers[id].user, n)
  {
    RunKeepsInvariant(run, steps, false);
    RunIsCurrent(run, steps, s);
    KnownIffIndexed(s, id, n, false);
    if n in Listed(s.world) {
      CurrentIndexDecides(s.cache.index, s.world, s.watchers[id].user, n);
    } else {
      IndexedIffReviewed(s.cache.index, s.watchers[id].user, n);
    }
  }

  /** The namespaces RBAC lets a user get. */
  ghost function Gettable(w: World, user: UserInfo): set<string> {
    if w.namespaces.Ok? then set ns | ns in w.namespaces.value && MayGet(w, user, ns.name) :: ns.name else {}
  }

  /** The last completed synchronization can decide about this namespace: it is not listed, or it was reviewed
      without error and allowing cluster bindings qualify the ServiceAccounts they name. */
  ghost predicate Decidable(w: World, n: string) {
    n in Listed(w) ==> Review(w.evaluator, n).Ok? && ClusterSubjectsQualified(w.evaluator.policy, Reviewer.Action(n))
  }

  /** What the client of a watcher arrives at by replaying what it has received and is still to receive, from
      nothing if it asked for existing projects, else from what List answered when it registered. */
  ghost function Replayed<W>(s: System<W>, id: W): map<string, string>
    requires id in s.watchers && id in s.origins && s.watchers[id].output.taken <= |Stream(s.watchers[id])|
  {
    var o, w := s.origins[id], s.watchers[id];
    var start := if o.includeExisting then map[] else KnownFrom(o.listed);
    Replay(Replay(start, Handed(w.output)), Stream(w)[w.output.taken..])
  }

  /** End to end. After any run that can be kept current, a client of a watch that has not stopped arrives, of the
      namespaces its watcher sees and the last synchronization could decide about, at exactly those RBAC lets its
      user get. */
  lemma ReplayIsTheRbacDecision<W>(run: seq<System<W>>, steps: seq<Step<W>>, s: System<W>, id: W)
    requires IsRun(run, steps) && s == run[|run| - 1] && !s.stuck
    requires SteadyRun(run, steps, false) && KeptCurrent(SyncWorlds(steps))
    requires id in s.order && id in s.watchers && id in s.origins && !s.watchers[id].output.stopped
    ensures s.watchers[id].output.taken <= |Stream(s.watchers[id])|
    ensures forall n | Sees(s.watchers[id], n) && Decidable(s.world, n) ::
              n in Replayed(s, id) <==> n in Gettable(s.world, s.watchers[id].user)
    ensures ALL_NAMESPACES in s.watchers[id].visible && (forall n :: Decidable(s.world, n)) ==>
              Replayed(s, id).Keys == Gettable(s.world, s.watchers[id].user)
  {
    ReplayGivesKnown(run, steps, s, id);
    assert Replayed(s, id) == s.watchers[id].known;
    forall n | Sees(s.watchers[id], n) && Decidable(s.world, n)
      ensures n in Replayed(s, id) <==> n in Gettable(s.world, s.watchers[id].user)
    {
      WatcherKnowsTheRbacDecision(run, steps, s, id, n);
    }
  }

  /** ... and can receive all of it with no further notification: the goroutine and the receiving client, by their
      own steps, get to where the events received alone replay to what RBAC lets the user get. */
  lemma ReceivedIsTheRbacDecision<W>(run: seq<System<W>>, steps: seq<Step<W>>, s: System<W>, id: W)
    returns (actions: seq<Action>)
    requires IsRun(run, steps) && s == run[|run| - 1] && !s.stuck
    requires SteadyRun(run, steps, false) && KeptCurrent(SyncWorlds(steps)) && forall n :: Decidable(s.world, n)
    requires id in s.order && id in s.watchers && id in s.origins && !s.watchers[id].output.stopped
    requires ALL_NAMESPACES in s.watchers[id].visible
    ensures CanRun(s.watchers[id], actions) && forall a | a in actions :: a in {TakeInitial, TakeEvent, Deliver}
    ensures var o, received := s.origins[id], RunActions(s.watchers[id], actions).output.outgoing;
      Replay(if o.includeExisting then map[] else KnownFrom(o.listed), received).Keys ==
          Gettable(s.world, s.watchers[id].user)
  {
    RunKeepsInvariant(run, steps, false);
    assert Made(s.watchers[id], s.origins[id]) && KeepsUp(s.cache, s.watchers[id], s.origins[id], false);
    actions := CatchesUp(s.watchers[id]);
    ReplayGivesKnown(run, steps, s, id);
    KnownIsGettable(run, steps, s, id);
  }

  lemma KnownIsGettable<W>(run: seq<System<W>>, steps: seq<Step<W>>, s: System<W>, id: W)
    requires IsRun(run, steps) && s == run[|run| - 1] && !s.stuck
    requires SteadyRun(run, steps, false) && KeptCurrent(SyncWorlds(steps)) && forall n :: Decidable(s.world, n)
    requires id in s.order && id in s.watchers && ALL_NAMESPACES in s.watchers[id].visible
    ensures s.watchers[id].known.Keys == Gettable(s.world, s.watchers[id].user)
  {
    forall n ensures n in s.watchers[id].known <==> n in Gettable(s.world, s.watchers[id].user) {
      WatcherKnowsTheRbacDecision(run, steps, s, id, n);
    }
  }

  /** In particular in an ordinary cluster, where cluster roles and bindings can be listed, there is a cluster
      role and no two of them share a version, if Get always matches List. */
  lemma ReplayInAnOrdinaryCluster<W>(run: seq<System<W>>, steps: seq<Step<W>>, s: System<W>, id: W)
    requires IsRun(run, steps) && s == run[|run| - 1] && !s.stuck
    requires SyncWorlds(steps) != [] && ClusterListed(SyncWorlds(steps))
    requires forall w | w in SyncWorlds(steps) :: GetMatchesList(w)
    requires id in s.order && id in s.watchers && id in s.origins && !s.watchers[id].output.stopped
    requires ALL_NAMESPACES in s.watchers[id].visible && forall n :: Decidable(s.world, n)
    ensures s.watchers[id].output.taken <= |Stream(s.watchers[id])|
    ensures Replayed(s, id).Keys == Gettable(s.world, s.watchers[id].user)
  {
    MatchingRunIsSteady(run, steps);
    ReplayIsTheRbacDecision(run, steps, s, id);
  }
}
