/** The cache and watcher objects against the runs of the model. */
module ObjectRuns {
  import opened Common
  import opened RbacTypes
  import opened SubjectLocator
  import opened AccessIndex
  import opened Informers
  import opened SkipToken
  import opened Synchronization
  import opened Freshness
  import opened ProjectWatcher
  import opened Notifications
  import opened WatchRuns
  import opened EndToEnd
  import opened WatcherObjects
  import opened AuthorizationCaches

  // ---- objects and model -----------------------------------------------------------------------

  /** Where a cache and its registered watchers are; nothing is said of a cache that is stuck. */
  datatype Place<!W(==)> = Place(cache: Option<CacheState>, order: seq<W>, states: map<W, Watcher>, stuck: bool)

  ghost function PlaceOf<W>(s: System<W>): Place<W> {
    Place(if s.stuck then None else Some(s.cache), s.order, Registrants(s), s.stuck)
  }

  ghost function Registrants<W>(s: System<W>): map<W, Watcher> {
    map id | id in s.order && id in s.watchers :: s.watchers[id]
  }

  ghost function PlaceOfObjects(cache: AuthorizationCache, stuck: bool): Place<UserProjectWatcher>
    requires cache.WatchersValid()
    reads cache, cache.stores.users, cache.stores.groups, cache.stores.reviews,
          cache.clusterRoleResourceVersions, cache.clusterRoleBindingResourceVersions, cache.watchers
  {
    Place(if stuck then None else Some(cache.State()), cache.watchers, cache.WatcherStates(), stuck)
  }

  /** The objects are where the model is; watchers no longer registered may have gone on elsewhere. */
  ghost predicate Represents(cache: AuthorizationCache, s: System<UserProjectWatcher>, stuck: bool)
    requires cache.WatchersValid()
    reads cache, cache.stores.users, cache.stores.groups, cache.stores.reviews,
          cache.clusterRoleResourceVersions, cache.clusterRoleBindingResourceVersions, cache.watchers
  {
    PlaceOfObjects(cache, stuck) == PlaceOf(s)
  }

  /** A run of the model that has brought the objects to where they are. */
  ghost predicate Ran(cache: AuthorizationCache, run: seq<System<UserProjectWatcher>>,
                      steps: seq<Step<UserProjectWatcher>>, stuck: bool)
    requires cache.WatchersValid()
    reads cache, cache.stores.users, cache.stores.groups, cache.stores.reviews,
          cache.clusterRoleResourceVersions, cache.clusterRoleBindingResourceVersions, cache.watchers
  {
    IsRun(run, steps) && Represents(cache, run[|run| - 1], stuck)
  }

  lemma {:induction false} RunIsRegistered<W>(run: seq<System<W>>, steps: seq<Step<W>>)
    requires IsRun(run, steps)
    ensures Registered(run[|run| - 1])
    decreases |steps|
  {
    if steps != [] {
      var k := |steps| - 1;
      if steps[k].Remove? {
        RemoveFirstKeeps(run[k].order, steps[k].removed);
      }
    }
  }

  // ---- the steps -------------------------------------------------------------------------------

  /** A synchronization of the objects is one of the model. */
  method SynchronizeStep(cache: AuthorizationCache, w: World, ghost s: System<UserProjectWatcher>)
    returns (stuck: bool, ghost step: Step<UserProjectWatcher>, ghost s': System<UserProjectWatcher>)
    requires cache.Valid() && Registered(s) && Represents(cache, s, false)
    modifies cache, cache.stores.Repr, cache.watchers
    ensures cache.Valid() && cache.watchers == old(cache.watchers) && fresh(cache.stores.Repr - old(cache.stores.Repr))
    ensures TakesTo(s, step, s') && step.Sync? && step.w == w && Represents(cache, s', stuck)
  {
    ghost var place := PlaceOfObjects(cache, false);
    var halted, purged := cache.Synchronize(w);
    stuck := halted;
    step, s' := SyncIsAStep(s, w, purged, place, PlaceOfObjects(cache, stuck));
  }

  lemma SyncIsAStep<W>(s: System<W>, w: World, purged: seq<string>, place: Place<W>, place': Place<W>)
    returns (step: Step<W>, s': System<W>)
    requires Registered(s) && place == PlaceOf(s) && !place.stuck && place'.order == place.order
    requires Skips(s.cache, w) ==> place' == place
    requires !Skips(s.cache, w) ==>
               && Enumerates(purged, s.cache.known - Listed(w))
               && (forall id | id in place.order :: id in place.states)
               && Told(place'.states, place'.stuck) ==
                  AllNotified(place.states, place.order, NotesOf(s.cache, w, purged), w.getNamespace)
               && place'.cache == if place'.stuck then None else Some(CacheAfter(s.cache, w))
    ensures TakesTo(s, step, s') && step.Sync? && step.w == w && place' == PlaceOf(s')
  {
    if Skips(s.cache, w) {
      var gone := EnumerationExists(s.cache.known - Listed(w));
      step := Sync(w, gone);
      s' := Take(s, step);
    } else {
      RoundAmong(Registrants(s), s.watchers, s.order, NotesOf(s.cache, w, purged), w.getNamespace);
      step := Sync(w, purged);
      s' := Take(s, step);
      assert Registrants(s') == place'.states;
    }
  }

  /** A watch begun with the lister as at the last synchronization registers its watcher. */
  method WatchStep(cache: AuthorizationCache, user: UserInfo, visible: set<string>, includeExisting: bool, w: World,
                   ghost s: System<UserProjectWatcher>)
    returns (watcher: Result<UserProjectWatcher, Error>,
             ghost step: Step<UserProjectWatcher>, ghost s': System<UserProjectWatcher>)
    requires cache.Valid() && Registered(s) && Represents(cache, s, false) && s.world == w
    modifies cache`watchers
    ensures cache.Valid() && Represents(cache, s', false) && s'.world == w
    ensures watcher.Err? ==>
              && s' == s && cache.watchers == old(cache.watchers)
              && ListAnswer(s.cache.index, w, user, Err(watcher.error))
    ensures watcher.Ok? ==>
              && fresh(watcher.value) && cache.watchers == old(cache.watchers) + [watcher.value]
              && TakesTo(s, step, s') && step.Register? && step.id == watcher.value
              && step.user == user && step.visible == visible && step.includeExisting == includeExisting
  {
    ghost var place := PlaceOfObjects(cache, false);
    ghost var answer;
    watcher, answer := WatchQuietly(cache, user, visible, includeExisting, w);
    step, s' := Sync(w, []), s;
    if watcher.Ok? {
      step := Register(watcher.value, user, visible, includeExisting, answer.value);
      s' := WatchIsAStep(s, place, step);
    }
  }

  /** Watch, which only adds a watcher. */
  method WatchQuietly(cache: AuthorizationCache, user: UserInfo, visible: set<string>, includeExisting: bool, w: World)
    returns (watcher: Result<UserProjectWatcher, Error>, ghost answer: Result<seq<Namespace>, Error>)
    requires cache.Valid()
    modifies cache`watchers
    ensures cache.Valid() && watcher.Ok? == answer.Ok? && (watcher.Err? ==> watcher.error == answer.error)
    ensures ListAnswer(old(cache.State()).index, w, user, answer)
    ensures watcher.Err? ==>
              cache.watchers == old(cache.watchers) && PlaceOfObjects(cache, false) == old(PlaceOfObjects(cache, false))
    ensures watcher.Ok? ==>
              && fresh(watcher.value) && cache.watchers == old(cache.watchers) + [watcher.value]
              && PlaceOfObjects(cache, false) ==
                 With(old(PlaceOfObjects(cache, false)), watcher.value,
                     NewWatcher(user, visible, answer.value, includeExisting))
  {
    watcher, answer := cache.Watch(user, visible, includeExisting, w);
  }

  /** A place with one watcher more. */
  ghost function With<W>(place: Place<W>, id: W, w: Watcher): Place<W> {
    place.(order := place.order + [id], states := place.states[id := w])
  }

  lemma WatchIsAStep<W>(s: System<W>, place: Place<W>, step: Step<W>) returns (s': System<W>)
    requires Registered(s) && place == PlaceOf(s) && !place.stuck
    requires step.Register? && step.id !in s.watchers && ListAnswer(s.cache.index, s.world, step.user, Ok(step.listed))
    ensures TakesTo(s, step, s') && s'.world == s.world
    ensures PlaceOf(s') == With(place, step.id, NewWatcher(step.user, step.visible, step.listed, step.includeExisting))
  {
    s' := Take(s, step);
    assert Registrants(s') ==
           Registrants(s)[step.id := NewWatcher(step.user, step.visible, step.listed, step.includeExisting)];
  }

  /** A watcher that is removed leaves the model's order. */
  method RemoveStep(cache: AuthorizationCache, watcher: UserProjectWatcher, ghost s: System<UserProjectWatcher>)
    returns (ghost step: Step<UserProjectWatcher>, ghost s': System<UserProjectWatcher>)
    requires cache.Valid() && Registered(s) && Represents(cache, s, false)
    modifies cache`watchers
    ensures cache.Valid() && Represents(cache, s', false) && s'.world == s.world
    ensures TakesTo(s, step, s') && step == Remove(watcher)
    ensures forall other | other in cache.watchers :: other in old(cache.watchers)
  {
    ghost var place := PlaceOfObjects(cache, false);
    RemoveFirstKeeps(cache.watchers, watcher);
    RemoveQuietly(cache, watcher);
    step := Remove(watcher);
    s' := RemoveIsAStep(s, place, watcher);
  }

  /** RemoveWatcher, which leaves the watchers that stay alone. */
  method RemoveQuietly(cache: AuthorizationCache, watcher: UserProjectWatcher)
    requires cache.Valid()
    modifies cache`watchers
    ensures cache.Valid() && cache.State() == old(cache.State())
    ensures cache.watchers == RemoveFirst(old(cache.watchers), watcher)
    ensures cache.WatcherStates() == Only(old(cache.WatcherStates()), cache.watchers)
  {
    RemoveFirstKeeps(cache.watchers, watcher);
    cache.RemoveWatcher(watcher);
  }

  ghost function Only<W>(states: map<W, Watcher>, order: seq<W>): map<W, Watcher> {
    map id | id in order && id in states :: states[id]
  }

  lemma RemoveIsAStep<W>(s: System<W>, place: Place<W>, id: W) returns (s': System<W>)
    requires Registered(s) && place == PlaceOf(s) && !place.stuck
    ensures TakesTo(s, Remove(id), s') && s'.world == s.world
    ensures PlaceOf(s') ==
            place.(order := RemoveFirst(place.order, id), states := Only(place.states, RemoveFirst(place.order, id)))
  {
    s' := Take(s, Remove(id));
    RemoveFirstKeeps(s.order, id);
    assert Registrants(s') == Only(Registrants(s), s'.order);
  }

  /** A step of a watcher's goroutine or its client. */
  method ActStep(cache: AuthorizationCache, watcher: UserProjectWatcher, action: Action,
      ghost s: System<UserProjectWatcher>)
    returns (ghost step: Step<UserProjectWatcher>, ghost s': System<UserProjectWatcher>)
    requires cache.Valid() && Registered(s) && Represents(cache, s, false)
    requires watcher in cache.watchers && watcher.CanPerform(action)
    modifies watcher
    ensures cache.Valid() && Represents(cache, s', false) && s'.world == s.world
    ensures TakesTo(s, step, s') && step == Activity(watcher, action)
  {
    ghost var place := PlaceOfObjects(cache, false);
    PerformQuietly(cache, watcher, action);
    step := Activity(watcher, action);
    s' := ActIsAStep(s, place, watcher, action);
  }

  /** Perform, which leaves the cache and all other watchers alone. */
  method PerformQuietly(cache: AuthorizationCache, watcher: UserProjectWatcher, action: Action)
    requires cache.Valid() && watcher in cache.watchers && watcher.CanPerform(action)
    modifies watcher
    ensures cache.Valid() && cache.State() == old(cache.State())
    ensures cache.WatcherStates() == old(cache.WatcherStates())[watcher := Act(old(watcher.State()), action)]
  {
    ghost var states := cache.WatcherStates();
    watcher.Perform(action);
    cache.OneChanged(states, watcher);
  }

  lemma ActIsAStep<W>(s: System<W>, place: Place<W>, id: W, action: Action) returns (s': System<W>)
    requires Registered(s) && place == PlaceOf(s) && !place.stuck && id in place.states
    requires !action.Notify? && Enabled(place.states[id], action)
    ensures TakesTo(s, Activity(id, action), s') && s'.world == s.world
    ensures PlaceOf(s') == place.(states := place.states[id := Act(place.states[id], action)])
  {
    s' := Take(s, Activity(id, action));
    assert Registrants(s') == Registrants(s)[id := Act(s.watchers[id], action)];
  }

  // ---- runs ------------------------------------------------------------------------------------

  /** Run, as the repeated synchronization it is: over whatever the informers hold each time, the objects, cache
      and watchers, go through the states of the model until a watcher's full queue brings them to a halt. */
  method Run(cache: AuthorizationCache, worlds: seq<World>,
             ghost run0: seq<System<UserProjectWatcher>>, ghost steps0: seq<Step<UserProjectWatcher>>)
    returns (stuck: bool, ghost run: seq<System<UserProjectWatcher>>, ghost steps: seq<Step<UserProjectWatcher>>)
    requires cache.Valid() && Ran(cache, run0, steps0, false)
    modifies cache, cache.stores.Repr, cache.watchers
    ensures cache.Valid() && cache.watchers == old(cache.watchers) && fresh(cache.stores.Repr - old(cache.stores.Repr))
    ensures Ran(cache, run, steps, stuck)
    ensures forall step | step in steps :: step in steps0 || step.Sync?
    ensures !stuck ==>
              && SyncWorlds(steps) == SyncWorlds(steps0) + worlds
              && cache.State() == CacheAfterAll(SyncWorlds(steps0) + worlds)
  {
    ghost var done;
    stuck, run, steps, done := SynchronizeInTurn(cache, worlds, run0, steps0);
    ExtendsBySyncs(steps0, steps, worlds[..done]);
    RunsOfTheCache(run, steps);
    assert !stuck ==> worlds[..done] == worlds;
  }

  method SynchronizeInTurn(cache: AuthorizationCache, worlds: seq<World>,
                           ghost run0: seq<System<UserProjectWatcher>>, ghost steps0: seq<Step<UserProjectWatcher>>)
    returns (stuck: bool, ghost run: seq<System<UserProjectWatcher>>, ghost steps: seq<Step<UserProjectWatcher>>,
             ghost done: nat)
    requires cache.Valid() && Ran(cache, run0, steps0, false)
    modifies cache, cache.stores.Repr, cache.watchers
    ensures cache.Valid() && cache.watchers == old(cache.watchers) && fresh(cache.stores.Repr - old(cache.stores.Repr))
    ensures Ran(cache, run, steps, stuck)
    ensures done <= |worlds| && Extends(steps0, steps, worlds[..done]) && (!stuck ==> done == |worlds|)
  {
    ghost var watchers, repr := cache.watchers, cache.stores.Repr;
    var i := 0;
    stuck, run, steps := false, run0, steps0;
    while i < |worlds| && !stuck
      invariant i <= |worlds| && cache.Valid() && cache.watchers == watchers && fresh(cache.stores.Repr - repr)
      invariant Ran(cache, run, steps, stuck) && Extends(steps0, steps, worlds[..i])
    {
      stuck, run, steps := SynchronizeNext(cache, worlds, i, run, steps, steps0);
      i := i + 1;
    }
    done := i;
  }

  /** A synchronization as the next step of a run. */
  method SynchronizeNext(cache: AuthorizationCache, worlds: seq<World>, i: nat,
                         ghost run0: seq<System<UserProjectWatcher>>, ghost steps0: seq<Step<UserProjectWatcher>>,
                         ghost start: seq<Step<UserProjectWatcher>>)
    returns (stuck: bool, ghost run: seq<System<UserProjectWatcher>>, ghost steps: seq<Step<UserProjectWatcher>>)
    requires cache.Valid() && Ran(cache, run0, steps0, false) && i < |worlds| && Extends(start, steps0, worlds[..i])
    modifies cache, cache.stores.Repr, cache.watchers
    ensures cache.Valid() && cache.watchers == old(cache.watchers) && fresh(cache.stores.Repr - old(cache.stores.Repr))
    ensures Ran(cache, run, steps, stuck) && Extends(start, steps, worlds[..i + 1])
  {
    ghost var step, s;
    RunIsRegistered(run0, steps0);
    stuck, step, s := SynchronizeStep(cache, worlds[i], run0[|run0| - 1]);
    OneStepMore(run0, steps0, step, s);
    ExtendsFurther(start, steps0, worlds, i, step);
    run, steps := run0 + [s], steps0 + [step];
  }

  /** The steps after `steps0` synchronize with these worlds. */
  ghost predicate Extends<W>(steps0: seq<Step<W>>, steps: seq<Step<W>>, worlds: seq<World>)
    decreases |worlds|
  {
    if worlds == [] then steps == steps0
    else
      && steps != [] && steps[|steps| - 1].Sync? && steps[|steps| - 1].w == worlds[|worlds| - 1]
      && Extends(steps0, steps[..|steps| - 1], worlds[..|worlds| - 1])
  }

  lemma ExtendsFurther<W>(steps0: seq<Step<W>>, steps: seq<Step<W>>, worlds: seq<World>, i: nat, step: Step<W>)
    requires i < |worlds| && Extends(steps0, steps, worlds[..i]) && step.Sync? && step.w == worlds[i]
    ensures Extends(steps0, steps + [step], worlds[..i + 1])
  {
    assert worlds[..i + 1][..i] == worlds[..i] && (steps + [step])[..|steps|] == steps;
  }

  lemma {:induction false} ExtendsBySyncs<W>(steps0: seq<Step<W>>, steps: seq<Step<W>>, worlds: seq<World>)
    requires Extends(steps0, steps, worlds)
    ensures SyncWorlds(steps) == SyncWorlds(steps0) + worlds
    ensures forall step | step in steps :: step in steps0 || step.Sync?
    decreases |worlds|
  {
    if worlds != [] {
      ExtendsBySyncs(steps0, steps[..|steps| - 1], worlds[..|worlds| - 1]);
    }
  }

  /** A cache run from its creation on, before any watcher comes, is never brought to a halt. */
  method RunFromTheStart(worlds: seq<World>) returns (cache: AuthorizationCache)
    ensures fresh(cache) && fresh(cache.stores.Repr) && cache.Valid() && cache.watchers == []
    ensures cache.State() == CacheAfterAll(worlds)
  {
    cache := new AuthorizationCache();
    NewIsInitial(cache);
    var stuck, run, steps := Run(cache, worlds, [InitialSystem(NothingYet())], []);
    NobodyStuck(run, steps);
    assert SyncWorlds<UserProjectWatcher>([]) + worlds == worlds;
  }

  /** Informers that hold nothing, as before a cache's first synchronization. */
  function NothingYet(): World {
    World(Versions("", "", "", "", ""), Ok([]), n => NotFound, Ok([]), Ok([]), Ok([]), Ok([]),
          Evaluator("", Policy((ns, n) => Err("not found"), ns => Ok([]), n => Err("not found"), Ok([]))))
  }

  lemma NewIsInitial(cache: AuthorizationCache)
    requires cache.WatchersValid() && cache.State() == NEW_CACHE && cache.watchers == []
    ensures Ran(cache, [InitialSystem(NothingYet())], [], false)
  {
  }

  lemma {:induction false} NobodyStuck<W>(run: seq<System<W>>, steps: seq<Step<W>>)
    requires IsRun(run, steps) && forall step | step in steps :: step.Sync?
    ensures !run[|run| - 1].stuck && run[|run| - 1].order == []
    decreases |steps|
  {
    if steps != [] {
      var k := |steps| - 1;
      var init, s, step := steps[..k], run[k], steps[k];
      assert forall x | x in init :: x in steps;
      NobodyStuck(run[..k + 1], init);
      assert step in steps;
      RoundForNobody(s.watchers, NotesOf(s.cache, step.w, step.purged), step.w.getNamespace);
    }
  }

  lemma {:induction false} RoundForNobody<W>(watchers: map<W, Watcher>, notes: seq<Note>, get: string -> Lookup)
    ensures AllNotified(watchers, [], notes, get) == Told(watchers, false)
  {
    if notes != [] {
      RoundForNobody(watchers, notes[..|notes| - 1], get);
    }
  }

  // ---- whatever is asked of them ---------------------------------------------------------------

  /** What can be asked of a cache and its watchers; `i` counts the registered watchers. */
  datatype Command =
    | Synchronizing(w: World)
    | Watching(user: UserInfo, visible: set<string>, includeExisting: bool)
    | Removing(i: nat)
    | Acting(i: nat, action: Action)

  /** The worlds to synchronize with, in order. */
  function CommandWorlds(commands: seq<Command>): seq<World> {
    if commands == [] then []
    else
      var last := commands[|commands| - 1];
      CommandWorlds(commands[..|commands| - 1]) + if last.Synchronizing? then [last.w] else []
  }

  /** The steps a command amounts to: one, or none if List fails for a watch, there is no such watcher, or it
      cannot perform the action. */
  ghost predicate Obeyed<W>(s: System<W>, command: Command, taken: seq<Step<W>>) {
    match command
    case Synchronizing(w) => |taken| == 1 && taken[0].Sync? && taken[0].w == w
    case Watching(user, visible, includeExisting) =>
      if taken == [] then exists error :: ListAnswer(s.cache.index, s.world, user, Err(error))
      else
        && |taken| == 1 && taken[0].Register? && taken[0].user == user
        && taken[0].visible == visible && taken[0].includeExisting == includeExisting
    case Removing(i) => taken == if i < |s.order| then [Remove(s.order[i])] else []
    case Acting(i, action) => taken == if CanAct(s, i, action) then [Activity(s.order[i], action)] else []
  }

  ghost predicate CanAct<W>(s: System<W>, i: nat, action: Action) {
    && i < |s.order| && s.order[i] in s.watchers
    && !action.Notify? && Enabled(s.watchers[s.order[i]], action)
  }

  /** The run takes the steps these commands amount to, and no other. */
  ghost predicate Obeys<W>(run: seq<System<W>>, steps: seq<Step<W>>, commands: seq<Command>)
    decreases |commands|
  {
    if commands == [] then |run| == 1 && steps == []
    else
      var last, init := commands[|commands| - 1], commands[..|commands| - 1];
      || (run != [] && Obeyed(run[|run| - 1], last, []) && Obeys(run, steps, init))
      || (|run| > 1 && steps != [] && Obeyed(run[|run| - 2], last, [steps[|steps| - 1]])
          && Obeys(run[..|run| - 1], steps[..|steps| - 1], init))
  }

  lemma ObeysFurther<W>(run: seq<System<W>>, steps: seq<Step<W>>, commands: seq<Command>, i: nat,
      taken: seq<Step<W>>, s: System<W>)
    requires i < |commands| && run != [] && Obeys(run, steps, commands[..i])
    requires Obeyed(run[|run| - 1], commands[i], taken)
    ensures |taken| <= 1
    ensures Obeys(if taken == [] then run else run + [s], steps + taken, commands[..i + 1])
  {
    assert commands[..i + 1][..i] == commands[..i];
    if taken == [] {
      assert steps + taken == steps;
      ObeysWithout(run, steps, commands[..i + 1]);
    } else {
      assert (run + [s])[..|run|] == run && (steps + taken)[..|steps|] == steps;
      assert taken == [taken[0]];
      ObeysWith(run + [s], steps + taken, commands[..i + 1]);
    }
  }

  lemma ObeysWithout<W>(run: seq<System<W>>, steps: seq<Step<W>>, commands: seq<Command>)
    requires commands != [] && run != [] && Obeyed(run[|run| - 1], commands[|commands| - 1], [])
    requires Obeys(run, steps, commands[..|commands| - 1])
    ensures Obeys(run, steps, commands)
  {
  }

  lemma ObeysWith<W>(run: seq<System<W>>, steps: seq<Step<W>>, commands: seq<Command>)
    requires commands != [] && |run| > 1 && steps != []
    requires Obeyed(run[|run| - 2], commands[|commands| - 1], [steps[|steps| - 1]])
    requires Obeys(run[..|run| - 1], steps[..|steps| - 1], commands[..|commands| - 1])
    ensures Obeys(run, steps, commands)
  {
  }

  /** Such a run synchronizes with the commands' worlds. */
  lemma {:induction false} ObeysWorlds<W>(run: seq<System<W>>, steps: seq<Step<W>>, commands: seq<Command>)
    requires Obeys(run, steps, commands)
    ensures SyncWorlds(steps) == CommandWorlds(commands)
    decreases |commands|
  {
    if commands != [] {
      var last, init := commands[|commands| - 1], commands[..|commands| - 1];
      if run != [] && Obeyed(run[|run| - 1], last, []) && Obeys(run, steps, init) {
        ObeysWorlds(run, steps, init);
      } else {
        ObeysWorlds(run[..|run| - 1], steps[..|steps| - 1], init);
      }
    }
  }

  /** One command, with List and Get as at the last completed synchronization. */
  method Obey(cache: AuthorizationCache, command: Command, lister: World, ghost s: System<UserProjectWatcher>)
    returns (stuck: bool, lister': World,
             ghost taken: seq<Step<UserProjectWatcher>>, ghost s': System<UserProjectWatcher>)
    requires cache.Valid() && Registered(s) && Represents(cache, s, false) && s.world == lister
    modifies cache, cache.stores.Repr, cache.watchers
    ensures cache.Valid() && fresh(cache.stores.Repr - old(cache.stores.Repr))
    ensures forall watcher | watcher in cache.watchers :: watcher in old(cache.watchers) || fresh(watcher)
    ensures Obeyed(s, command, taken) && if taken == [] then s' == s else |taken| == 1 && TakesTo(s, taken[0], s')
    ensures s'.world == lister' && Represents(cache, s', stuck)
  {
    stuck, lister', taken, s' := false, lister, [], s;
    ghost var step;
    match command {
      case Synchronizing(w) =>
        stuck, lister', step, s' := SynchronizeAndSee(cache, w, lister, s);
        taken := [step];
      case Watching(_, _, _) => taken, s' := AskWatchers(cache, command, lister, s);
      case Removing(_) => taken, s' := AskWatchers(cache, command, lister, s);
      case Acting(_, _) => taken, s' := AskWatchers(cache, command, lister, s);
    }
  }

  /** A synchronization, and the lister as it leaves it. */
  method SynchronizeAndSee(cache: AuthorizationCache, w: World, lister: World, ghost s: System<UserProjectWatcher>)
    returns (stuck: bool, lister': World, ghost step: Step<UserProjectWatcher>, ghost s': System<UserProjectWatcher>)
    requires cache.Valid() && Registered(s) && Represents(cache, s, false) && s.world == lister
    modifies cache, cache.stores.Repr, cache.watchers
    ensures cache.Valid() && cache.watchers == old(cache.watchers) && fresh(cache.stores.Repr - old(cache.stores.Repr))
    ensures TakesTo(s, step, s') && step.Sync? && step.w == w && Represents(cache, s', stuck) && s'.world == lister'
  {
    lister' := if Token(w.versions) == cache.lastState then lister else w;
    stuck, step, s' := SynchronizeStep(cache, w, s);
  }

  /** A command other than to synchronize. */
  method AskWatchers(cache: AuthorizationCache, command: Command, lister: World, ghost s: System<UserProjectWatcher>)
    returns (ghost taken: seq<Step<UserProjectWatcher>>, ghost s': System<UserProjectWatcher>)
    requires cache.Valid() && Registered(s) && Represents(cache, s, false) && s.world == lister &&
        !command.Synchronizing?
    modifies cache`watchers, cache.watchers
    ensures cache.Valid() && Represents(cache, s', false) && s'.world == lister
    ensures forall watcher | watcher in cache.watchers :: watcher in old(cache.watchers) || fresh(watcher)
    ensures Obeyed(s, command, taken) && if taken == [] then s' == s else |taken| == 1 && TakesTo(s, taken[0], s')
  {
    taken, s' := [], s;
    ghost var step;
    match command {
      case Watching(user, visible, includeExisting) =>
        var watcher;
        watcher, step, s' := WatchStep(cache, user, visible, includeExisting, lister, s);
        taken := if watcher.Ok? then [step] else [];
      case Removing(i) =>
        if i < |cache.watchers| {
          step, s' := RemoveStep(cache, cache.watchers[i], s);
          taken := [step];
        }
      case Acting(i, action) => taken, s' := AskToAct(cache, i, action, s);
    }
  }

  method AskToAct(cache: AuthorizationCache, i: nat, action: Action, ghost s: System<UserProjectWatcher>)
    returns (ghost taken: seq<Step<UserProjectWatcher>>, ghost s': System<UserProjectWatcher>)
    requires cache.Valid() && Registered(s) && Represents(cache, s, false)
    modifies cache.watchers
    ensures cache.Valid() && Represents(cache, s', false) && s'.world == s.world
    ensures taken == if CanAct(s, i, action) then [Activity(s.order[i], action)] else []
    ensures if taken == [] then s' == s else TakesTo(s, taken[0], s')
  {
    taken, s' := [], s;
    if i < |cache.watchers| {
      SameWatcherState(cache, s, cache.watchers[i]);
      if cache.watchers[i].CanPerform(action) {
        ghost var step;
        step, s' := ActStep(cache, cache.watchers[i], action, s);
        taken := [step];
      }
    }
  }

  lemma SameWatcherState(cache: AuthorizationCache, s: System<UserProjectWatcher>, watcher: UserProjectWatcher)
    requires cache.WatchersValid() && Registered(s) && Represents(cache, s, false) && watcher in cache.watchers
    ensures watcher in s.order && watcher in s.watchers && s.watchers[watcher] == watcher.State()
  {
    assert Registrants(s)[watcher] == cache.WatcherStates()[watcher];
  }

  method ObeyNext(cache: AuthorizationCache, commands: seq<Command>, i: nat, lister: World,
                  ghost run0: seq<System<UserProjectWatcher>>, ghost steps0: seq<Step<UserProjectWatcher>>)
    returns (stuck: bool, lister': World,
             ghost run: seq<System<UserProjectWatcher>>, ghost steps: seq<Step<UserProjectWatcher>>)
    requires cache.Valid() && Ran(cache, run0, steps0, false) && run0[|run0| - 1].world == lister
    requires i < |commands| && Obeys(run0, steps0, commands[..i])
    modifies cache, cache.stores.Repr, cache.watchers
    ensures cache.Valid() && fresh(cache.stores.Repr - old(cache.stores.Repr))
    ensures forall watcher | watcher in cache.watchers :: watcher in old(cache.watchers) || fresh(watcher)
    ensures Ran(cache, run, steps, stuck) && run[|run| - 1].world == lister' && Obeys(run, steps, commands[..i + 1])
  {
    ghost var taken, s;
    RunIsRegistered(run0, steps0);
    stuck, lister', taken, s := Obey(cache, commands[i], lister, run0[|run0| - 1]);
    ObeysFurther(run0, steps0, commands, i, taken, s);
    run, steps := run0, steps0 + taken;
    if taken != [] {
      OneStepMore(run0, steps0, taken[0], s);
      run := run0 + [s];
      assert taken == [taken[0]];
    } else {
      assert steps == steps0;
    }
  }

  /** A cache and its watchers from the cache's creation on: whatever is asked of them, they go through the run of
      the model that takes just the steps asked for, all of them unless a full queue brings them to a halt. */
  method Serve(commands: seq<Command>)
    returns (cache: AuthorizationCache, stuck: bool, ghost run: seq<System<UserProjectWatcher>>,
             ghost steps: seq<Step<UserProjectWatcher>>, ghost done: nat)
    ensures fresh(cache) && cache.Valid() && Ran(cache, run, steps, stuck)
    ensures done <= |commands| && Obeys(run, steps, commands[..done]) && (!stuck ==> done == |commands|)
  {
    cache := new AuthorizationCache();
    NewIsInitial(cache);
    var lister := NothingYet();
    var i := 0;
    stuck, run, steps := false, [InitialSystem(lister)], [];
    while i < |commands| && !stuck
      invariant i <= |commands| && cache.Valid() && fresh(cache) && fresh(cache.stores.Repr)
      invariant fresh(set watcher | watcher in cache.watchers)
      invariant Ran(cache, run, steps, stuck) && run[|run| - 1].world == lister
      invariant Obeys(run, steps, commands[..i])
    {
      stuck, lister, run, steps := ObeyNext(cache, commands, i, lister, run, steps);
      i := i + 1;
    }
    done := i;
  }

  // ---- what the objects then know --------------------------------------------------------------

  /** Commands on which the objects can be held to RBAC: the informers' Get always matches their List, and the
      synchronizations keep the index current. */
  ghost predicate Accountable(commands: seq<Command>) {
    KeptCurrent(CommandWorlds(commands)) && forall w | w in CommandWorlds(commands) :: GetMatchesList(w)
  }

  /** After accountable commands, unless stuck, each registered watcher object of all namespaces knows exactly
      those RBAC, as of the last completed synchronization, lets its user get; and a client that has not stopped
      arrives at them by replaying what it has received and is still to receive. */
  lemma ObjectsKnowTheRbacDecision(cache: AuthorizationCache, run: seq<System<UserProjectWatcher>>,
                                   steps: seq<Step<UserProjectWatcher>>, commands: seq<Command>, w: World,
                                   watcher: UserProjectWatcher)
    requires cache.WatchersValid() && Ran(cache, run, steps, false) && Obeys(run, steps, commands)
    requires Accountable(commands) && IsLastCompleted(w, CommandWorlds(commands)) && forall n :: Decidable(w, n)
    requires watcher in cache.watchers && ALL_NAMESPACES in watcher.visibleNamespaces
    ensures watcher.knownProjects.Keys == Gettable(w, watcher.user)
    ensures var s := run[|run| - 1];
      && watcher in s.watchers && s.watchers[watcher] == watcher.State() && watcher in s.origins
      && watcher.State().output.taken <= |Stream(watcher.State())|
      && (!watcher.userStop ==> Replayed(s, watcher).Keys == Gettable(w, watcher.user))
  {
    var s := run[|run| - 1];
    RunIsRegistered(run, steps);
    SameWatcherState(cache, s, watcher);
    RunKnowsTheRbacDecision(run, steps, s, commands, w, watcher);
  }

  lemma RunKnowsTheRbacDecision<W>(run: seq<System<W>>, steps: seq<Step<W>>, s: System<W>, commands: seq<Command>,
      w: World, id: W)
    requires IsRun(run, steps) && s == run[|run| - 1] && !s.stuck && Obeys(run, steps, commands)
    requires Accountable(commands) && IsLastCompleted(w, CommandWorlds(commands)) && forall n :: Decidable(w, n)
    requires id in s.order && id in s.watchers && ALL_NAMESPACES in s.watchers[id].visible
    ensures s.watchers[id].known.Keys == Gettable(w, s.watchers[id].user)
    ensures id in s.origins && s.watchers[id].output.taken <= |Stream(s.watchers[id])|
    ensures !s.watchers[id].output.stopped ==> Replayed(s, id).Keys == Gettable(w, s.watchers[id].user)
  {
    ObeysWorlds(run, steps, commands);
    RunsOfTheCache(run, steps);
    MatchingRunIsSteady(run, steps);
    KnownIsGettable(run, steps, s, id);
    ReplayGivesKnown(run, steps, s, id);
  }

  /** Serving accountable commands, with the last synchronization able to decide about every namespace: the
      conditions are on the commands alone. */
  method ServeAccountably(commands: seq<Command>, ghost w: World) returns (cache: AuthorizationCache, stuck: bool)
    requires Accountable(commands) && IsLastCompleted(w, CommandWorlds(commands)) && forall n :: Decidable(w, n)
    ensures fresh(cache) && cache.Valid()
    ensures !stuck ==>
              forall watcher | watcher in cache.watchers && ALL_NAMESPACES in watcher.visibleNamespaces ::
                watcher.knownProjects.Keys == Gettable(w, watcher.user)
  {
    ghost var run, steps, done;
    cache, stuck, run, steps, done := Serve(commands);
    if !stuck {
      assert commands[..done] == commands;
      forall watcher | watcher in cache.watchers && ALL_NAMESPACES in watcher.visibleNamespaces
        ensures watcher.knownProjects.Keys == Gettable(w, watcher.user)
      {
        ObjectsKnowTheRbacDecision(cache, run, steps, commands, w, watcher);
      }
    }
  }
}
