/** Whole runs of the cache with its watchers: what a watcher knows is what List answers. */
module WatchRuns {
  import opened Common
  import opened RbacTypes
  import opened Reviewer
  import opened AccessIndex
  import opened Informers
  import opened Synchronization
  import opened ProjectWatcher
  import opened Notifications

  /** The cache, the informers as the last completed synchronization saw them, every watcher ever made
      with what it was made from, those registered with the cache, and whether the notifying goroutine is
      stuck behind a full queue. */
  datatype System<!W(==)> = System(
    cache: CacheState,
    world: World,
    watchers: map<W, Watcher>,
    origins: map<W, Origin>,
    order: seq<W>,
    stuck: bool)

  /** What List answered when the watcher was made, and whether its client asked for these projects. */
  datatype Origin = Origin(listed: seq<Namespace>, includeExisting: bool)

  /** What the client of a new watcher knows: nothing if it asked for existing projects. */
  function StartOf(o: Origin): map<string, string> {
    Start(o.listed, o.includeExisting)
  }

  datatype Step<!W> =
    | Sync(w: World, purged: seq<string>)
    | Register(id: W, user: UserInfo, visible: set<string>, includeExisting: bool, listed: seq<Namespace>)
    | Remove(removed: W)
    | Activity(active: W, action: Action)

  ghost function InitialSystem<W>(w: World): System<W> {
    System(NEW_CACHE, w, map[], map[], [], false)
  }

  /** A stuck system takes no further step. A watcher is created from List's answer and registered in one step. */
  ghost predicate CanTake<W>(s: System<W>, step: Step<W>) {
    && !s.stuck
    && match step
       case Sync(w, purged) => Enumerates(purged, s.cache.known - Listed(w))
       case Register(id, user, visible, existing, listed) =>
         id !in s.watchers && ListAnswer(s.cache.index, s.world, user, Ok(listed))
       case Remove(id) => true
       case Activity(id, action) => id in s.watchers && !action.Notify? && Enabled(s.watchers[id], action)
  }

  ghost predicate Registered<W>(s: System<W>) {
    forall id | id in s.order :: id in s.watchers
  }

  ghost function Take<W>(s: System<W>, step: Step<W>): System<W>
    requires CanTake(s, step) && Registered(s)
  {
    match step
    case Sync(w, purged) =>
      if Skips(s.cache, w) then s
      else
        var told := AllNotified(s.watchers, s.order, NotesOf(s.cache, w, purged), w.getNamespace);
        s.(cache := CacheAfter(s.cache, w), world := w, watchers := told.watchers, stuck := told.stuck)
    case Register(id, user, visible, existing, listed) =>
      s.(watchers := s.watchers[id := NewWatcher(user, visible, listed, existing)],
         origins := s.origins[id := Origin(listed, existing)],
         order := s.order + [id])
    case Remove(id) => s.(order := RemoveFirst(s.order, id))
    case Activity(id, action) => s.(watchers := s.watchers[id := Act(s.watchers[id], action)])
  }

  // ---- the invariant ---------------------------------------------------------------------------

  /** Versions are kept up with as well where Get agrees with List and every listed namespace carries one. */
  ghost predicate StrictlySteady(w: World, strict: bool) {
    strict ==> NamesAgree(w) && Versioned(w)
  }

  ghost predicate RecordGivesAccess(ix: Index, user: UserInfo, n: string)
    requires n in ix.reviews
  {
    HasAccess(user, Elements(ix.reviews[n].users), Elements(ix.reviews[n].groups))
  }

  /** Of a namespace it sees, a watcher knows only a listed one, knows a reviewed one iff the record gives
      access, and (where versions are kept up with) at the version on record. */
  ghost predicate TracksAt(cache: CacheState, w: Watcher, n: string, strict: bool) {
    && (n in w.known ==> n in cache.known)
    && (n in cache.index.reviews ==> (n in w.known <==> RecordGivesAccess(cache.index, w.user, n)))
    && (strict && n in w.known && n in cache.index.reviews ==>
        w.known[n] == cache.index.reviews[n].request.namespaceVersion)
  }

  ghost predicate Tracks(cache: CacheState, w: Watcher, strict: bool) {
    forall n | Sees(w, n) :: TracksAt(cache, w, n, strict)
  }

  ghost predicate CacheInvariant(cache: CacheState, world: World, strict: bool) {
    && Consistent(cache.index)
    && cache.index.reviews.Keys <= cache.known <= Listed(world)
    && (ReviewsSucceed(world) ==> cache.index.reviews.Keys == cache.known)
    && (strict ==> forall n | n in cache.index.reviews && Review(world.evaluator, n).Ok? ::
          world.getNamespace(n) == Found(cache.index.reviews[n].request.namespaceVersion))
  }

  ghost predicate Invariant<W>(s: System<W>, strict: bool) {
    CacheInvariant(s.cache, s.world, strict) && WatchersInvariant(s, strict)
  }

  ghost predicate WatchersInvariant<W>(s: System<W>, strict: bool) {
    && Registered(s)
    && s.origins.Keys == s.watchers.Keys
    && (forall id | id in s.watchers :: Made(s.watchers[id], s.origins[id]))
    && (forall id | id in s.order :: KeepsUp(s.cache, s.watchers[id], s.origins[id], strict))
  }

  /** Every watcher ever made. */
  ghost predicate Made(w: Watcher, o: Origin) {
    Live(w) && w.initial == (if o.includeExisting then AddedEvents(o.listed) else [])
  }

  /** Every watcher registered with the cache. */
  ghost predicate KeepsUp(cache: CacheState, w: Watcher, o: Origin, strict: bool) {
    Tracks(cache, w, strict) && Faithful(w, StartOf(o))
  }

  // ---- a synchronization -----------------------------------------------------------------------

  lemma SyncKeepsCacheInvariant(cache: CacheState, world: World, w: World, strict: bool)
    requires CacheInvariant(cache, world, strict) && StrictlySteady(w, strict)
    ensures CacheInvariant(CacheAfter(cache, w), w, strict)
  {
    SynchronizationKeepsInvariant(cache, w);
    var ix := CacheAfter(cache, w).index;
    forall n | n in Listed(w) && Review(w.evaluator, n).Ok?
      ensures n in ix.reviews
      ensures strict ==> w.getNamespace(n) == Found(ix.reviews[n].request.namespaceVersion)
    {
      ListedIsRecorded(Base(cache, w), w, n);
      if strict {
        ListedIsAtItsVersion(Base(cache, w), w, n);
      }
    }
  }

  lemma GoneNotesTell(purged: seq<string>, gone: set<string>, n: string)
    requires Enumerates(purged, gone)
    ensures ToldAbout(GoneNotes(purged), n) <==> n in gone
    ensures forall note | note in GoneNotes(purged) && note.namespace == n :: note == GoneNote(n)
  {
    assert n in gone <==> n in purged by {
      assert n in gone <==> n in Elements(purged);
    }
    if n in purged {
      var i :| 0 <= i < |purged| && purged[i] == n;
      assert GoneNotes(purged)[i] == GoneNote(n);
    }
  }

  /** What a whole synchronization tells a registered watcher about one namespace it sees. */
  lemma SyncTells<W>(cache: CacheState, w: World, purged: seq<string>, watchers: map<W, Watcher>, order: seq<W>, id: W,
      n: string)
    returns (mid: Watcher)
    requires forall x | x in order :: x in watchers
    requires Enumerates(purged, cache.known - Listed(w)) && id in order && Sees(watchers[id], n)
    requires !AllNotified(watchers, order, NotesOf(cache, w, purged), w.getNamespace).stuck
    ensures At(watchers[id], mid, n, Reviewed(w.evaluator, Base(cache, w), Requests(w), n), ReviewNote(w.evaluator, n),
        w.getNamespace)
    ensures At(mid, AllNotified(watchers, order, NotesOf(cache, w, purged), w.getNamespace).watchers[id], n,
               n in cache.known - Listed(w), GoneNote(n), w.getNamespace)
  {
    var e, base, requests, get := w.evaluator, Base(cache, w), Requests(w), w.getNamespace;
    var reviewed, gone := SyncAll(e, base, requests).notes, GoneNotes(purged);
    PassEffect(e, base, requests, n);
    assert ToldAbout(reviewed, n) <==> Reviewed(e, base, requests, n);
    RoundAppend(watchers, order, reviewed, gone, get);
    var first := AllNotified(watchers, order, reviewed, get);
    RoundAt(watchers, order, reviewed, get, id, n, ReviewNote(e, n));
    mid := first.watchers[id];
    GoneNotesTell(purged, cache.known - Listed(w), n);
    RoundAt(first.watchers, order, gone, get, id, n, GoneNote(n));
  }

  /** A synchronization announces a namespace to this user that it then forgets without a word: it is not
      listed, was not known before, but is reviewed for the sake of a role or binding, and can be looked up. */
  ghost predicate Stranded(cache: CacheState, w: World, user: UserInfo, n: string) {
    && n !in Listed(w) && n !in cache.known
    && Reviewed(w.evaluator, Base(cache, w), Requests(w), n)
    && HasAccess(user, ReviewNote(w.evaluator, n).users, ReviewNote(w.evaluator, n).groups)
    && w.getNamespace(n).Found?
  }

  /** A synchronization fails to announce a namespace to a watcher: it is listed and reviewed, the user has
      access, but the watcher does not know it and Get does not find it. */
  ghost predicate Overlooked(cache: CacheState, w: World, watcher: Watcher, n: string) {
    && n in Listed(w) && n !in watcher.known
    && Reviewed(w.evaluator, Base(cache, w), Requests(w), n)
    && HasAccess(watcher.user, ReviewNote(w.evaluator, n).users, ReviewNote(w.evaluator, n).groups)
    && !w.getNamespace(n).Found?
  }

  /** The two ways in which a watcher and the index part. */
  ghost predicate Part(cache: CacheState, w: World, watcher: Watcher, n: string) {
    Stranded(cache, w, watcher.user, n) || Overlooked(cache, w, watcher, n)
  }

  /** The step at the heart of the run: from tracking the old index a watcher gets to tracking the new
      one, unless they part over the namespace. */
  lemma SyncKeepsTrackingIff(cache: CacheState, world: World, w: World, w0: Watcher, mid: Watcher, w1: Watcher,
      n: string, strict: bool)
    requires CacheInvariant(cache, world, strict) && StrictlySteady(w, strict)
    requires TracksAt(cache, w0, n, strict)
    requires At(w0, mid, n, Reviewed(w.evaluator, Base(cache, w), Requests(w), n), ReviewNote(w.evaluator, n),
        w.getNamespace)
    requires At(mid, w1, n, n in cache.known - Listed(w), GoneNote(n), w.getNamespace)
    ensures TracksAt(CacheAfter(cache, w), w1, n, strict) <==> !Part(cache, w, w0, n)
  {
    if n in Listed(w) {
      ListedKeepsTrackingIff(cache, world, w, w0, mid, w1, n, strict);
    } else {
      assert n !in CacheAfter(cache, w).index.reviews;
      assert n in w1.known ==> n in mid.known && n !in cache.known;
    }
  }

  lemma ListedKeepsTrackingIff(cache: CacheState, world: World, w: World, w0: Watcher, mid: Watcher, w1: Watcher,
      n: string, strict: bool)
    requires CacheInvariant(cache, world, strict) && StrictlySteady(w, strict)
    requires TracksAt(cache, w0, n, strict) && n in Listed(w)
    requires At(w0, mid, n, Reviewed(w.evaluator, Base(cache, w), Requests(w), n), ReviewNote(w.evaluator, n),
        w.getNamespace)
    requires At(mid, w1, n, false, GoneNote(n), w.getNamespace)
    ensures TracksAt(CacheAfter(cache, w), w1, n, strict) <==> !Overlooked(cache, w, w0, n)
  {
    var e, base, cache' := w.evaluator, Base(cache, w), CacheAfter(cache, w);
    PassEffect(e, base, Requests(w), n);
    if Reviewed(e, base, Requests(w), n) {
      if strict {
        ListedIsAtItsVersion(base, w, n);
      }
    } else {
      assert LastKnown(cache'.index.reviews, n) == LastKnown(base.reviews, n);
    }
  }

  /** What a synchronization needs for watchers to keep up: no registered watcher and the index part over a
      namespace it sees. Any listing, any lookup and any review may fail. */
  ghost predicate Steady<W>(s: System<W>, w: World)
    requires Registered(s)
  {
    forall id, n | id in s.order && Sees(s.watchers[id], n) :: !Part(s.cache, w, s.watchers[id], n)
  }

  /** Get finds listed namespaces only, at the versions listed. */
  ghost predicate GetMatchesList(w: World) {
    NamesAgree(w) && forall n | n !in Listed(w) :: !w.getNamespace(n).Found?
  }

  /** Synchronizing with a lister whose Get matches its List is steady. */
  lemma MatchingIsSteady<W>(s: System<W>, w: World)
    requires Registered(s) && GetMatchesList(w)
    ensures Steady(s, w)
  {
  }

  /** Exactly when a synchronization keeps the invariant. */
  lemma SyncKeepsInvariantIff<W>(s: System<W>, w: World, purged: seq<string>, strict: bool)
    requires Invariant(s, strict) && CanTake(s, Sync(w, purged)) && !Skips(s.cache, w)
    requires StrictlySteady(w, strict)
    requires !Take(s, Sync(w, purged)).stuck
    ensures Invariant(Take(s, Sync(w, purged)), strict) <==> Steady(s, w)
  {
    var s' := Take(s, Sync(w, purged));
    SyncKeepsCacheInvariant(s.cache, s.world, w, strict);
    SyncKeepsMade(s, w, purged, strict);
    SyncKeepsAllUpIff(s, w, purged, s', strict);
    InvariantIff(s', strict);
  }

  ghost predicate AllKeepUp<W>(s: System<W>, strict: bool)
    requires Registered(s) && s.origins.Keys == s.watchers.Keys
  {
    forall id | id in s.order :: KeepsUp(s.cache, s.watchers[id], s.origins[id], strict)
  }

  lemma InvariantIff<W>(s: System<W>, strict: bool)
    requires CacheInvariant(s.cache, s.world, strict) && Registered(s) && s.origins.Keys == s.watchers.Keys
    requires forall id | id in s.watchers :: Made(s.watchers[id], s.origins[id])
    ensures Invariant(s, strict) <==> AllKeepUp(s, strict)
  {
  }

  lemma SyncKeepsAllUpIff<W>(s: System<W>, w: World, purged: seq<string>, s': System<W>, strict: bool)
    requires Invariant(s, strict) && CanTake(s, Sync(w, purged)) && !Skips(s.cache, w)
    requires StrictlySteady(w, strict)
    requires s' == Take(s, Sync(w, purged)) && !s'.stuck && s'.watchers.Keys == s.watchers.Keys
    ensures AllKeepUp(s', strict) <==> Steady(s, w)
  {
    forall id | id in s.order
      ensures KeepsUp(s'.cache, s'.watchers[id], s'.origins[id], strict) <==> PartsNot(s, w, id)
    {
      assert KeepsUp(s.cache, s.watchers[id], s.origins[id], strict);
      SyncKeepsUpIff(s, w, purged, id, strict);
    }
    SteadyIff(s, w);
  }

  lemma SteadyIff<W>(s: System<W>, w: World)
    requires Registered(s)
    ensures Steady(s, w) <==> forall id | id in s.order :: PartsNot(s, w, id)
  {
  }

  lemma SyncKeepsMade<W>(s: System<W>, w: World, purged: seq<string>, strict: bool)
    requires WatchersInvariant(s, strict) && CanTake(s, Sync(w, purged)) && !Skips(s.cache, w)
    ensures var s' := Take(s, Sync(w, purged));
      s'.watchers.Keys == s.watchers.Keys && forall id | id in s'.watchers :: Made(s'.watchers[id], s'.origins[id])
  {
    var s', notes := Take(s, Sync(w, purged)), NotesOf(s.cache, w, purged);
    forall id | id in s.watchers ensures Made(s'.watchers[id], s'.origins[id]) {
      assert Made(s.watchers[id], s.origins[id]);
      RoundKeepsLive(s.watchers, s.order, notes, w.getNamespace, id);
      RoundKeepsMaking(s.watchers, s.order, notes, w.getNamespace, id);
    }
  }

  lemma SyncKeepsUpIff<W>(s: System<W>, w: World, purged: seq<string>, id: W, strict: bool)
    requires CacheInvariant(s.cache, s.world, strict) && Registered(s) && id in s.order && id in s.origins
    requires KeepsUp(s.cache, s.watchers[id], s.origins[id], strict)
    requires CanTake(s, Sync(w, purged)) && !Skips(s.cache, w) && !Take(s, Sync(w, purged)).stuck
    requires StrictlySteady(w, strict)
    ensures var s' := Take(s, Sync(w, purged));
      KeepsUp(s'.cache, s'.watchers[id], s'.origins[id], strict) <==> PartsNot(s, w, id)
  {
    RoundKeepsLog(s.watchers, s.order, NotesOf(s.cache, w, purged), w.getNamespace, id, StartOf(s.origins[id]));
    SyncKeepsTracksIff(s, w, purged, id, strict);
  }

  ghost predicate PartsNot<W>(s: System<W>, w: World, id: W)
    requires id in s.watchers
  {
    forall n | Sees(s.watchers[id], n) :: !Part(s.cache, w, s.watchers[id], n)
  }

  lemma SyncKeepsTracksIff<W>(s: System<W>, w: World, purged: seq<string>, id: W, strict: bool)
    requires CacheInvariant(s.cache, s.world, strict) && Registered(s) && id in s.order &&
        Tracks(s.cache, s.watchers[id], strict)
    requires CanTake(s, Sync(w, purged)) && !Skips(s.cache, w) && !Take(s, Sync(w, purged)).stuck
    requires StrictlySteady(w, strict)
    ensures Tracks(Take(s, Sync(w, purged)).cache, Take(s, Sync(w, purged)).watchers[id], strict) <==>
        PartsNot(s, w, id)
  {
    var w0, w1 := s.watchers[id], Take(s, Sync(w, purged)).watchers[id];
    SameWatcher(s, w, purged, id);
    forall n | Sees(w0, n)
      ensures TracksAt(CacheAfter(s.cache, w), w1, n, strict) <==> !Part(s.cache, w, w0, n)
    {
      var mid := SyncTells(s.cache, w, purged, s.watchers, s.order, id, n);
      assert TracksAt(s.cache, w0, n, strict);
      SyncKeepsTrackingIff(s.cache, s.world, w, w0, mid, w1, n, strict);
    }
    assert forall n :: Sees(w1, n) <==> Sees(w0, n);
  }

  lemma SameWatcher<W>(s: System<W>, w: World, purged: seq<string>, id: W)
    requires Registered(s) && CanTake(s, Sync(w, purged)) && !Skips(s.cache, w) && id in s.order
    ensures Take(s, Sync(w, purged)).watchers[id].visible == s.watchers[id].visible
  {
    RoundKeepsMaking(s.watchers, s.order, NotesOf(s.cache, w, purged), w.getNamespace, id);
  }

  // ---- a registration --------------------------------------------------------------------------

  /** What a registration needs: Get finds everything indexed for the user; and where versions are to be kept up
      with, none of it is a leftover of a review that failed since. */
  ghost predicate Registrable<W>(s: System<W>, user: UserInfo, strict: bool) {
    forall n | n in IndexedFor(s.cache.index, user) ::
      s.world.getNamespace(n).Found? && (strict ==> Review(s.world.evaluator, n).Ok?)
  }

  lemma RegisterTracks<W>(s: System<W>, user: UserInfo, visible: set<string>, existing: bool, listed: seq<Namespace>,
      strict: bool)
    requires CacheInvariant(s.cache, s.world, strict) && ListAnswer(s.cache.index, s.world, user, Ok(listed))
    requires Registrable(s, user, strict)
    ensures Tracks(s.cache, NewWatcher(user, visible, listed, existing), strict)
    ensures Faithful(NewWatcher(user, visible, listed, existing), Start(listed, existing))
  {
    var w := NewWatcher(user, visible, listed, existing);
    NewWatcherIsWellLogged(user, visible, listed, existing);
    forall n ensures TracksAt(s.cache, w, n, strict) {
      RegisterTracksAt(s, user, listed, n, strict);
    }
  }

  lemma RegisterTracksAt<W>(s: System<W>, user: UserInfo, listed: seq<Namespace>, n: string, strict: bool)
    requires CacheInvariant(s.cache, s.world, strict) && ListAnswer(s.cache.index, s.world, user, Ok(listed))
    requires Registrable(s, user, strict)
    ensures n in KnownFrom(listed) ==> n in s.cache.known
    ensures n in s.cache.index.reviews ==> (n in KnownFrom(listed) <==> RecordGivesAccess(s.cache.index, user, n))
    ensures strict && n in KnownFrom(listed) && n in s.cache.index.reviews ==>
              KnownFrom(listed)[n] == s.cache.index.reviews[n].request.namespaceVersion
  {
    KnownFromContains(listed);
    IndexedIffReviewed(s.cache.index, user, n);
  }

  // ---- runs ------------------------------------------------------------------------------------

  ghost predicate SteadyStep<W>(s: System<W>, step: Step<W>, strict: bool) {
    && (step.Sync? && !Skips(s.cache, step.w) ==>
          Registered(s) && Steady(s, step.w) && StrictlySteady(step.w, strict))
    && (step.Register? ==> Registrable(s, step.user, strict))
  }

  ghost predicate SteadyRun<W>(run: seq<System<W>>, steps: seq<Step<W>>, strict: bool)
    requires |run| > |steps|
  {
    forall i | 0 <= i < |steps| :: SteadyStep(run[i], steps[i], strict)
  }

  /** `run` is the states a run goes through by taking `steps`. */
  ghost predicate IsRun<W>(run: seq<System<W>>, steps: seq<Step<W>>)
    ensures IsRun(run, steps) ==> |run| == |steps| + 1
    decreases |steps|
  {
    if steps == [] then |run| == 1 && IsInitial(run[0])
    else
      var k := |steps| - 1;
      |run| == k + 2 && IsRun(run[..k + 1], steps[..k]) && TakesTo(run[k], steps[k], run[k + 1])
  }

  lemma OneStepMore<W>(run: seq<System<W>>, steps: seq<Step<W>>, step: Step<W>, s: System<W>)
    requires IsRun(run, steps) && TakesTo(run[|run| - 1], step, s)
    ensures IsRun(run + [s], steps + [step])
  {
    var run', steps' := run + [s], steps + [step];
    assert run'[..|run|] == run && steps'[..|steps|] == steps;
  }

  ghost predicate IsInitial<W>(s: System<W>) {
    s == InitialSystem(s.world)
  }

  ghost predicate TakesTo<W>(s: System<W>, step: Step<W>, s': System<W>) {
    CanTake(s, step) && Registered(s) && s' == Take(s, step)
  }

  lemma ActivityKeepsInvariant<W>(s: System<W>, id: W, action: Action, strict: bool)
    requires WatchersInvariant(s, strict) && CanTake(s, Activity(id, action))
    ensures WatchersInvariant(Take(s, Activity(id, action)), strict)
  {
    assert Made(s.watchers[id], s.origins[id]);
    ActivityKeepsMade(s.watchers[id], s.origins[id], action);
    if id in s.order {
      assert KeepsUp(s.cache, s.watchers[id], s.origins[id], strict);
      ActivityKeepsUp(s.cache, s.watchers[id], s.origins[id], action, strict);
    }
    OneOtherWatcher(s, id, Act(s.watchers[id], action), strict);
  }

  lemma OneOtherWatcher<W>(s: System<W>, id: W, w: Watcher, strict: bool)
    requires WatchersInvariant(s, strict) && id in s.watchers
    requires Made(w, s.origins[id]) && (id in s.order ==> KeepsUp(s.cache, w, s.origins[id], strict))
    ensures WatchersInvariant(s.(watchers := s.watchers[id := w]), strict)
  {
  }

  lemma ActivityKeepsMade(w: Watcher, o: Origin, action: Action)
    requires Made(w, o) && !action.Notify? && Enabled(w, action)
    ensures Made(Act(w, action), o)
  {
    ActKeepsLive(w, action);
    OnlyOutputChanges(w, action);
  }

  lemma ActivityKeepsUp(cache: CacheState, w: Watcher, o: Origin, action: Action, strict: bool)
    requires KeepsUp(cache, w, o, strict) && !action.Notify? && Enabled(w, action)
    ensures KeepsUp(cache, Act(w, action), o, strict)
  {
    OnlyOutputChanges(w, action);
    OutputDoesNotMatter(cache, w, Act(w, action).output, StartOf(o), strict);
  }

  lemma OnlyOutputChanges(w: Watcher, action: Action)
    requires Enabled(w, action) && !action.Notify?
    ensures Act(w, action) == w.(output := Act(w, action).output)
  {
  }

  lemma OutputDoesNotMatter(cache: CacheState, w: Watcher, output: Output, start: map<string, string>, strict: bool)
    requires Tracks(cache, w, strict) && Faithful(w, start)
    ensures Tracks(cache, w.(output := output), strict) && Faithful(w.(output := output), start)
  {
    var w' := w.(output := output);
    assert Stream(w') == Stream(w);
    forall n | Sees(w', n) ensures TracksAt(cache, w', n, strict) {
      assert Sees(w, n) && TracksAt(cache, w, n, strict);
    }
  }

  lemma RegisterKeepsInvariant<W>(s: System<W>, step: Step<W>, strict: bool)
    requires step.Register? && Invariant(s, strict) && CanTake(s, step) && Registrable(s, step.user, strict)
    ensures WatchersInvariant(Take(s, step), strict)
  {
    var w, o := NewWatcher(step.user, step.visible, step.listed, step.includeExisting),
        Origin(step.listed, step.includeExisting);
    NewWatcherInvariant(s, step, strict);
    OneMoreWatcher(s, step.id, w, o, Take(s, step), strict);
  }

  lemma OneMoreWatcher<W>(s: System<W>, id: W, w: Watcher, o: Origin, s': System<W>, strict: bool)
    requires WatchersInvariant(s, strict) && id !in s.watchers && Made(w, o) && KeepsUp(s.cache, w, o, strict)
    requires s' == s.(watchers := s.watchers[id := w], origins := s.origins[id := o], order := s.order + [id])
    ensures WatchersInvariant(s', strict)
  {
    OneMoreIsMade(s, id, w, o, s', strict);
    OneMoreKeepsUp(s, id, w, o, s', strict);
  }

  lemma OneMoreIsMade<W>(s: System<W>, id: W, w: Watcher, o: Origin, s': System<W>, strict: bool)
    requires WatchersInvariant(s, strict) && id !in s.watchers
    requires s' == s.(watchers := s.watchers[id := w], origins := s.origins[id := o], order := s.order + [id])
    requires Made(w, o)
    ensures forall x | x in s'.watchers :: Made(s'.watchers[x], s'.origins[x])
  {
    assert forall x | x in s'.watchers && x != id :: s'.watchers[x] == s.watchers[x] && s'.origins[x] == s.origins[x];
  }

  lemma OneMoreKeepsUp<W>(s: System<W>, id: W, w: Watcher, o: Origin, s': System<W>, strict: bool)
    requires WatchersInvariant(s, strict) && id !in s.watchers
    requires s' == s.(watchers := s.watchers[id := w], origins := s.origins[id := o], order := s.order + [id])
    requires KeepsUp(s.cache, w, o, strict)
    ensures forall x | x in s'.order :: KeepsUp(s'.cache, s'.watchers[x], s'.origins[x], strict)
  {
    assert forall x | x in s'.order && x != id ::
        x in s.order && s'.watchers[x] == s.watchers[x] && s'.origins[x] == s.origins[x];
  }

  lemma NewWatcherInvariant<W>(s: System<W>, step: Step<W>, strict: bool)
    requires step.Register? && CacheInvariant(s.cache, s.world, strict) && CanTake(s, step)
    requires Registrable(s, step.user, strict)
    ensures var w, o := NewWatcher(step.user, step.visible, step.listed, step.includeExisting),
        Origin(step.listed, step.includeExisting);
      Made(w, o) && KeepsUp(s.cache, w, o, strict)
  {
    RegisterTracks(s, step.user, step.visible, step.includeExisting, step.listed, strict);
    NewWatcherIsLive(step.user, step.visible, step.listed, step.includeExisting);
  }

  lemma RemoveKeepsInvariant<W>(s: System<W>, id: W, strict: bool)
    requires Invariant(s, strict) && CanTake(s, Remove(id))
    ensures WatchersInvariant(Take(s, Remove(id)), strict)
  {
    RemoveFirstKeeps(s.order, id);
  }

  lemma StepKeepsInvariant<W>(s: System<W>, step: Step<W>, strict: bool)
    requires Invariant(s, strict) && CanTake(s, step) && SteadyStep(s, step, strict)
    requires !Take(s, step).stuck
    ensures Invariant(Take(s, step), strict)
  {
    match step {
      case Sync(w, purged) =>
        if !Skips(s.cache, w) {
          SyncKeepsInvariantIff(s, w, purged, strict);
        }
      case Register(id, user, visible, existing, listed) => RegisterKeepsInvariant(s, step, strict);
      case Remove(id) => RemoveKeepsInvariant(s, id, strict);
      case Activity(id, action) => ActivityKeepsInvariant(s, id, action, strict);
    }
  }

  lemma InitialInvariant<W>(w: World, strict: bool)
    ensures Invariant(InitialSystem<W>(w), strict)
  {
    EmptyIndexIsConsistent();
  }

  lemma {:induction false} RunKeepsInvariant<W>(run: seq<System<W>>, steps: seq<Step<W>>, strict: bool)
    requires IsRun(run, steps) && !run[|run| - 1].stuck && SteadyRun(run, steps, strict)
    ensures Invariant(run[|run| - 1], strict)
    decreases |steps|
  {
    if steps == [] {
      InitialInvariant<W>(run[0].world, strict);
    } else {
      var k := |steps| - 1;
      RunKeepsInvariant(run[..|steps|], steps[..k], strict);
      StepKeepsInvariant(run[k], steps[k], strict);
    }
  }

  /** About a namespace that is on record, or was not listed, a watcher that keeps up knows what is indexed. */
  lemma KnownIffIndexed<W>(s: System<W>, id: W, n: string, strict: bool)
    requires Invariant(s, strict) && id in s.order && (n in s.cache.index.reviews || n !in s.cache.known)
    requires Sees(s.watchers[id], n)
    ensures n in s.watchers[id].known <==> n in IndexedFor(s.cache.index, s.watchers[id].user)
  {
    assert KeepsUp(s.cache, s.watchers[id], s.origins[id], strict);
    assert TracksAt(s.cache, s.watchers[id], n, strict);
    IndexedIffReviewed(s.cache.index, s.watchers[id].user, n);
  }

  /** ... and so what List answers, if Get finds it; and at its version, where versions are kept up with, if its
      review did not fail. */
  lemma KnownIffListed<W>(s: System<W>, id: W, n: string, answer: seq<Namespace>, strict: bool)
    requires Invariant(s, strict) && id in s.order && Sees(s.watchers[id], n)
    requires n in s.cache.index.reviews || n !in s.cache.known
    requires n in IndexedFor(s.cache.index, s.watchers[id].user) ==> s.world.getNamespace(n).Found?
    requires ListAnswer(s.cache.index, s.world, s.watchers[id].user, Ok(answer))
    ensures n in s.watchers[id].known <==> n in Names(answer)
    ensures strict && n in s.watchers[id].known && Review(s.world.evaluator, n).Ok? ==>
              s.world.getNamespace(n) == Found(s.watchers[id].known[n])
  {
    KnownIffIndexed(s, id, n, strict);
    assert KeepsUp(s.cache, s.watchers[id], s.origins[id], strict);
    assert TracksAt(s.cache, s.watchers[id], n, strict);
  }

  lemma KnownAtListedVersion<W>(s: System<W>, id: W, n: string, answer: seq<Namespace>)
    requires Invariant(s, true) && ReviewsSucceed(s.world) && id in s.order && Sees(s.watchers[id], n)
    requires ListAnswer(s.cache.index, s.world, s.watchers[id].user, Ok(answer))
    ensures n in s.watchers[id].known <==> n in KnownFrom(answer)
    ensures n in s.watchers[id].known ==> s.watchers[id].known[n] == KnownFrom(answer)[n]
  {
    IndexedIffReviewed(s.cache.index, s.watchers[id].user, n);
    KnownIffListed(s, id, n, answer, true);
    KnownFromContains(answer);
    if n in Names(answer) {
      var ns :| ns in answer && ns.name == n;
    }
  }

  lemma KnownVersionsListed<W>(s: System<W>, id: W, answer: seq<Namespace>)
    requires Invariant(s, true) && ReviewsSucceed(s.world) && id in s.order
    requires ALL_NAMESPACES in s.watchers[id].visible
    requires ListAnswer(s.cache.index, s.world, s.watchers[id].user, Ok(answer))
    ensures s.watchers[id].known == KnownFrom(answer)
  {
    forall n
      ensures n in s.watchers[id].known <==> n in KnownFrom(answer)
      ensures n in s.watchers[id].known ==> s.watchers[id].known[n] == KnownFrom(answer)[n]
    {
      KnownAtListedVersion(s, id, n, answer);
    }
  }

  /** Nothing speaks against comparing what a watcher knows of a namespace with what List answers: it is not off
      the record while listed, as after a failed review, and Get finds it if it is indexed for the user. */
  ghost predicate Checkable<W>(s: System<W>, user: UserInfo, n: string) {
    && (n in s.cache.index.reviews || n !in s.cache.known)
    && (n in IndexedFor(s.cache.index, user) ==> s.world.getNamespace(n).Found?)
  }

  /** The last completed synchronization reviewed without error, and Get finds what it indexed for the user. */
  ghost predicate AllCheckable<W>(s: System<W>, user: UserInfo) {
    ReviewsSucceed(s.world) && forall n | n in IndexedFor(s.cache.index, user) :: s.world.getNamespace(n).Found?
  }

  lemma KnowsWhatIsListed<W>(s: System<W>, id: W, answer: seq<Namespace>)
    requires Invariant(s, false) && id in s.order
    requires ListAnswer(s.cache.index, s.world, s.watchers[id].user, Ok(answer))
    ensures forall n | Sees(s.watchers[id], n) && Checkable(s, s.watchers[id].user, n) ::
              n in s.watchers[id].known <==> n in Names(answer)
    ensures AllCheckable(s, s.watchers[id].user) ==>
              forall n | Sees(s.watchers[id], n) :: n in s.watchers[id].known <==> n in Names(answer)
  {
    forall n | Sees(s.watchers[id], n) && Checkable(s, s.watchers[id].user, n)
      ensures n in s.watchers[id].known <==> n in Names(answer)
    {
      KnownIffListed(s, id, n, answer, false);
    }
    assert AllCheckable(s, s.watchers[id].user) ==> forall n :: Checkable(s, s.watchers[id].user, n);
  }

  /** Watch equals List, over whole runs. However synchronizations, registrations, removals and the
      watchers' own activity interleave, with listings, lookups and reviews failing along the way as they may,
      every registered watcher knows, of the checkable namespaces it sees, exactly those List answers for its
      user; so it knows exactly those once a synchronization completes without a review error. */
  lemma WatchEqualsList<W>(run: seq<System<W>>, steps: seq<Step<W>>, s: System<W>, id: W, answer: seq<Namespace>)
    requires IsRun(run, steps) && s == run[|run| - 1] && !s.stuck
    requires SteadyRun(run, steps, false)
    requires id in s.order && id in s.watchers
    requires ListAnswer(s.cache.index, s.world, s.watchers[id].user, Ok(answer))
    ensures forall n | Sees(s.watchers[id], n) && Checkable(s, s.watchers[id].user, n) ::
              n in s.watchers[id].known <==> n in Names(answer)
    ensures AllCheckable(s, s.watchers[id].user) ==>
              forall n | Sees(s.watchers[id], n) :: n in s.watchers[id].known <==> n in Names(answer)
    ensures AllCheckable(s, s.watchers[id].user) && ALL_NAMESPACES in s.watchers[id].visible ==>
              s.watchers[id].known.Keys == Names(answer)
  {
    RunKeepsInvariant(run, steps, false);
    KnowsWhatIsListed(s, id, answer);
  }

  /** Where versions are kept up with, the watcher also knows each namespace at the version List answers, if the
      last completed synchronization had no review error, whatever earlier ones had. */
  lemma WatchEqualsListVersions<W>(run: seq<System<W>>, steps: seq<Step<W>>, s: System<W>, id: W,
      answer: seq<Namespace>)
    requires IsRun(run, steps) && s == run[|run| - 1] && !s.stuck
    requires SteadyRun(run, steps, true)
    requires ReviewsSucceed(s.world) && id in s.order && id in s.watchers
    requires ALL_NAMESPACES in s.watchers[id].visible
    requires ListAnswer(s.cache.index, s.world, s.watchers[id].user, Ok(answer))
    ensures s.watchers[id].known == KnownFrom(answer)
  {
    RunKeepsInvariant(run, steps, true);
    KnownVersionsListed(s, id, answer);
  }

  /** Replaying what a registered watcher's client has received and is still to receive, from nothing if
      it asked for existing projects and else from what List answered at registration, gives exactly what
      the watcher knows. */
  lemma ReplayGivesKnown<W>(run: seq<System<W>>, steps: seq<Step<W>>, s: System<W>, id: W)
    requires IsRun(run, steps) && s == run[|run| - 1] && !s.stuck
    requires SteadyRun(run, steps, false)
    requires id in s.order
    ensures id in s.watchers && id in s.origins && s.watchers[id].output.taken <= |Stream(s.watchers[id])|
    ensures var w, start := s.watchers[id], StartOf(s.origins[id]);
      && Legal(start, Stream(w)) && Replay(start, Stream(w)) == w.known
      && (!w.output.stopped ==> Replay(Replay(start, Handed(w.output)), Stream(w)[w.output.taken..]) == w.known)
  {
    RunKeepsInvariant(run, steps, false);
    assert Made(s.watchers[id], s.origins[id]) && KeepsUp(s.cache, s.watchers[id], s.origins[id], false);
    if !s.watchers[id].output.stopped {
      NothingLostBeforeStop(s.watchers[id], StartOf(s.origins[id]));
    }
  }

  /** Watch replay equals List: once a synchronization completes without a review error, a client that
      asked for existing projects and has not stopped gets to exactly the names List answers by replaying,
      from nothing, what it has received and is still to receive; a client that did not ask does so from
      what List answered when it registered. */
  lemma ReplayEqualsList<W>(run: seq<System<W>>, steps: seq<Step<W>>, s: System<W>, id: W, answer: seq<Namespace>)
    requires IsRun(run, steps) && s == run[|run| - 1] && !s.stuck
    requires SteadyRun(run, steps, false)
    requires id in s.order && id in s.watchers && id in s.origins && AllCheckable(s, s.watchers[id].user)
    requires ALL_NAMESPACES in s.watchers[id].visible && !s.watchers[id].output.stopped
    requires ListAnswer(s.cache.index, s.world, s.watchers[id].user, Ok(answer))
    ensures s.watchers[id].output.taken <= |Stream(s.watchers[id])|
    ensures var o, w := s.origins[id], s.watchers[id];
      var start := if o.includeExisting then map[] else KnownFrom(o.listed);
      Replay(Replay(start, Handed(w.output)), Stream(w)[w.output.taken..]).Keys == Names(answer)
  {
    ReplayGivesKnown(run, steps, s, id);
    WatchEqualsList(run, steps, s, id, answer);
  }

  /** ... and where versions are kept up with, also to the versions List answers. */
  lemma ReplayEqualsListVersions<W>(run: seq<System<W>>, steps: seq<Step<W>>, s: System<W>, id: W,
      answer: seq<Namespace>)
    requires IsRun(run, steps) && s == run[|run| - 1] && !s.stuck
    requires SteadyRun(run, steps, true)
    requires ReviewsSucceed(s.world) && id in s.order && id in s.watchers && id in s.origins
    requires ALL_NAMESPACES in s.watchers[id].visible && !s.watchers[id].output.stopped
    requires ListAnswer(s.cache.index, s.world, s.watchers[id].user, Ok(answer))
    ensures s.watchers[id].output.taken <= |Stream(s.watchers[id])|
    ensures var o, w := s.origins[id], s.watchers[id];
      var start := if o.includeExisting then map[] else KnownFrom(o.listed);
      Replay(Replay(start, Handed(w.output)), Stream(w)[w.output.taken..]) == KnownFrom(answer)
  {
    assert SteadyRun(run, steps, false) by {
      forall i | 0 <= i < |steps| ensures SteadyStep(run[i], steps[i], false) {
        assert SteadyStep(run[i], steps[i], true);
      }
    }
    ReplayGivesKnown(run, steps, s, id);
    WatchEqualsListVersions(run, steps, s, id, answer);
  }
}
