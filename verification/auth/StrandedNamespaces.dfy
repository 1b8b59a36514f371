/** Where watchers and List part: a namespace announced for the sake of a role and then forgotten. */
module StrandedNamespaces {
  import opened Common
  import opened RbacTypes
  import opened SubjectLocator
  import opened Reviewer
  import opened AccessIndex
  import opened Informers
  import opened SkipToken
  import opened Synchronization
  import opened ProjectWatcher
  import opened Notifications
  import opened WatchRuns

  /** A stranded namespace stays known to every watcher of the user that sees it, though List answers it no
      more: it is announced while it is reviewed, and purged without a word since it was not known before. */
  lemma StrandedStaysKnown<W>(s: System<W>, w: World, purged: seq<string>, id: W, n: string)
    requires Invariant(s, false) && CanTake(s, Sync(w, purged)) && !Skips(s.cache, w)
    requires !Take(s, Sync(w, purged)).stuck && id in s.order && Sees(s.watchers[id], n)
    requires Stranded(s.cache, w, s.watchers[id].user, n)
    ensures n in Take(s, Sync(w, purged)).watchers[id].known
    ensures n !in IndexedFor(Take(s, Sync(w, purged)).cache.index, s.watchers[id].user)
  {
    var mid := SyncTells(s.cache, w, purged, s.watchers, s.order, id, n);
    SynchronizationKeepsInvariant(s.cache, w);
    IndexedIffReviewed(CacheAfter(s.cache, w).index, s.watchers[id].user, n);
  }

  /** An overlooked namespace stays unknown to the watcher, though it is indexed for its user: nothing announces
      it until it is reviewed again. */
  lemma OverlookedStaysUnknown<W>(s: System<W>, w: World, purged: seq<string>, id: W, n: string)
    requires Invariant(s, false) && CanTake(s, Sync(w, purged)) && !Skips(s.cache, w)
    requires !Take(s, Sync(w, purged)).stuck && id in s.order && Sees(s.watchers[id], n)
    requires Overlooked(s.cache, w, s.watchers[id], n)
    ensures n !in Take(s, Sync(w, purged)).watchers[id].known
    ensures n in IndexedFor(Take(s, Sync(w, purged)).cache.index, s.watchers[id].user)
  {
    var mid := SyncTells(s.cache, w, purged, s.watchers, s.order, id, n);
    SynchronizationKeepsInvariant(s.cache, w);
    PassEffect(w.evaluator, Base(s.cache, w), Requests(w), n);
    IndexedIffReviewed(CacheAfter(s.cache, w).index, s.watchers[id].user, n);
  }

  // ---- an example ------------------------------------------------------------------------------

  /** Namespaces cannot be listed, but one can be looked up, and a role in it is listed. */
  function Unlistable(): World {
    var policy := Policy((ns, n) => Ok(Viewer()), ns => Ok([]), n => Err("not found"), Ok([]));
    World(Versions("3", "", "", "1", ""), Err("unavailable"), n => if n == "dev" then Found("3") else NotFound,
          Ok([Viewer()]), Ok([]), Ok([]), Ok([]), Evaluator("", policy))
  }

  function Viewer(): Role {
    Role(ObjectMeta("dev", "viewer", "u1", "1"), [])
  }

  function Admin(): UserInfo {
    UserInfo("admin", [SYSTEM_PRIVILEGED_GROUP])
  }

  /** What its only review answers: the privileged group. */
  function AdminNote(): Note {
    Note("dev", {}, {SYSTEM_PRIVILEGED_GROUP})
  }

  lemma OnlyAdminsMay(e: Evaluator)
    requires e == Unlistable().evaluator
    ensures Review(e, "dev") == Ok(ImplicitSubjects(""))
    ensures FlatUsers(ImplicitSubjects(""), "dev") == [] &&
        FlatGroups(ImplicitSubjects("")) == [SYSTEM_PRIVILEGED_GROUP]
    ensures ReviewNote(e, "dev") == AdminNote()
  {
    assert Subjects(e, Reviewer.Action("dev")) == ImplicitSubjects("");
    assert ImplicitSubjects("")[..0] == [];
  }

  lemma OneNote(w: World)
    requires w == Unlistable()
    ensures Base(NEW_CACHE, w) == EMPTY_INDEX
    ensures Requests(w) == [RoleRequest(Viewer())]
    ensures SyncAll(w.evaluator, EMPTY_INDEX, Requests(w)).notes == [AdminNote()]
    ensures Reviewed(w.evaluator, EMPTY_INDEX, Requests(w), "dev")
  {
    var e, request := w.evaluator, RoleRequest(Viewer());
    OnlyAdminsMay(e);
    assert Requests(w) == [request] && [request][..0] == [];
    assert request in Requests(w) && !SkipReview(request, LastKnown(EMPTY_INDEX.reviews, "dev"));
    assert SyncAll(e, EMPTY_INDEX, [request]).notes == [] + SyncRequest(e, EMPTY_INDEX, request).notes;
    assert SyncRequest(e, EMPTY_INDEX, request).notes ==
        [Note("dev", Elements<string>([]), Elements([SYSTEM_PRIVILEGED_GROUP]))];
  }

  /** The failing listing matters: an administrator's watcher is told of a namespace that List does not
      answer. */
  lemma FailedListingStrands() returns (run: seq<System<nat>>, steps: seq<Step<nat>>)
    ensures IsRun(run, steps) && Misled(run[|run| - 1], 0, "dev")
  {
    var w := Unlistable();
    var s0 := InitialSystem(w);
    var s1 := Registering(s0, w);
    var s2 := Synchronizing(s1, w);
    run, steps := [s0, s1, s2], [AdminRegisters(), Sync(w, [])];
    TwoSteps(s0, AdminRegisters(), s1, Sync(w, []), s2, w);
  }

  /** All that `WatchEqualsList` asks of the last state holds, and the watcher knows a namespace that List
      does not answer. */
  ghost predicate Misled(s: System<nat>, id: nat, n: string) {
    && !s.stuck && ReadyForAccess(s.cache) && ReviewsSucceed(s.world) && id in s.order && id in s.watchers
    && ALL_NAMESPACES in s.watchers[id].visible && n in s.watchers[id].known
    && ListAnswer(s.cache.index, s.world, s.watchers[id].user, Ok([]))
  }

  lemma TwoSteps(s0: System<nat>, a: Step<nat>, s1: System<nat>, b: Step<nat>, s2: System<nat>, w: World)
    requires s0 == InitialSystem(w) && TakesTo(s0, a, s1) && TakesTo(s1, b, s2)
    ensures IsRun([s0, s1, s2], [a, b])
  {
    assert IsInitial(s0);
    assert IsRun([s0], []);
    OneStepMore([s0], [], a, s1);
    OneStepMore([s0, s1], [a], b, s2);
    assert [s0] + [s1] == [s0, s1] && [] + [a] == [a] && [s0, s1] + [s2] == [s0, s1, s2] && [a] + [b] == [a, b];
  }

  function AdminRegisters(): Step<nat> {
    Register(0, Admin(), {ALL_NAMESPACES}, true, [])
  }

  function AdminWatcher(): Watcher {
    NewWatcher(Admin(), {ALL_NAMESPACES}, [], true)
  }

  lemma Registering(s0: System<nat>, w: World) returns (s1: System<nat>)
    requires w == Unlistable() && s0 == InitialSystem(w)
    ensures TakesTo(s0, AdminRegisters(), s1) && Invariant(s1, false)
    ensures !s1.stuck && s1.cache == NEW_CACHE && s1.watchers == map[0 := AdminWatcher()] && s1.order == [0]
  {
    InitialInvariant<nat>(w, false);
    NothingIsListed(s0.cache.index, w);
    s1 := Take(s0, AdminRegisters());
    RegisterKeepsInvariant(s0, AdminRegisters(), false);
  }

  lemma Synchronizing(s1: System<nat>, w: World) returns (s2: System<nat>)
    requires w == Unlistable() && Invariant(s1, false)
    requires !s1.stuck && s1.cache == NEW_CACHE && s1.watchers == map[0 := AdminWatcher()] && s1.order == [0]
    ensures TakesTo(s1, Sync(w, []), s2) && Misled(s2, 0, "dev")
  {
    OneNote(w);
    SyncIsPossible(s1, w);
    s2 := Take(s1, Sync(w, []));
    OnlyAdminsMay(w.evaluator);
    AdminIsStranded(w);
    StrandedStaysKnown(s1, w, [], 0, "dev");
    RoundKeepsMaking(s1.watchers, s1.order, NotesOf(s1.cache, w, []), w.getNamespace, 0);
    NothingIsLeft(w);
  }

  lemma SyncIsPossible(s1: System<nat>, w: World)
    requires w == Unlistable() && !s1.stuck && s1.cache == NEW_CACHE && s1.watchers == map[0 := AdminWatcher()] &&
        s1.order == [0]
    requires Base(NEW_CACHE, w) == EMPTY_INDEX
    requires SyncAll(w.evaluator, EMPTY_INDEX, Requests(w)).notes == [AdminNote()]
    ensures CanTake(s1, Sync(w, [])) && !Skips(NEW_CACHE, w)
    ensures !AllNotified(s1.watchers, s1.order, NotesOf(NEW_CACHE, w, []), w.getNamespace).stuck
  {
    ReadyFromTheFirstSync([]);
    assert Enumerates([], s1.cache.known - Listed(w));
    TheNoteIsTaken(s1.watchers, w);
  }

  lemma NothingIsLeft(w: World)
    requires w == Unlistable()
    ensures var st := CacheAfter(NEW_CACHE, w); ReadyForAccess(st) && ListAnswer(st.index, w, Admin(), Ok([]))
  {
    EmptyIndexIsConsistent();
    FailedListingEmptiesTheIndex(NEW_CACHE, w);
    NothingIsListed(CacheAfter(NEW_CACHE, w).index, w);
    TokenIs(w.versions);
  }

  lemma NothingIsListed(ix: Index, w: World)
    requires ix == EMPTY_INDEX
    ensures ListAnswer(ix, w, Admin(), Ok([]))
  {
    assert IndexedFor(ix, Admin()) == {};
  }

  lemma AdminIsStranded(w: World)
    requires w == Unlistable() && ReviewNote(w.evaluator, "dev") == AdminNote()
    requires Base(NEW_CACHE, w) == EMPTY_INDEX && Reviewed(w.evaluator, EMPTY_INDEX, Requests(w), "dev")
    ensures Stranded(NEW_CACHE, w, Admin(), "dev")
  {
    assert SYSTEM_PRIVILEGED_GROUP in Admin().groups;
  }

  lemma TheNoteIsTaken(watchers: map<nat, Watcher>, w: World)
    requires w == Unlistable() && watchers == map[0 := AdminWatcher()]
    requires Base(NEW_CACHE, w) == EMPTY_INDEX
    requires SyncAll(w.evaluator, EMPTY_INDEX, Requests(w)).notes == [AdminNote()]
    ensures !AllNotified(watchers, [0], NotesOf(NEW_CACHE, w, []), w.getNamespace).stuck
  {
    assert NotesOf(NEW_CACHE, w, []) == [AdminNote()];
    RoomForOne(AdminWatcher(), AdminNote(), w.getNamespace);
    LoneWatcher(watchers, AdminWatcher(), AdminNote(), w.getNamespace);
  }

  lemma RoomForOne(w: Watcher, note: Note, get: string -> Lookup)
    requires w.overflow.None? && QueueLength(w) == 0
    ensures Offer(w, note, get).overflow.None?
  {
  }

  lemma LoneWatcher(watchers: map<nat, Watcher>, w: Watcher, note: Note, get: string -> Lookup)
    requires watchers == map[0 := w] && Offer(w, note, get).overflow.None?
    ensures !AllNotified(watchers, [0], [note], get).stuck
  {
    RoundOfOne(watchers, [0], note, get);
    assert [0][..0] == [];
  }
}
