/** The cache as an object: stores updated in place or rebuilt and swapped, and the watchers it notifies. */
module AuthorizationCaches {
  import opened Common
  import opened RbacTypes
  import opened Reviewer
  import opened AccessIndex
  import opened Informers
  import opened ChangeDetector
  import opened SkipToken
  import opened ProjectWatcher
  import opened Notifications
  import opened Synchronization
  import opened Stores
  import opened WatcherObjects

  /** When a pass got stuck, what its purge would have announced makes no difference. */
  lemma StuckBeforePurge<W>(watchers: map<W, Watcher>, order: seq<W>, notes: seq<Note>, gone: set<string>,
      get: string -> Lookup)
    returns (purged: seq<string>)
    requires forall x | x in order :: x in watchers
    requires AllNotified(watchers, order, notes, get).stuck
    ensures Enumerates(purged, gone)
    ensures AllNotified(watchers, order, notes + GoneNotes(purged), get) == AllNotified(watchers, order, notes, get)
  {
    purged := EnumerationExists(gone);
    RoundStuckStays(watchers, order, notes, GoneNotes(purged), get);
  }

  class AuthorizationCache {
    var allKnownNamespaces: set<string>
    var stores: StoreSet
    var clusterRoleResourceVersions: VersionSet
    var clusterRoleBindingResourceVersions: VersionSet
    var lastState: string
    var watchers: seq<UserProjectWatcher>

    ghost predicate WatchersValid()
      reads this`watchers, watchers
    {
      forall watcher | watcher in watchers :: watcher.Valid()
    }

    ghost function WatcherStates(): map<UserProjectWatcher, Watcher>
      requires WatchersValid()
      reads this`watchers, watchers
    {
      map watcher | watcher in watchers :: watcher.State()
    }

    /** The stores are well-formed, and neither the cache's other objects nor its watchers are part of them. */
    ghost predicate Apart(s: StoreSet)
      reads this`watchers, this`clusterRoleResourceVersions, this`clusterRoleBindingResourceVersions, s, s.Repr
    {
      && s.Valid() && this !in s.Repr
      && clusterRoleResourceVersions !in s.Repr && clusterRoleBindingResourceVersions !in s.Repr
      && forall watcher | watcher in watchers :: watcher !in s.Repr
    }

    ghost predicate Valid()
      reads this`stores, this`watchers, this`clusterRoleResourceVersions, this`clusterRoleBindingResourceVersions,
            stores, stores.Repr, watchers
    {
      Apart(stores) && WatchersValid() && Consistent(stores.Contents())
    }

    ghost function State(): CacheState
      reads this, stores.users, stores.groups, stores.reviews, clusterRoleResourceVersions,
          clusterRoleBindingResourceVersions
    {
      CacheState(stores.Contents(), allKnownNamespaces, lastState,
                 Recorded(clusterRoleResourceVersions.versions, clusterRoleBindingResourceVersions.versions))
    }

    constructor ()
      ensures Valid() && State() == NEW_CACHE && watchers == []
      ensures fresh(stores.Repr) && fresh(clusterRoleResourceVersions) && fresh(clusterRoleBindingResourceVersions)
    {
      allKnownNamespaces, lastState, watchers := {}, "", [];
      stores := new StoreSet();
      clusterRoleResourceVersions := new VersionSet();
      clusterRoleBindingResourceVersions := new VersionSet();
      new;
      EmptyIndexIsConsistent();
    }

    // ---- watchers --------------------------------------------------------------------------------

    method AddWatcher(watcher: UserProjectWatcher)
      requires Valid() && watcher.Valid() && watcher !in stores.Repr
      modifies this`watchers
      ensures Valid() && watchers == old(watchers) + [watcher]
      ensures WatcherStates() == old(WatcherStates())[watcher := watcher.State()]
    {
      watchers := watchers + [watcher];
    }

    method RemoveWatcher(watcher: UserProjectWatcher)
      requires Valid()
      modifies this`watchers
      ensures Valid() && watchers == RemoveFirst(old(watchers), watcher)
    {
      RemoveFirstKeeps(watchers, watcher);
      for i := 0 to |watchers|
        invariant watchers == old(watchers) && watcher !in watchers[..i]
      {
        RemoveFirstAt(watchers, watcher, i);
        if watchers[i] == watcher {
          watchers := watchers[..i] + watchers[i + 1..];
          return;
        }
        assert watchers[..i + 1] == watchers[..i] + [watchers[i]];
      }
      assert watchers[..|watchers|] == watchers;
      RemoveFirstAt(watchers, watcher, |watchers|);
    }

    /** A watcher that changed state, with all others as they were. */
    lemma OneChanged(before: map<UserProjectWatcher, Watcher>, watcher: UserProjectWatcher)
      requires WatchersValid() && watcher in watchers && before.Keys == WatcherStates().Keys
      requires forall other | other in watchers && other != watcher :: other.State() == before[other]
      ensures WatcherStates() == before[watcher := watcher.State()]
    {
    }

    /** Tell one watcher; `full` when its queue had no room. */
    method NotifyWatcher(i: nat, note: Note, w: World) returns (full: bool)
      requires WatchersValid() && i < |watchers|
      modifies watchers[i]
      ensures WatchersValid()
      ensures WatcherStates() ==
          old(WatcherStates())[watchers[i] := Offer(old(WatcherStates())[watchers[i]], note, w.getNamespace)]
      ensures full == watchers[i].overflow.Some?
    {
      var watcher := watchers[i];
      ghost var before := WatcherStates();
      assert note == Note(note.namespace, note.users, note.groups);
      watcher.GroupMembershipChanged(note.namespace, note.users, note.groups, w.getNamespace);
      full := watcher.overflow.Some?;
      OneChanged(before, watcher);
    }

    /** Tell every watcher in turn. A full queue ends it: the watcher's RemoveWatcher waits for the lock
        held here, so nothing after `stuck` ever happens. */
    method NotifyWatchers(note: Note, w: World) returns (stuck: bool)
      requires WatchersValid()
      modifies watchers
      ensures WatchersValid()
      ensures Told(WatcherStates(), stuck) == Notified(old(WatcherStates()), watchers, note, w.getNamespace)
    {
      ghost var before := WatcherStates();
      var i := 0;
      stuck := false;
      while i < |watchers| && !stuck
        invariant i <= |watchers| && WatchersValid()
        invariant Told(WatcherStates(), stuck) == Notified(before, watchers[..i], note, w.getNamespace)
      {
        NotifiedStep(before, watchers, i, note, w.getNamespace);
        stuck := NotifyWatcher(i, note, w);
        i := i + 1;
      }
      if stuck {
        NotifiedStuckStays(before, watchers, i, note, w.getNamespace);
      } else {
        assert watchers[..i] == watchers;
      }
    }

    // ---- requests --------------------------------------------------------------------------------

    ghost function Standing(s: StoreSet, stuck: bool): Progress<UserProjectWatcher>
      requires WatchersValid()
      reads this`watchers, watchers, s, s.users, s.groups, s.reviews
    {
      Progress(s.Contents(), Told(WatcherStates(), stuck))
    }

    method SyncRequest(request: ReviewRequest, w: World, s: StoreSet) returns (stuck: bool)
      requires Apart(s) && WatchersValid()
      modifies s.Repr, watchers
      ensures Apart(s) && WatchersValid() && fresh(s.Repr - old(s.Repr))
      ensures Standing(s, stuck) == Step(w.evaluator, old(Standing(s, false)), watchers, request, w.getNamespace)
    {
      stuck := false;
      var lastKnown := LastKnown(s.reviews.records, request.namespace);
      if SkipReview(request, lastKnown) {
        return;
      }
      var review := AskEvaluator(w.evaluator, request.namespace);
      if review.Err? {
        return;
      }
      stuck := TakeReview(request, review.value, w, s);
    }

    /** A review that succeeded goes into the stores and is announced. */
    method TakeReview(request: ReviewRequest, subjects: seq<Subject>, w: World, s: StoreSet) returns (stuck: bool)
      requires Apart(s) && WatchersValid()
      modifies s.Repr, watchers
      ensures Apart(s) && WatchersValid() && fresh(s.Repr - old(s.Repr))
      ensures Standing(s, stuck) == Taken(old(Standing(s, false)), watchers, request, subjects, w.getNamespace)
    {
      var users, groups := Flatten(subjects, request.namespace);
      stuck := TakeNames(request, users, groups, w, s);
    }

    method TakeNames(request: ReviewRequest, users: seq<string>, groups: seq<string>, w: World, s: StoreSet)
        returns (stuck: bool)
      requires Apart(s) && WatchersValid()
      modifies s.Repr, watchers
      ensures Apart(s) && WatchersValid() && fresh(s.Repr - old(s.Repr))
      ensures s.Contents() == RecordReview(old(s.Contents()), request, users, groups)
      ensures Told(WatcherStates(), stuck) ==
              Notified(old(WatcherStates()), watchers, Note(request.namespace, Elements(users), Elements(groups)),
                  w.getNamespace)
    {
      ReplaceQuietly(request, users, groups, s);
      stuck := Announce(Note(request.namespace, Elements(users), Elements(groups)), w, s);
    }

    /** ReplaceReview, which leaves the watchers alone. */
    method ReplaceQuietly(request: ReviewRequest, users: seq<string>, groups: seq<string>, s: StoreSet)
      requires Apart(s) && WatchersValid()
      modifies s.Repr
      ensures Apart(s) && fresh(s.Repr - old(s.Repr))
      ensures s.Contents() == RecordReview(old(s.Contents()), request, users, groups)
      ensures WatchersValid() && WatcherStates() == old(WatcherStates())
    {
      s.ReplaceReview(request, users, groups);
      assert unchanged(watchers);
    }

    /** NotifyWatchers, which leaves the stores alone. */
    method Announce(note: Note, w: World, ghost s: StoreSet) returns (stuck: bool)
      requires Apart(s) && WatchersValid()
      modifies watchers
      ensures Apart(s) && s.Repr == old(s.Repr) && s.Contents() == old(s.Contents())
      ensures WatchersValid()
      ensures Told(WatcherStates(), stuck) == Notified(old(WatcherStates()), watchers, note, w.getNamespace)
    {
      stuck := NotifyWatchers(note, w);
    }

    /** The loop of synchronizeNamespaces, synchronizeRoles or synchronizeRoleBindings over one listing's requests. */
    method SyncEach(requests: seq<ReviewRequest>, w: World, s: StoreSet) returns (stuck: bool)
      requires Apart(s) && WatchersValid()
      modifies s.Repr, watchers
      ensures Apart(s) && WatchersValid() && fresh(s.Repr - old(s.Repr))
      ensures Standing(s, stuck) == Pass(w.evaluator, old(Standing(s, false)), watchers, requests, w.getNamespace)
    {
      ghost var from := Standing(s, false);
      stuck := false;
      var i := 0;
      while i < |requests| && !stuck
        invariant i <= |requests| && Apart(s) && WatchersValid() && fresh(s.Repr - old(s.Repr))
        invariant Standing(s, stuck) == Pass(w.evaluator, from, watchers, requests[..i], w.getNamespace)
      {
        PassNext(w.evaluator, from, watchers, requests, i, w.getNamespace);
        stuck := SyncRequest(requests[i], w, s);
        i := i + 1;
      }
      PassEndsAt(w.evaluator, from, watchers, requests, i, w.getNamespace);
    }

    // ---- synchronize -----------------------------------------------------------------------------

    /** synchronizeNamespaces, then synchronizeRoles, then synchronizeRoleBindings. A failed listing has no
        requests. */
    method SynchronizeAll(w: World, s: StoreSet) returns (stuck: bool)
      requires Apart(s) && WatchersValid()
      modifies s.Repr, watchers
      ensures Apart(s) && WatchersValid() && fresh(s.Repr - old(s.Repr))
      ensures Standing(s, stuck) == Pass(w.evaluator, old(Standing(s, false)), watchers, Requests(w), w.getNamespace)
    {
      ghost var from := Standing(s, false);
      var listings := [NamespaceRequests(w), RoleRequests(w), BindingRequests(w)];
      var i := 0;
      stuck := false;
      while i < |listings| && !stuck
        invariant i <= |listings| && Apart(s) && WatchersValid() && fresh(s.Repr - old(s.Repr))
        invariant Standing(s, stuck) == Pass(w.evaluator, from, watchers, Joined(listings[..i]), w.getNamespace)
      {
        PassListing(w.evaluator, from, watchers, listings, i, w.getNamespace);
        stuck := SyncEach(listings[i], w, s);
        i := i + 1;
      }
      PassOfListings(w, from, watchers, listings, i);
    }

    /** Tell every watcher each of these in turn, as far as the first full queue. */
    method NotifyAll(notes: seq<Note>, w: World) returns (stuck: bool)
      requires WatchersValid()
      modifies watchers
      ensures WatchersValid()
      ensures Told(WatcherStates(), stuck) == AllNotified(old(WatcherStates()), watchers, notes, w.getNamespace)
    {
      ghost var states := WatcherStates();
      var i := 0;
      stuck := false;
      while i < |notes| && !stuck
        invariant i <= |notes| && WatchersValid()
        invariant Told(WatcherStates(), stuck) == AllNotified(states, watchers, notes[..i], w.getNamespace)
      {
        RoundStep(states, watchers, notes, i, w.getNamespace);
        stuck := NotifyWatchers(notes[i], w);
        i := i + 1;
      }
      RoundStopsAt(states, watchers, notes, i, w.getNamespace);
    }

    /** Tell the watchers that nobody has access to these namespaces any more, which leaves the stores alone. */
    method AnnounceGone(purged: seq<string>, w: World, ghost s: StoreSet) returns (stuck: bool)
      requires Apart(s) && WatchersValid()
      modifies watchers
      ensures Apart(s) && s.Repr == old(s.Repr) && s.Contents() == old(s.Contents())
      ensures WatchersValid()
      ensures Told(WatcherStates(), stuck) ==
          AllNotified(old(WatcherStates()), watchers, GoneNotes(purged), w.getNamespace)
    {
      stuck := NotifyAll(GoneNotes(purged), w);
    }

    /** PurgeRecords, which leaves the watchers alone. */
    method PurgeQuietly(newNamespaces: set<string>, s: StoreSet)
      requires Apart(s) && WatchersValid() && Consistent(s.Contents())
      modifies s.Repr
      ensures Apart(s) && s.Repr == old(s.Repr)
      ensures s.Contents() == Purge(old(s.Contents()), newNamespaces)
      ensures WatchersValid() && WatcherStates() == old(WatcherStates())
    {
      s.PurgeRecords(newNamespaces);
      assert unchanged(watchers);
    }

    /** Forget the reviews of namespaces no longer listed, then announce those that were known before. */
    method PurgeDeletedNamespaces(oldNamespaces: set<string>, newNamespaces: set<string>, w: World, s: StoreSet)
      returns (stuck: bool, ghost purged: seq<string>)
      requires Apart(s) && WatchersValid() && Consistent(s.Contents())
      modifies s.Repr, watchers
      ensures Apart(s) && WatchersValid() && Consistent(s.Contents()) && s.Repr == old(s.Repr)
      ensures s.Contents() == Purge(old(s.Contents()), newNamespaces)
      ensures Enumerates(purged, oldNamespaces - newNamespaces)
      ensures Told(WatcherStates(), stuck) ==
          AllNotified(old(WatcherStates()), watchers, GoneNotes(purged), w.getNamespace)
    {
      PurgeKeepsConsistent(s.Contents(), newNamespaces);
      PurgeQuietly(newNamespaces, s);
      var order := Enumerate(oldNamespaces - newNamespaces);
      purged := order;
      stuck := AnnounceGone(order, w, s);
    }

    /** Bring one set of stores up to date, from `ix`. Only these stores and the watchers are written: when
        `s` is newly made for a rebuild, nothing reachable from the published stores changes at any point. */
    method RefreshStores(w: World, s: StoreSet, ghost ix: Index) returns (stuck: bool, ghost purged: seq<string>)
      requires Apart(s) && WatchersValid() && Consistent(ix) && s.Contents() == ix
      modifies s.Repr, watchers
      ensures Apart(s) && WatchersValid() && Consistent(s.Contents()) && fresh(s.Repr - old(s.Repr))
      ensures Enumerates(purged, allKnownNamespaces - Listed(w))
      ensures !stuck ==> s.Contents() == Refresh(ix, w)
      ensures Told(WatcherStates(), stuck) == AllNotified(old(WatcherStates()), watchers,
                SyncAll(w.evaluator, ix, Requests(w)).notes + GoneNotes(purged), w.getNamespace)
    {
      ghost var states := WatcherStates();
      stuck := MakePass(w, s, ix);
      if stuck {
        purged := StuckBeforePurge(states, watchers, SyncAll(w.evaluator, ix, Requests(w)).notes,
            allKnownNamespaces - Listed(w), w.getNamespace);
      } else {
        stuck, purged := PurgeAfter(w, s, ix, states);
      }
    }

    /** SynchronizeAll as one pass over an index. */
    method MakePass(w: World, s: StoreSet, ghost ix: Index) returns (stuck: bool)
      requires Apart(s) && WatchersValid() && Consistent(ix) && s.Contents() == ix
      modifies s.Repr, watchers
      ensures Apart(s) && WatchersValid() && Consistent(s.Contents()) && fresh(s.Repr - old(s.Repr))
      ensures !stuck ==> s.Contents() == SyncAll(w.evaluator, ix, Requests(w)).index
      ensures Told(WatcherStates(), stuck) ==
              AllNotified(old(WatcherStates()), watchers, SyncAll(w.evaluator, ix, Requests(w)).notes, w.getNamespace)
    {
      PassIsSyncAll(w.evaluator, ix, WatcherStates(), watchers, Requests(w), w.getNamespace);
      stuck := SynchronizeAll(w, s);
    }

    /** The purge that ends a pass. */
    method PurgeAfter(w: World, s: StoreSet, ghost ix: Index, ghost states: map<UserProjectWatcher, Watcher>)
      returns (stuck: bool, ghost purged: seq<string>)
      requires Apart(s) && WatchersValid() && (forall watcher | watcher in watchers :: watcher in states)
      requires s.Contents() == SyncAll(w.evaluator, ix, Requests(w)).index && Consistent(s.Contents())
      requires Told(WatcherStates(), false) ==
          AllNotified(states, watchers, SyncAll(w.evaluator, ix, Requests(w)).notes, w.getNamespace)
      modifies s.Repr, watchers
      ensures Apart(s) && WatchersValid() && Consistent(s.Contents()) && s.Repr == old(s.Repr)
      ensures Enumerates(purged, allKnownNamespaces - Listed(w))
      ensures s.Contents() == Refresh(ix, w)
      ensures Told(WatcherStates(), stuck) == AllNotified(states, watchers,
                SyncAll(w.evaluator, ix, Requests(w)).notes + GoneNotes(purged), w.getNamespace)
    {
      stuck, purged := PurgeDeletedNamespaces(allKnownNamespaces, Listed(w), w, s);
      RoundAppend(states, watchers, SyncAll(w.evaluator, ix, Requests(w)).notes, GoneNotes(purged), w.getNamespace);
    }

    /** invalidateCache: when the role versions differ, the scratch set becomes the recorded one and is
        then cleared and refilled with binding versions. */
    method InvalidateCache(w: World) returns (invalidate: bool)
      modifies this`clusterRoleResourceVersions, this`clusterRoleBindingResourceVersions
      ensures clusterRoleResourceVersions == old(clusterRoleResourceVersions) || fresh(clusterRoleResourceVersions)
      ensures clusterRoleBindingResourceVersions == old(clusterRoleBindingResourceVersions) ||
          fresh(clusterRoleBindingResourceVersions)
      ensures Answer(invalidate,
          Recorded(clusterRoleResourceVersions.versions, clusterRoleBindingResourceVersions.versions)) ==
              Detect(old(Recorded(clusterRoleResourceVersions.versions, clusterRoleBindingResourceVersions.versions)),
                     CallOf(w.clusterRoles, w.clusterRoleBindings))
    {
      invalidate := false;
      if w.clusterRoles.Err? {
        return;
      }
      var temporaryVersions := new VersionSet();
      temporaryVersions.InsertRoles(w.clusterRoles.value);
      if clusterRoleResourceVersions.DiffersFrom(temporaryVersions) {
        invalidate := true;
        clusterRoleResourceVersions := temporaryVersions;
      }
      if w.clusterRoleBindings.Err? {
        return;
      }
      temporaryVersions.Clear();
      temporaryVersions.InsertBindings(w.clusterRoleBindings.value);
      if clusterRoleBindingResourceVersions.DiffersFrom(temporaryVersions) {
        invalidate := true;
        clusterRoleBindingResourceVersions := temporaryVersions;
      }
    }

    /** RefreshStores on stores made for a rebuild, which leaves the published ones exactly as they are. */
    method RefreshBeside(w: World, s: StoreSet, ghost ix: Index) returns (stuck: bool, ghost purged: seq<string>)
      requires Apart(stores) && s.Repr !! stores.Repr
      requires Apart(s) && WatchersValid() && Consistent(ix) && s.Contents() == ix
      modifies s.Repr, watchers
      ensures Apart(stores) && stores.Contents() == old(stores.Contents())
      ensures forall o | o in old(stores.Repr) :: unchanged(o)
      ensures Apart(s) && WatchersValid() && fresh(s.Repr - old(s.Repr))
      ensures Enumerates(purged, allKnownNamespaces - Listed(w))
      ensures !stuck ==> s.Contents() == Refresh(ix, w)
      ensures Told(WatcherStates(), stuck) == AllNotified(old(WatcherStates()), watchers,
                SyncAll(w.evaluator, ix, Requests(w)).notes + GoneNotes(purged), w.getNamespace)
    {
      stuck, purged := RefreshStores(w, s, ix);
    }

    /** Rebuild in new stores, to be swapped in by the caller. */
    method Rebuild(w: World, ghost ix: Index) returns (s: StoreSet, stuck: bool, ghost purged: seq<string>)
      requires Apart(stores) && WatchersValid() && ix == EMPTY_INDEX
      modifies watchers
      ensures Apart(stores) && stores.Contents() == old(stores.Contents())
      ensures forall o | o in old(stores.Repr) :: unchanged(o)
      ensures Apart(s) && WatchersValid() && fresh(s.Repr)
      ensures Enumerates(purged, allKnownNamespaces - Listed(w))
      ensures !stuck ==> s.Contents() == Refresh(ix, w)
      ensures Told(WatcherStates(), stuck) == AllNotified(old(WatcherStates()), watchers,
                SyncAll(w.evaluator, ix, Requests(w)).notes + GoneNotes(purged), w.getNamespace)
    {
      s := new StoreSet();
      EmptyIndexIsConsistent();
      stuck, purged := RefreshBeside(w, s, ix);
    }

    /** Rebuild and, unless stuck on the way, swap. */
    method RebuildAndSwap(w: World, ghost ix: Index) returns (stuck: bool, ghost purged: seq<string>)
      requires Apart(stores) && WatchersValid() && ix == EMPTY_INDEX
      modifies this`stores, watchers
      ensures Apart(stores) && WatchersValid()
      ensures Enumerates(purged, allKnownNamespaces - Listed(w))
      ensures stores.Contents() == if stuck then old(stores.Contents()) else Refresh(ix, w)
      ensures Told(WatcherStates(), stuck) == AllNotified(old(WatcherStates()), watchers,
                SyncAll(w.evaluator, ix, Requests(w)).notes + GoneNotes(purged), w.getNamespace)
      ensures forall o | o in old(stores.Repr) :: unchanged(o)
      ensures if stuck then stores == old(stores) else fresh(stores.Repr)
    {
      var s;
      s, stuck, purged := Rebuild(w, ix);
      if !stuck {
        Swap(s);
      }
    }

    /** Publish other stores, which leaves the watchers alone. */
    method Swap(s: StoreSet)
      requires Apart(s) && WatchersValid()
      modifies this`stores
      ensures stores == s && Apart(stores) && s.Repr == old(s.Repr) && stores.Contents() == old(s.Contents())
      ensures WatchersValid() && WatcherStates() == old(WatcherStates())
    {
      stores := s;
    }

    /** Rebuild and swap, or update in place, whichever the change detector asks for. */
    method RebuildOrUpdate(w: World, invalidate: bool, ghost ix: Index) returns (stuck: bool, ghost purged: seq<string>)
      requires Apart(stores) && WatchersValid() && Consistent(stores.Contents())
      requires ix == if invalidate then EMPTY_INDEX else stores.Contents()
      modifies this`stores, stores.Repr, watchers
      ensures Apart(stores) && WatchersValid() && (stuck ==> Consistent(stores.Contents()))
      ensures Enumerates(purged, allKnownNamespaces - Listed(w))
      ensures !stuck ==> stores.Contents() == Refresh(ix, w)
      ensures Told(WatcherStates(), stuck) == AllNotified(old(WatcherStates()), watchers,
                SyncAll(w.evaluator, ix, Requests(w)).notes + GoneNotes(purged), w.getNamespace)
      ensures invalidate ==> forall o | o in old(stores.Repr) :: unchanged(o)
      ensures if invalidate && !stuck then fresh(stores.Repr) else stores == old(stores)
      ensures fresh(stores.Repr - old(stores.Repr))
    {
      if invalidate {
        stuck, purged := RebuildAndSwap(w, ix);
      } else {
        stuck, purged := RefreshStores(w, stores, ix);
      }
    }

    method Synchronize(w: World) returns (stuck: bool, ghost purged: seq<string>)
      requires Valid()
      modifies this, stores.Repr, watchers
      ensures Valid() && watchers == old(watchers)
      // skipped: nothing happens
      ensures Skips(old(State()), w) ==> !stuck && State() == old(State()) && WatcherStates() == old(WatcherStates())
      // otherwise: the watchers are told everything, as far as the first full queue
      ensures !Skips(old(State()), w) ==>
                && Enumerates(purged, old(allKnownNamespaces) - Listed(w))
                && Told(WatcherStates(), stuck) ==
                   AllNotified(old(WatcherStates()), watchers, NotesOf(old(State()), w, purged), w.getNamespace)
      // and unless stuck the cache reaches its next state
      ensures !Skips(old(State()), w) && !stuck ==> State() == CacheAfter(old(State()), w)
      // rebuild isolation: the published stores are not written, and what replaces them is new
      ensures !Skips(old(State()), w) && Detected(old(State()), w).invalidate ==>
                && (forall o | o in old(stores.Repr) :: unchanged(o))
                && (if stuck then stores == old(stores) else fresh(stores.Repr))
      ensures fresh(stores.Repr - old(stores.Repr))
    {
      stuck, purged := false, [];
      var currentState := Token(w.versions);
      if currentState == lastState {
        return;
      }
      SynchronizationKeepsInvariant(State(), w);
      stuck, purged := Advance(w, State());
    }

    /** A synchronization that is not skipped. */
    method Advance(w: World, ghost st: CacheState) returns (stuck: bool, ghost purged: seq<string>)
      requires Apart(stores) && WatchersValid() && Consistent(stores.Contents()) && st == State()
      modifies this, stores.Repr, watchers
      ensures Apart(stores) && WatchersValid() && watchers == old(watchers) && (stuck ==> Consistent(stores.Contents()))
      ensures Enumerates(purged, st.known - Listed(w))
      ensures Told(WatcherStates(), stuck) ==
              AllNotified(old(WatcherStates()), watchers, NotesOf(st, w, purged), w.getNamespace)
      ensures !stuck ==> State() == CacheAfter(st, w)
      ensures Detected(st, w).invalidate ==>
                && (forall o | o in old(stores.Repr) :: unchanged(o))
                && (if stuck then stores == old(stores) else fresh(stores.Repr))
      ensures fresh(stores.Repr - old(stores.Repr))
    {
      var invalidate := InvalidateQuietly(w, st);
      stuck, purged := UpdateAndCommit(w, invalidate, Base(st, w));
    }

    /** What follows the change detector's answer. */
    method UpdateAndCommit(w: World, invalidate: bool, ghost ix: Index) returns (stuck: bool, ghost purged: seq<string>)
      requires Apart(stores) && WatchersValid() && Consistent(stores.Contents())
      requires ix == if invalidate then EMPTY_INDEX else stores.Contents()
      modifies this`stores, this`allKnownNamespaces, this`lastState, stores.Repr, watchers
      ensures Apart(stores) && WatchersValid() && (stuck ==> Consistent(stores.Contents()))
      ensures Enumerates(purged, old(allKnownNamespaces) - Listed(w))
      ensures Told(WatcherStates(), stuck) == AllNotified(old(WatcherStates()), watchers,
                SyncAll(w.evaluator, ix, Requests(w)).notes + GoneNotes(purged), w.getNamespace)
      ensures !stuck ==>
                && stores.Contents() == Refresh(ix, w)
                && allKnownNamespaces == Listed(w) && lastState == Token(w.versions)
      ensures invalidate ==> forall o | o in old(stores.Repr) :: unchanged(o)
      ensures if invalidate && !stuck then fresh(stores.Repr) else stores == old(stores)
      ensures fresh(stores.Repr - old(stores.Repr))
    {
      stuck, purged := RebuildOrUpdate(w, invalidate, ix);
      if !stuck {
        Commit(Listed(w), Token(w.versions));
      }
    }

    /** The end of a synchronization, which leaves stores and watchers alone. */
    method Commit(newKnownNamespaces: set<string>, currentState: string)
      requires Apart(stores) && WatchersValid()
      modifies this`allKnownNamespaces, this`lastState
      ensures Apart(stores) && WatchersValid() && WatcherStates() == old(WatcherStates())
      ensures stores.Contents() == old(stores.Contents())
      ensures allKnownNamespaces == newKnownNamespaces && lastState == currentState
    {
      allKnownNamespaces := newKnownNamespaces;
      lastState := currentState;
    }

    /** InvalidateCache, which leaves stores and watchers alone. */
    method InvalidateQuietly(w: World, ghost st: CacheState) returns (invalidate: bool)
      requires Apart(stores) && WatchersValid() && st == State()
      modifies this`clusterRoleResourceVersions, this`clusterRoleBindingResourceVersions
      ensures Apart(stores) && WatchersValid() && WatcherStates() == old(WatcherStates())
      ensures invalidate == Detected(st, w).invalidate
      ensures State() == st.(recorded := Detected(st, w).recorded)
    {
      invalidate := InvalidateCache(w);
    }

    // ---- reading ---------------------------------------------------------------------------------

    function ReadyForAccess(): bool
      reads this
    {
      |lastState| > 0
    }

    /** The names recorded for the user and for each of their groups. */
    method CollectNames(user: UserInfo) returns (keys: set<string>)
      requires Valid()
      ensures keys == IndexedFor(stores.Contents(), user)
    {
      keys := {};
      var record := stores.users.GetByKey(user.name);
      if record != null {
        keys := record.namespaces;
      }
      ghost var own := keys;
      for i := 0 to |user.groups|
        invariant keys == own + GroupNames(stores.Contents(), user.groups[..i])
      {
        record := stores.groups.GetByKey(user.groups[i]);
        if record != null {
          keys := keys + record.namespaces;
        }
        assert user.groups[..i + 1] == user.groups[..i] + [user.groups[i]];
      }
      assert user.groups[..|user.groups|] == user.groups;
    }

    method List(user: UserInfo, w: World) returns (answer: Result<seq<Namespace>, Error>)
      requires Valid()
      ensures ListAnswer(stores.Contents(), w, user, answer)
    {
      var keys := CollectNames(user);
      var items: seq<Namespace> := [];
      var rest := keys;
      while rest != {}
        invariant rest <= keys && LookedUp(w, keys - rest, items)
      {
        var key :| key in rest;
        var namespace := w.getNamespace(key);
        if namespace.Failed? {
          return Err(namespace.error);
        }
        LookUpOneMore(w, keys - rest, items, key);
        assert keys - (rest - {key}) == (keys - rest) + {key};
        rest := rest - {key};
        if namespace.Found? {
          items := items + [Namespace(key, namespace.resourceVersion)];
        }
      }
      assert keys - {} == keys;
      answer := Ok(items);
    }

    /** Watch: a new watcher is made from what List answers and registered. When List fails the source
        dereferences its nil answer; here no watcher comes about. */
    method Watch(user: UserInfo, visibleNamespaces: set<string>, includeAllExistingProjects: bool, w: World)
      returns (watcher: Result<UserProjectWatcher, Error>, ghost answer: Result<seq<Namespace>, Error>)
      requires Valid()
      modifies this`watchers
      ensures Valid() && ListAnswer(stores.Contents(), w, user, answer)
      ensures answer.Err? ==> watcher == Err(answer.error) && watchers == old(watchers)
      ensures answer.Ok? ==>
                && watcher.Ok? && fresh(watcher.value) && watchers == old(watchers) + [watcher.value]
                && WatcherStates() ==
                   old(WatcherStates())[watcher.value :=
                       NewWatcher(user, visibleNamespaces, answer.value, includeAllExistingProjects)]
    {
      var listed := List(user, w);
      answer := listed;
      if listed.Err? {
        return Err(listed.error), answer;
      }
      var made := AddNewWatcher(user, visibleNamespaces, listed.value, includeAllExistingProjects);
      watcher := Ok(made);
    }

    method AddNewWatcher(user: UserInfo, visibleNamespaces: set<string>, listed: seq<Namespace>,
        includeAllExistingProjects: bool)
      returns (watcher: UserProjectWatcher)
      requires Valid()
      modifies this`watchers
      ensures Valid() && fresh(watcher) && watchers == old(watchers) + [watcher]
      ensures WatcherStates() ==
          old(WatcherStates())[watcher := NewWatcher(user, visibleNamespaces, listed, includeAllExistingProjects)]
    {
      watcher := new UserProjectWatcher(user, visibleNamespaces, listed, includeAllExistingProjects);
      AddWatcher(watcher);
    }
  }
}
