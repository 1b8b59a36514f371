/** What a notification does to a watcher, when its queue has room for it, and how much a synchronization may say
    before a queue overflows. */
module QueueRoom {
  import opened Common
  import opened RbacTypes
  import SubjectLocator
  import opened AccessIndex
  import opened Informers
  import opened Synchronization
  import opened ProjectWatcher
  import opened Notifications
  import opened WatchRuns

  /** There is room for `k` more among the at most 1000 accepted events that are not yet taken up. */
  predicate RoomFor(w: Watcher, k: nat) {
    && (w.output.taken <= |w.initial| ==> |w.accepted| + k <= 1000)
    && (w.output.taken > |w.initial| ==> |w.accepted| - (w.output.taken - |w.initial|) + k <= 1000)
  }

  /** What a note has to tell a watcher, if anything: that a namespace it is let see and knew is gone from the
      user's sight, or that one that is in the user's sight and can be looked up is new or has a new version. */
  function Due(w: Watcher, note: Note, get: string -> Lookup): Option<Event> {
    var n := note.namespace;
    if "*" !in w.visible && n !in w.visible then None
    else if w.user.name in note.users || exists g | g in w.user.groups :: g in note.groups then
      match get(n)
      case Found(version) =>
        if n !in w.known then Some(Added(Namespace(n, version)))
        else if w.known[n] != version then Some(Modified(Namespace(n, version)))
        else None
      case _ => None
    else if n in w.known then Some(Deleted(n))
    else None
  }

  /** A notification changes nothing unless something is due; then the watcher knows it, and with room for it
      among the 1000 queues it, while without it keeps the complaint. */
  lemma NotificationIs(w: Watcher, note: Note, get: string -> Lookup)
    ensures Due(w, note, get).None? ==> Offer(w, note, get) == w
    ensures Due(w, note, get).Some? && RoomFor(w, 1) ==>
              var event := Due(w, note, get).value;
              Offer(w, note, get) == w.(known := Fold(w.known, event), accepted := w.accepted + [event])
    ensures Due(w, note, get).Some? && !RoomFor(w, 1) ==>
              var event := Due(w, note, get).value;
              var complaint := if event.Deleted? then "delete notification timeout" else "add notification timeout";
              Offer(w, note, get) == w.(known := Fold(w.known, event), overflow := Some(complaint))
  {
  }

  /** With fewer than 1000 accepted events not yet taken up no notification overflows; with 1000, exactly those
      that have something to tell. */
  lemma OverflowsIff(w: Watcher, note: Note, get: string -> Lookup)
    requires w.overflow.None?
    ensures Offer(w, note, get).overflow.Some? <==> Due(w, note, get).Some? && !RoomFor(w, 1)
  {
    NotificationIs(w, note, get);
  }

  /** Once the Watch goroutine has taken up everything, there is room for 1000. */
  lemma CaughtUpHasRoom(w: Watcher)
    requires w.output.taken == |w.initial| + |w.accepted|
    ensures RoomFor(w, 1000) && !RoomFor(w, 1001)
  {
  }

  // ---- a round ---------------------------------------------------------------------------------

  /** At most `k` events were queued, and nothing was taken up. */
  ghost predicate QueuedAtMost(w: Watcher, w': Watcher, k: nat) {
    w'.initial == w.initial && w'.output == w.output && w'.overflow.None? && |w'.accepted| <= |w.accepted| + k
  }

  lemma OfferQueues(w0: Watcher, w: Watcher, k: nat, note: Note, get: string -> Lookup)
    requires QueuedAtMost(w0, w, k) && Offer(w, note, get).overflow.None?
    ensures QueuedAtMost(w0, Offer(w, note, get), k + 1)
  {
  }

  lemma QueuesMore(w0: Watcher, w1: Watcher, w2: Watcher, a: nat, b: nat, c: nat)
    requires QueuedAtMost(w0, w1, a) && QueuedAtMost(w1, w2, b) && c >= a + b
    ensures QueuedAtMost(w0, w2, c)
  {
  }

  lemma {:induction false} NotifiedQueues<W>(watchers: map<W, Watcher>, order: seq<W>, note: Note,
      get: string -> Lookup, id: W)
    requires forall x | x in order :: x in watchers
    requires id in watchers && watchers[id].overflow.None?
    requires !Notified(watchers, order, note, get).stuck
    ensures QueuedAtMost(watchers[id], Notified(watchers, order, note, get).watchers[id], multiset(order)[id])
  {
    if order != [] {
      var init, last := order[..|order| - 1], order[|order| - 1];
      NotifiedQueues(watchers, init, note, get, id);
      assert order == init + [last];
      var before := Notified(watchers, init, note, get).watchers;
      if last == id {
        OfferQueues(watchers[id], before[id], multiset(init)[id], note, get);
      }
    }
  }

  lemma {:induction false} NotifiedFits<W>(watchers: map<W, Watcher>, order: seq<W>, note: Note, get: string -> Lookup)
    requires forall x | x in order :: x in watchers
    requires forall x | x in order :: watchers[x].overflow.None? && RoomFor(watchers[x], multiset(order)[x])
    ensures !Notified(watchers, order, note, get).stuck
  {
    if order != [] {
      var init, last := order[..|order| - 1], order[|order| - 1];
      assert order == init + [last];
      NotifiedFits(watchers, init, note, get);
      NotifiedQueues(watchers, init, note, get, last);
      assert last in order;
      OverflowsIff(Notified(watchers, init, note, get).watchers[last], note, get);
    }
  }

  lemma {:induction false} RoundQueues<W>(watchers: map<W, Watcher>, order: seq<W>, notes: seq<Note>,
      get: string -> Lookup, id: W, times: nat)
    requires forall x | x in order :: x in watchers
    requires id in watchers && watchers[id].overflow.None? && times == multiset(order)[id]
    requires !AllNotified(watchers, order, notes, get).stuck
    ensures QueuedAtMost(watchers[id], AllNotified(watchers, order, notes, get).watchers[id], |notes| * times)
  {
    if notes != [] {
      var init, last := notes[..|notes| - 1], notes[|notes| - 1];
      RoundQueues(watchers, order, init, get, id, times);
      var before := AllNotified(watchers, order, init, get).watchers;
      NotifiedQueues(before, order, last, get, id);
      OneMoreTime(|init|, times);
      QueuesMore(watchers[id], before[id], Notified(before, order, last, get).watchers[id], |init| * times, times,
          |notes| * times);
    }
  }

  lemma OneMoreTime(n: nat, times: nat)
    ensures (n + 1) * times == n * times + times
  {
  }

  /** A round whose notes fit into the room of each listening watcher, as often as it listens, is not cut short. */
  lemma {:induction false} RoundFits<W>(watchers: map<W, Watcher>, order: seq<W>, notes: seq<Note>,
      get: string -> Lookup)
    requires forall x | x in order :: x in watchers
    requires forall x | x in order ::
        watchers[x].overflow.None? && RoomFor(watchers[x], |notes| * multiset(order)[x])
    ensures !AllNotified(watchers, order, notes, get).stuck
  {
    if notes != [] {
      var init, last := notes[..|notes| - 1], notes[|notes| - 1];
      forall x | x in order ensures RoomFor(watchers[x], |init| * multiset(order)[x] + multiset(order)[x]) {
        OneMoreTime(|init|, multiset(order)[x]);
      }
      RoundFits(watchers, order, init, get);
      forall x | x in order { RoundQueues(watchers, order, init, get, x, multiset(order)[x]); }
      NotifiedFits(AllNotified(watchers, order, init, get).watchers, order, last, get);
    }
  }

  // ---- runs ------------------------------------------------------------------------------------

  /** Each registered watcher is registered once and has not overflowed. */
  ghost predicate Orderly<W>(s: System<W>) {
    Registered(s) && forall id | id in s.order :: s.watchers[id].overflow.None? && multiset(s.order)[id] == 1
  }

  lemma {:induction false} RemoveFirstIsOnce<W>(order: seq<W>, id: W)
    requires forall x | x in order :: multiset(order)[x] == 1
    ensures multiset(RemoveFirst(order, id)) == multiset(order) - multiset{id}
    ensures forall x | x in RemoveFirst(order, id) :: x in order && multiset(RemoveFirst(order, id))[x] == 1
  {
    RemoveFirstCounts(order, id);
    RemoveFirstKeeps(order, id);
  }

  lemma {:induction false} RemoveFirstCounts<W>(order: seq<W>, id: W)
    ensures multiset(RemoveFirst(order, id)) == multiset(order) - multiset{id}
  {
    if order != [] {
      assert order == [order[0]] + order[1..];
      if order[0] != id {
        RemoveFirstCounts(order[1..], id);
      }
    }
  }

  lemma SyncKeepsOrderly<W>(s: System<W>, w: World, purged: seq<string>)
    requires Orderly(s) && CanTake(s, Sync(w, purged)) && !Take(s, Sync(w, purged)).stuck
    ensures Orderly(Take(s, Sync(w, purged)))
  {
    if !Skips(s.cache, w) {
      forall id | id in s.order ensures Take(s, Sync(w, purged)).watchers[id].overflow.None? {
        RoundQueues(s.watchers, s.order, NotesOf(s.cache, w, purged), w.getNamespace, id, 1);
      }
    }
  }

  lemma RegisterKeepsOrderly<W>(s: System<W>, step: Step<W>)
    requires Orderly(s) && step.Register? && CanTake(s, step)
    ensures Orderly(Take(s, step))
  {
    assert forall x | x in Take(s, step).order :: x in s.order || x == step.id;
  }

  lemma RemoveKeepsOrderly<W>(s: System<W>, id: W)
    requires Orderly(s) && CanTake(s, Remove(id))
    ensures Orderly(Take(s, Remove(id)))
  {
    RemoveFirstIsOnce(s.order, id);
  }

  lemma ActivityKeepsOrderly<W>(s: System<W>, id: W, action: Action)
    requires Orderly(s) && CanTake(s, Activity(id, action))
    ensures Orderly(Take(s, Activity(id, action)))
  {
    OnlyOutputChanges(s.watchers[id], action);
  }

  lemma StepKeepsOrderly<W>(s: System<W>, step: Step<W>)
    requires Orderly(s) && CanTake(s, step) && !Take(s, step).stuck
    ensures Orderly(Take(s, step))
  {
    match step {
      case Sync(w, purged) => SyncKeepsOrderly(s, w, purged);
      case Register(_, _, _, _, _) => RegisterKeepsOrderly(s, step);
      case Remove(id) => RemoveKeepsOrderly(s, id);
      case Activity(id, action) => ActivityKeepsOrderly(s, id, action);
    }
  }

  lemma {:induction false} RunIsOrderly<W>(run: seq<System<W>>, steps: seq<Step<W>>)
    requires IsRun(run, steps) && !run[|run| - 1].stuck
    ensures Orderly(run[|run| - 1])
    decreases |steps|
  {
    if steps != [] {
      var k := |steps| - 1;
      RunIsOrderly(run[..|steps|], steps[..k]);
      StepKeepsOrderly(run[k], steps[k]);
    }
  }

  /** How many namespaces, roles and role bindings are listed. */
  function ObjectsListed(w: World): nat {
    (if w.namespaces.Ok? then |w.namespaces.value| else 0) +
    (if w.roles.Ok? then |w.roles.value| else 0) +
    if w.roleBindings.Ok? then |w.roleBindings.value| else 0
  }

  lemma {:induction false} PassNotesAtMost(e: SubjectLocator.Evaluator, ix: Index, requests: seq<ReviewRequest>)
    ensures |SyncAll(e, ix, requests).notes| <= |requests|
  {
    if requests != [] {
      PassNotesAtMost(e, ix, requests[..|requests| - 1]);
    }
  }

  lemma {:induction false} EnumerationCounts(purged: seq<string>, gone: set<string>)
    requires Enumerates(purged, gone)
    ensures |purged| == |gone|
  {
    if purged == [] {
      assert gone == {};
    } else {
      var init, last := purged[..|purged| - 1], purged[|purged| - 1];
      assert Elements(init) == gone - {last};
      assert last in Elements(purged);
      EnumerationCounts(init, gone - {last});
    }
  }

  /** A synchronization announces at most one thing for each object listed and each namespace gone. */
  lemma NotesAtMost(st: CacheState, w: World, purged: seq<string>)
    requires Enumerates(purged, st.known - Listed(w))
    ensures |NotesOf(st, w, purged)| <= ObjectsListed(w) + |st.known - Listed(w)|
  {
    PassNotesAtMost(w.evaluator, Base(st, w), Requests(w));
    EnumerationCounts(purged, st.known - Listed(w));
  }

  /** In any run, a synchronization gets through if each registered watcher has room for one event for every
      object listed and every namespace gone. */
  lemma SynchronizationFits<W>(run: seq<System<W>>, steps: seq<Step<W>>, s: System<W>, w: World, purged: seq<string>)
    requires IsRun(run, steps) && s == run[|run| - 1]
    requires CanTake(s, Sync(w, purged))
    requires forall id | id in s.order && id in s.watchers ::
        RoomFor(s.watchers[id], ObjectsListed(w) + |s.cache.known - Listed(w)|)
    ensures Registered(s) && !Take(s, Sync(w, purged)).stuck
  {
    RunIsOrderly(run, steps);
    var notes := NotesOf(s.cache, w, purged);
    NotesAtMost(s.cache, w, purged);
    forall id | id in s.order ensures RoomFor(s.watchers[id], |notes| * multiset(s.order)[id]) {
      assert |notes| * multiset(s.order)[id] == |notes|;
    }
    RoundFits(s.watchers, s.order, notes, w.getNamespace);
  }

  /** In particular one that concerns at most 1000, if every registered watcher's goroutine has caught up. */
  lemma CaughtUpSynchronizationFits<W>(run: seq<System<W>>, steps: seq<Step<W>>, s: System<W>, w: World,
      purged: seq<string>)
    requires IsRun(run, steps) && s == run[|run| - 1]
    requires CanTake(s, Sync(w, purged))
    requires forall id | id in s.order && id in s.watchers ::
        s.watchers[id].output.taken == |s.watchers[id].initial| + |s.watchers[id].accepted|
    requires ObjectsListed(w) + |s.cache.known - Listed(w)| <= 1000
    ensures Registered(s) && !Take(s, Sync(w, purged)).stuck
  {
    forall id | id in s.order && id in s.watchers { CaughtUpHasRoom(s.watchers[id]); }
    SynchronizationFits(run, steps, s, w, purged);
  }
}
