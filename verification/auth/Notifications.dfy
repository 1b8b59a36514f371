/** What a round of notifications leaves every watcher knowing. */
module Notifications {
  import opened Common
  import opened RbacTypes
  import opened SubjectLocator
  import opened Reviewer
  import opened AccessIndex
  import opened Informers
  import opened ProjectWatcher

  /** The watcher knows the same about `n` in both states. */
  ghost predicate SameAt(w0: Watcher, w: Watcher, n: string) {
    (n in w.known <==> n in w0.known) && (n in w.known ==> w.known[n] == w0.known[n])
  }

  /** Same watcher, from `w0` to `w`; if it was told `note` about `n`, it now knows `n` at the lister's
      version when the note gives it access, and does not know it when the note does not. */
  ghost predicate At(w0: Watcher, w: Watcher, n: string, told: bool, note: Note, get: string -> Lookup) {
    && w.user == w0.user && w.visible == w0.visible && w.initial == w0.initial && w.output == w0.output
    && w0.accepted <= w.accepted
    && (told && HasAccess(w0.user, note.users, note.groups) && get(n).Found? ==>
          n in w.known && w.known[n] == get(n).resourceVersion)
    && (told && !HasAccess(w0.user, note.users, note.groups) ==> n !in w.known)
    && (!told || (HasAccess(w0.user, note.users, note.groups) && !get(n).Found?) ==> SameAt(w0, w, n))
  }

  lemma OfferAt(w0: Watcher, w: Watcher, n: string, told: bool, about: Note, get: string -> Lookup, note: Note)
    requires At(w0, w, n, told, about, get) && Sees(w0, n)
    requires note.namespace == n ==> note == about
    ensures At(w0, Offer(w, note, get), n, told || note.namespace == n, about, get)
  {
  }

  /** Some note of the round is about `n`. */
  ghost predicate ToldAbout(notes: seq<Note>, n: string) {
    exists note | note in notes :: note.namespace == n
  }

  lemma {:induction false} NotifiedAt<W>(w0: Watcher, watchers: map<W, Watcher>, order: seq<W>, id: W, n: string,
      told: bool, about: Note, get: string -> Lookup, note: Note)
    requires forall x | x in order :: x in watchers
    requires id in watchers && At(w0, watchers[id], n, told, about, get) && Sees(w0, n)
    requires note.namespace == n ==> note == about
    requires !Notified(watchers, order, note, get).stuck
    ensures At(w0, Notified(watchers, order, note, get).watchers[id], n, told ||
        (id in order && note.namespace == n), about, get)
  {
    if order != [] {
      var init, last := order[..|order| - 1], order[|order| - 1];
      assert forall x :: x in order <==> x in init || x == last;
      NotifiedAt(w0, watchers, init, id, n, told, about, get, note);
      if last == id {
        OfferAt(w0, Notified(watchers, init, note, get).watchers[id], n, told ||
            (id in init && note.namespace == n), about, get, note);
      }
    }
  }

  /** A round that is not cut short: for a listening watcher and a namespace it sees, all notes about
      which are alike, what it ends up knowing is decided by that note, or unchanged if there was none. */
  lemma {:induction false} RoundAt<W>(watchers: map<W, Watcher>, order: seq<W>, notes: seq<Note>, get: string -> Lookup,
      id: W, n: string, about: Note)
    requires forall x | x in order :: x in watchers
    requires id in order && Sees(watchers[id], n)
    requires forall note | note in notes && note.namespace == n :: note == about
    requires !AllNotified(watchers, order, notes, get).stuck
    ensures At(watchers[id], AllNotified(watchers, order, notes, get).watchers[id], n, ToldAbout(notes, n), about, get)
  {
    if notes != [] {
      var init, last := notes[..|notes| - 1], notes[|notes| - 1];
      assert forall note :: note in notes <==> note in init || note == last;
      RoundAt(watchers, order, init, get, id, n, about);
      var before := AllNotified(watchers, order, init, get);
      NotifiedAt(watchers[id], before.watchers, order, id, n, ToldAbout(init, n), about, get, last);
    }
  }

  /** A round in two halves. */
  lemma {:induction false} RoundAppend<W>(watchers: map<W, Watcher>, order: seq<W>, a: seq<Note>, b: seq<Note>,
      get: string -> Lookup)
    requires forall x | x in order :: x in watchers
    ensures var first := AllNotified(watchers, order, a, get);
      AllNotified(watchers, order, a + b, get) == if first.stuck then first
          else AllNotified(first.watchers, order, b, get)
  {
    if b == [] {
      assert a + b == a;
    } else {
      assert (a + b)[..|a + b| - 1] == a + b[..|b| - 1];
      RoundAppend(watchers, order, a, b[..|b| - 1], get);
    }
  }

  // ---- what holds of each watcher on its own ---------------------------------------------------

  /** The watcher has not overflowed and its stream so far, replayed over what it knew at the start,
      gives what it knows. */
  ghost predicate Faithful(w: Watcher, start: map<string, string>) {
    w.overflow.None? && WellLogged(w, start)
  }

  lemma {:induction false} NotifiedKeepsLog<W>(watchers: map<W, Watcher>, order: seq<W>, note: Note,
      get: string -> Lookup, id: W, start: map<string, string>)
    requires forall x | x in order :: x in watchers
    requires id in watchers && Faithful(watchers[id], start)
    requires !Notified(watchers, order, note, get).stuck
    ensures Faithful(Notified(watchers, order, note, get).watchers[id], start)
  {
    if order != [] {
      var init, last := order[..|order| - 1], order[|order| - 1];
      NotifiedKeepsLog(watchers, init, note, get, id, start);
      if last == id {
        OfferKeepsLog(Notified(watchers, init, note, get).watchers[id], note, get, start);
      }
    }
  }

  /** A round that is not cut short keeps every watcher's log well-formed and complete. */
  lemma {:induction false} RoundKeepsLog<W>(watchers: map<W, Watcher>, order: seq<W>, notes: seq<Note>,
      get: string -> Lookup, id: W, start: map<string, string>)
    requires forall x | x in order :: x in watchers
    requires id in watchers && Faithful(watchers[id], start)
    requires !AllNotified(watchers, order, notes, get).stuck
    ensures Faithful(AllNotified(watchers, order, notes, get).watchers[id], start)
  {
    if notes != [] {
      var init := notes[..|notes| - 1];
      RoundKeepsLog(watchers, order, init, get, id, start);
      NotifiedKeepsLog(AllNotified(watchers, order, init, get).watchers, order, notes[|notes| - 1], get, id, start);
    }
  }

  lemma {:induction false} NotifiedKeepsLive<W>(watchers: map<W, Watcher>, order: seq<W>, note: Note,
      get: string -> Lookup, id: W)
    requires forall x | x in order :: x in watchers
    requires id in watchers && Live(watchers[id])
    ensures Live(Notified(watchers, order, note, get).watchers[id])
  {
    if order != [] {
      var init, last := order[..|order| - 1], order[|order| - 1];
      NotifiedKeepsLive(watchers, init, note, get, id);
      var before := Notified(watchers, init, note, get);
      if last == id {
        OfferKeepsLive(before.watchers[id], note, get);
      }
    }
  }

  lemma {:induction false} RoundKeepsLive<W>(watchers: map<W, Watcher>, order: seq<W>, notes: seq<Note>,
      get: string -> Lookup, id: W)
    requires forall x | x in order :: x in watchers
    requires id in watchers && Live(watchers[id])
    ensures Live(AllNotified(watchers, order, notes, get).watchers[id])
  {
    if notes != [] {
      var init := notes[..|notes| - 1];
      RoundKeepsLive(watchers, order, init, get, id);
      NotifiedKeepsLive(AllNotified(watchers, order, init, get).watchers, order, notes[|notes| - 1], get, id);
    }
  }

  predicate SameMaking(w: Watcher, w': Watcher) {
    w.user == w'.user && w.visible == w'.visible && w.initial == w'.initial
  }

  lemma {:induction false} NotifiedKeepsMaking<W>(watchers: map<W, Watcher>, order: seq<W>, note: Note,
      get: string -> Lookup, id: W)
    requires forall x | x in order :: x in watchers
    requires id in watchers
    ensures SameMaking(Notified(watchers, order, note, get).watchers[id], watchers[id])
  {
    if order != [] {
      NotifiedKeepsMaking(watchers, order[..|order| - 1], note, get, id);
    }
  }

  /** No round changes what a watcher was made with. */
  lemma {:induction false} RoundKeepsMaking<W>(watchers: map<W, Watcher>, order: seq<W>, notes: seq<Note>,
      get: string -> Lookup, id: W)
    requires forall x | x in order :: x in watchers
    requires id in watchers
    ensures SameMaking(AllNotified(watchers, order, notes, get).watchers[id], watchers[id])
  {
    if notes != [] {
      var init := notes[..|notes| - 1];
      RoundKeepsMaking(watchers, order, init, get, id);
      NotifiedKeepsMaking(AllNotified(watchers, order, init, get).watchers, order, notes[|notes| - 1], get, id);
    }
  }

  // ---- watchers nobody asks about --------------------------------------------------------------

  /** The watchers of one map are among those of another, in the same state. */
  ghost predicate Among<W>(some: map<W, Watcher>, all: map<W, Watcher>) {
    forall id | id in some :: id in all && all[id] == some[id]
  }

  lemma {:induction false} NotifiedAmong<W>(some: map<W, Watcher>, all: map<W, Watcher>, order: seq<W>, note: Note,
      get: string -> Lookup)
    requires Among(some, all) && forall x | x in order :: x in some
    ensures Notified(some, order, note, get).stuck == Notified(all, order, note, get).stuck
    ensures Among(Notified(some, order, note, get).watchers, Notified(all, order, note, get).watchers)
  {
    if order != [] {
      NotifiedAmong(some, all, order[..|order| - 1], note, get);
    }
  }

  /** A round tells the watchers it is for the same, whatever other watchers there are. */
  lemma {:induction false} RoundAmong<W>(some: map<W, Watcher>, all: map<W, Watcher>, order: seq<W>, notes: seq<Note>,
      get: string -> Lookup)
    requires Among(some, all) && forall x | x in order :: x in some
    ensures AllNotified(some, order, notes, get).stuck == AllNotified(all, order, notes, get).stuck
    ensures Among(AllNotified(some, order, notes, get).watchers, AllNotified(all, order, notes, get).watchers)
  {
    if notes != [] {
      var init := notes[..|notes| - 1];
      RoundAmong(some, all, order, init, get);
      NotifiedAmong(AllNotified(some, order, init, get).watchers, AllNotified(all, order, init, get).watchers, order,
          notes[|notes| - 1], get);
    }
  }

  // ---- once stuck, stuck -----------------------------------------------------------------------

  lemma {:induction false} NotifiedStuckStays<W>(watchers: map<W, Watcher>, order: seq<W>, k: nat, note: Note,
      get: string -> Lookup)
    requires forall x | x in order :: x in watchers
    requires k <= |order| && Notified(watchers, order[..k], note, get).stuck
    ensures Notified(watchers, order, note, get) == Notified(watchers, order[..k], note, get)
    decreases |order|
  {
    if k == |order| {
      assert order[..k] == order;
    } else {
      var init := order[..|order| - 1];
      assert init[..k] == order[..k];
      NotifiedStuckStays(watchers, init, k, note, get);
    }
  }

  lemma NotifiedStep<W>(watchers: map<W, Watcher>, order: seq<W>, i: nat, note: Note, get: string -> Lookup)
    requires forall x | x in order :: x in watchers
    requires i < |order| && !Notified(watchers, order[..i], note, get).stuck
    ensures var before := Notified(watchers, order[..i], note, get).watchers;
      var offered := Offer(before[order[i]], note, get);
      Notified(watchers, order[..i + 1], note, get) == Told(before[order[i] := offered], offered.overflow.Some?)
  {
    assert order[..i + 1][..i] == order[..i];
  }

  lemma RoundOfOne<W>(watchers: map<W, Watcher>, order: seq<W>, note: Note, get: string -> Lookup)
    requires forall x | x in order :: x in watchers
    ensures AllNotified(watchers, order, [note], get) == Notified(watchers, order, note, get)
  {
    assert [note][..0] == [];
  }

  /** A round stuck before its end is stuck the same way whatever else was to be said. */
  lemma RoundStuckStays<W>(watchers: map<W, Watcher>, order: seq<W>, a: seq<Note>, b: seq<Note>, get: string -> Lookup)
    requires forall x | x in order :: x in watchers
    requires AllNotified(watchers, order, a, get).stuck
    ensures AllNotified(watchers, order, a + b, get) == AllNotified(watchers, order, a, get)
  {
    RoundAppend(watchers, order, a, b, get);
  }

  /** A pass under way: the index it has built, and what the watchers have been told. */
  datatype Progress<!W(==)> = Progress(index: Index, told: Told<W>)

  /** syncRequest: skipped or failed, it changes nothing and tells nobody; otherwise the review goes into
      the index and is announced. */
  function Step<W>(e: Evaluator, from: Progress<W>, order: seq<W>, request: ReviewRequest,
      get: string -> Lookup): (to: Progress<W>)
    requires forall x | x in order :: x in from.told.watchers
    ensures to.told.watchers.Keys == from.told.watchers.Keys
  {
    var n := request.namespace;
    if SkipReview(request, LastKnown(from.index.reviews, n)) then from
    else
      match Review(e, n)
      case Err(_) => from
      case Ok(subjects) => Taken(from, order, request, subjects, get)
  }

  /** A successful review taken into the index and announced. */
  function Taken<W>(from: Progress<W>, order: seq<W>, request: ReviewRequest, subjects: seq<Subject>,
      get: string -> Lookup): (to: Progress<W>)
    requires forall x | x in order :: x in from.told.watchers
    ensures to.told.watchers.Keys == from.told.watchers.Keys
  {
    var n := request.namespace;
    var users, groups := FlatUsers(subjects, n), FlatGroups(subjects);
    Progress(RecordReview(from.index, request, users, groups),
             Notified(from.told.watchers, order, Note(n, Elements(users), Elements(groups)), get))
  }

  lemma StepIsSyncRequest<W>(e: Evaluator, from: Progress<W>, order: seq<W>, request: ReviewRequest,
      get: string -> Lookup)
    requires forall x | x in order :: x in from.told.watchers
    requires !from.told.stuck
    ensures var one := SyncRequest(e, from.index, request);
      Step(e, from, order, request, get) == Progress(one.index, AllNotified(from.told.watchers, order, one.notes, get))
  {
    var one := SyncRequest(e, from.index, request);
    if one.notes != [] {
      RoundOfOne(from.told.watchers, order, one.notes[0], get);
    }
  }

  /** Requests worked off in turn, as far as the first full queue. */
  function Pass<W>(e: Evaluator, from: Progress<W>, order: seq<W>, requests: seq<ReviewRequest>,
      get: string -> Lookup): (to: Progress<W>)
    requires forall x | x in order :: x in from.told.watchers
    ensures to.told.watchers.Keys == from.told.watchers.Keys
  {
    if requests == [] then from
    else
      var before := Pass(e, from, order, requests[..|requests| - 1], get);
      if before.told.stuck then before else Step(e, before, order, requests[|requests| - 1], get)
  }

  lemma PassNext<W>(e: Evaluator, from: Progress<W>, order: seq<W>, requests: seq<ReviewRequest>, i: nat,
      get: string -> Lookup)
    requires forall x | x in order :: x in from.told.watchers
    requires i < |requests| && !Pass(e, from, order, requests[..i], get).told.stuck
    ensures Pass(e, from, order, requests[..i + 1], get) ==
        Step(e, Pass(e, from, order, requests[..i], get), order, requests[i], get)
  {
    assert requests[..i + 1][..i] == requests[..i];
  }

  lemma {:induction false} PassAppend<W>(e: Evaluator, from: Progress<W>, order: seq<W>, a: seq<ReviewRequest>,
      b: seq<ReviewRequest>, get: string -> Lookup)
    requires forall x | x in order :: x in from.told.watchers
    ensures var half := Pass(e, from, order, a, get);
      Pass(e, from, order, a + b, get) == if half.told.stuck then half else Pass(e, half, order, b, get)
  {
    if b == [] {
      assert a + b == a;
    } else {
      var init := b[..|b| - 1];
      PassAppend(e, from, order, a, init, get);
      assert (a + b)[..|a + b| - 1] == a + init;
    }
  }

  /** A pass that ended at request i, stuck there or with nothing left to do, is the whole pass. */
  lemma PassEndsAt<W>(e: Evaluator, from: Progress<W>, order: seq<W>, requests: seq<ReviewRequest>, i: nat,
      get: string -> Lookup)
    requires forall x | x in order :: x in from.told.watchers
    requires i <= |requests| && (Pass(e, from, order, requests[..i], get).told.stuck || i == |requests|)
    ensures Pass(e, from, order, requests, get) == Pass(e, from, order, requests[..i], get)
  {
    assert requests[..i] + requests[i..] == requests;
    PassAppend(e, from, order, requests[..i], requests[i..], get);
  }

  /** The requests of several listings, one listing after the other. */
  function Joined(listings: seq<seq<ReviewRequest>>): seq<ReviewRequest> {
    if listings == [] then [] else Joined(listings[..|listings| - 1]) + listings[|listings| - 1]
  }

  lemma PassListing<W>(e: Evaluator, from: Progress<W>, order: seq<W>, listings: seq<seq<ReviewRequest>>, i: nat,
      get: string -> Lookup)
    requires forall x | x in order :: x in from.told.watchers
    requires i < |listings| && !Pass(e, from, order, Joined(listings[..i]), get).told.stuck
    ensures Pass(e, from, order, Joined(listings[..i + 1]), get) ==
            Pass(e, Pass(e, from, order, Joined(listings[..i]), get), order, listings[i], get)
  {
    assert listings[..i + 1][..i] == listings[..i];
    PassAppend(e, from, order, Joined(listings[..i]), listings[i], get);
  }

  /** A pass that ended at listing i of a snapshot's three, stuck there or with nothing left to do, is the
      whole pass. */
  lemma PassOfListings<W>(w: World, from: Progress<W>, order: seq<W>, listings: seq<seq<ReviewRequest>>, i: nat)
    requires forall x | x in order :: x in from.told.watchers
    requires listings == [NamespaceRequests(w), RoleRequests(w), BindingRequests(w)] && i <= 3
    requires Pass(w.evaluator, from, order, Joined(listings[..i]), w.getNamespace).told.stuck || i == 3
    ensures Pass(w.evaluator, from, order, Requests(w), w.getNamespace) ==
            Pass(w.evaluator, from, order, Joined(listings[..i]), w.getNamespace)
  {
    JoinedListings(w, listings);
    if i < 3 {
      var all, some := Requests(w), Joined(listings[..i]);
      assert all[..|some|] == some;
      PassEndsAt(w.evaluator, from, order, all, |some|, w.getNamespace);
    }
  }

  lemma JoinedListings(w: World, listings: seq<seq<ReviewRequest>>)
    requires listings == [NamespaceRequests(w), RoleRequests(w), BindingRequests(w)]
    ensures Joined(listings[..0]) == [] && Joined(listings[..1]) == NamespaceRequests(w)
    ensures Joined(listings[..2]) == NamespaceRequests(w) + RoleRequests(w)
    ensures Joined(listings[..3]) == Requests(w)
  {
    assert listings[..3][..2] == listings[..2] && listings[..2][..1] == listings[..1] && listings[..1][..0] == [];
    assert [] + NamespaceRequests(w) == NamespaceRequests(w);
  }

  /** What a pass tells the watchers is the round of all its notes; it leaves the index SyncAll leaves,
      unless it got stuck, and one that is consistent in any case. */
  lemma {:induction false} PassIsSyncAll<W>(e: Evaluator, ix: Index, watchers: map<W, Watcher>, order: seq<W>,
      requests: seq<ReviewRequest>, get: string -> Lookup)
    requires forall x | x in order :: x in watchers
    requires Consistent(ix)
    ensures var p, all := Pass(e, Progress(ix, Told(watchers, false)), order, requests, get), SyncAll(e, ix, requests);
      p.told == AllNotified(watchers, order, all.notes, get) && (!p.told.stuck ==> p.index == all.index) &&
          Consistent(p.index)
  {
    if requests != [] {
      var init, last := requests[..|requests| - 1], requests[|requests| - 1];
      PassIsSyncAll(e, ix, watchers, order, init, get);
      var before := SyncAll(e, ix, init);
      var one := SyncRequest(e, before.index, last);
      var half := Pass(e, Progress(ix, Told(watchers, false)), order, init, get);
      if !half.told.stuck {
        StepIsSyncRequest(e, half, order, last, get);
      }
      RoundAppend(watchers, order, before.notes, one.notes, get);
      SyncAllKeepsConsistent(e, ix, requests);
    }
  }

  /** One more note at the end of a round. */
  lemma RoundStep<W>(watchers: map<W, Watcher>, order: seq<W>, notes: seq<Note>, i: nat, get: string -> Lookup)
    requires forall x | x in order :: x in watchers
    requires i < |notes| && !AllNotified(watchers, order, notes[..i], get).stuck
    ensures AllNotified(watchers, order, notes[..i + 1], get) ==
        Notified(AllNotified(watchers, order, notes[..i], get).watchers, order, notes[i], get)
  {
    assert notes[..i + 1][..i] == notes[..i];
  }

  /** A round that ended at note i, stuck there or with nothing left to say, is the whole round. */
  lemma RoundStopsAt<W>(watchers: map<W, Watcher>, order: seq<W>, notes: seq<Note>, i: nat, get: string -> Lookup)
    requires forall x | x in order :: x in watchers
    requires i <= |notes| && (AllNotified(watchers, order, notes[..i], get).stuck || i == |notes|)
    ensures AllNotified(watchers, order, notes, get) == AllNotified(watchers, order, notes[..i], get)
  {
    assert notes[..i] + notes[i..] == notes;
    if i < |notes| {
      RoundStuckStays(watchers, order, notes[..i], notes[i..], get);
    } else {
      assert notes[..i] == notes;
    }
  }
}
