/** One client's watch: membership notifications in, an event log out, through bounded channels. */
module ProjectWatcher {
  import opened Common
  import opened RbacTypes
  import opened Reviewer
  import opened AccessIndex
  import opened Informers

  /** Capacity of cacheIncoming. */
  const QUEUE_CAPACITY := 1000

  const ALL_NAMESPACES: string := "*"

  datatype Event =
    | Added(namespace: Namespace)
    | Modified(namespace: Namespace)
    | Deleted(name: string)
    | Failure(message: string)

  /** Where the Watch goroutine is: about to look at its channels, blocked in emit, or gone. */
  datatype Phase = Ready | Emitting(event: Event) | Ended

  /** userProjectWatcher, with its channels as values. `accepted` is everything ever sent on
      cacheIncoming and `outgoing` everything received from the result channel. The Watch goroutine takes
      up the initial projects and then the accepted events; `taken` counts both. */
  datatype Watcher = Watcher(
    user: UserInfo,
    visible: set<string>,
    initial: seq<Event>,        // initialProjects, as the Added events they are emitted as
    known: map<string, string>,
    accepted: seq<Event>,
    overflow: Option<string>,   // the complaint of a send that found the queue full
    output: Output)

  /** The consuming side of a watcher. */
  datatype Output = Output(
    taken: nat,
    failure: Option<string>,    // cacheError
    reported: bool,             // the overflow was put on cacheError
    stopped: bool,              // userStop is closed
    phase: Phase,
    outgoing: seq<Event>)

  /** How many events wait in cacheIncoming. */
  function QueueLength(w: Watcher): int {
    |w.accepted| - if w.output.taken > |w.initial| then w.output.taken - |w.initial| else 0
  }

  function KnownFrom(items: seq<Namespace>): map<string, string> {
    if items == [] then map[]
    else KnownFrom(items[..|items| - 1])[items[|items| - 1].name := items[|items| - 1].resourceVersion]
  }

  function AddedEvents(items: seq<Namespace>): seq<Event> {
    seq(|items|, i requires 0 <= i < |items| => Added(items[i]))
  }

  /** NewUserProjectWatcher, given what List answered for the user. */
  function NewWatcher(user: UserInfo, visible: set<string>, listed: seq<Namespace>, includeExisting: bool): Watcher {
    Watcher(user, visible, if includeExisting then AddedEvents(listed) else [], KnownFrom(listed),
            [], None, Output(0, None, false, false, Ready, []))
  }

  // ---- GroupMembershipChanged ------------------------------------------------------------------

  predicate Sees(w: Watcher, namespace: string) {
    ALL_NAMESPACES in w.visible || namespace in w.visible
  }

  /** A non-blocking send on cacheIncoming. */
  function Send(w: Watcher, event: Event, complaint: string): Watcher {
    if QueueLength(w) < QUEUE_CAPACITY then w.(accepted := w.accepted + [event])
    else w.(overflow := Some(complaint))
  }

  function Offer(w: Watcher, note: Note, get: string -> Lookup): Watcher {
    var n := note.namespace;
    if !Sees(w, n) then w
    else if !HasAccess(w.user, note.users, note.groups) then
      if n !in w.known then w
      else Send(w.(known := w.known - {n}), Deleted(n), "delete notification timeout")
    else
      match get(n)
      case NotFound => w
      case Failed(_) => w
      case Found(version) =>
        if n in w.known && w.known[n] == version then w
        else
          var project := Namespace(n, version);
          Send(w.(known := w.known[n := version]), if n in w.known then Modified(project)
              else Added(project), "add notification timeout")
  }

  // ---- the event log ---------------------------------------------------------------------------

  /** What a client that knows `known` knows after one more event. */
  function Fold(known: map<string, string>, event: Event): map<string, string> {
    match event
    case Added(ns) => known[ns.name := ns.resourceVersion]
    case Modified(ns) => known[ns.name := ns.resourceVersion]
    case Deleted(n) => known - {n}
    case Failure(_) => known
  }

  function Replay(known: map<string, string>, events: seq<Event>): map<string, string> {
    if events == [] then known
    else Fold(Replay(known, events[..|events| - 1]), events[|events| - 1])
  }

  /** Added only when unknown, Modified only when known at another version, Deleted only when known. */
  predicate LegalNext(known: map<string, string>, event: Event) {
    match event
    case Added(ns) => ns.name !in known
    case Modified(ns) => ns.name in known && known[ns.name] != ns.resourceVersion
    case Deleted(n) => n in known
    case Failure(_) => false
  }

  predicate Legal(known: map<string, string>, events: seq<Event>) {
    forall k | 0 <= k < |events| :: LegalNext(Replay(known, events[..k]), events[k])
  }

  lemma ReplayOneMore(known: map<string, string>, events: seq<Event>, event: Event)
    ensures Replay(known, events + [event]) == Fold(Replay(known, events), event)
    ensures Legal(known, events) && LegalNext(Replay(known, events), event) ==> Legal(known, events + [event])
  {
    var all := events + [event];
    assert all[..|events|] == events;
    assert forall k | 0 <= k <= |events| :: all[..k] == events[..k];
  }

  lemma {:induction false} ReplayAppend(known: map<string, string>, a: seq<Event>, b: seq<Event>)
    ensures Replay(known, a + b) == Replay(Replay(known, a), b)
  {
    if b == [] {
      assert a + b == a;
    } else {
      var init := b[..|b| - 1];
      ReplayAppend(known, a, init);
      assert (a + b)[..|a + b| - 1] == a + init;
    }
  }

  lemma ReplayFrom(known: map<string, string>, events: seq<Event>, taken: nat)
    requires taken <= |events|
    ensures events[..taken] + events[taken..] == events
    ensures Replay(Replay(known, events[..taken]), events[taken..]) == Replay(known, events)
  {
    assert events[..taken] + events[taken..] == events;
    ReplayAppend(known, events[..taken], events[taken..]);
  }

  /** The whole stream a client is to see: initial projects, then accepted events. */
  function Stream(w: Watcher): seq<Event> {
    w.initial + w.accepted
  }

  /** The log invariant: the stream's events alternate legally from what the client knew at the start
      and fold to what the watcher knows. */
  ghost predicate WellLogged(w: Watcher, start: map<string, string>) {
    Legal(start, Stream(w)) && Replay(start, Stream(w)) == w.known
  }

  /** What a client knows before its stream begins: nothing if it asked for existing projects. */
  function Start(listed: seq<Namespace>, includeExisting: bool): map<string, string> {
    if includeExisting then map[] else KnownFrom(listed)
  }

  ghost predicate DistinctNames(items: seq<Namespace>) {
    forall i, j | 0 <= i < j < |items| :: items[i].name != items[j].name
  }

  lemma {:induction false} AddedEventsReplay(items: seq<Namespace>)
    requires DistinctNames(items)
    ensures Legal(map[], AddedEvents(items)) && Replay(map[], AddedEvents(items)) == KnownFrom(items)
  {
    if items != [] {
      var init, last := items[..|items| - 1], items[|items| - 1];
      AddedEventsReplay(init);
      KnownFromContains(init);
      assert last.name !in KnownFrom(init);
      assert AddedEvents(items) == AddedEvents(init) + [Added(last)];
      ReplayOneMore(map[], AddedEvents(init), Added(last));
    }
  }

  lemma {:induction false} KnownFromContains(items: seq<Namespace>)
    requires DistinctNames(items)
    ensures forall n :: n in KnownFrom(items) <==> exists ns | ns in items :: ns.name == n
    ensures forall ns | ns in items :: KnownFrom(items)[ns.name] == ns.resourceVersion
  {
    if items != [] {
      var init, last := items[..|items| - 1], items[|items| - 1];
      KnownFromContains(init);
      assert forall ns :: ns in items <==> ns in init || ns == last;
    }
  }

  lemma NewWatcherIsWellLogged(user: UserInfo, visible: set<string>, listed: seq<Namespace>, includeExisting: bool)
    requires DistinctNames(listed)
    ensures WellLogged(NewWatcher(user, visible, listed, includeExisting), Start(listed, includeExisting))
  {
    AddedEventsReplay(listed);
    assert AddedEvents(listed) + [] == AddedEvents(listed);
  }

  /** One notification, with whatever the namespace lister answers at the time. */
  datatype Notification = Notification(note: Note, get: string -> Lookup)

  function OfferAll(w: Watcher, notifications: seq<Notification>): Watcher {
    if notifications == [] then w
    else
      var last := notifications[|notifications| - 1];
      Offer(OfferAll(w, notifications[..|notifications| - 1]), last.note, last.get)
  }

  lemma OverflowIsFinal(w: Watcher, note: Note, get: string -> Lookup)
    ensures Offer(w, note, get).overflow.None? ==> w.overflow.None?
  {
  }

  /** What an offer that does not overflow can do: nothing, or one legal event and its effect. */
  lemma OfferEffect(w: Watcher, note: Note, get: string -> Lookup)
    requires Offer(w, note, get).overflow.None?
    ensures var w' := Offer(w, note, get);
      || (w'.known == w.known && w'.accepted == w.accepted && w'.initial == w.initial)
      || exists event | LegalNext(w.known, event) ::
          Stream(w') == Stream(w) + [event] && w'.known == Fold(w.known, event)
  {
    var n, w' := note.namespace, Offer(w, note, get);
    if w'.accepted != w.accepted {
      var event := w'.accepted[|w.accepted|];
      assert Stream(w') == Stream(w) + [event];
      assert LegalNext(w.known, event) && w'.known == Fold(w.known, event);
    }
  }

  lemma OfferKeepsLog(w: Watcher, note: Note, get: string -> Lookup, start: map<string, string>)
    requires WellLogged(w, start) && Offer(w, note, get).overflow.None?
    ensures WellLogged(Offer(w, note, get), start)
  {
    OfferEffect(w, note, get);
    var w' := Offer(w, note, get);
    if w'.known != w.known || w'.accepted != w.accepted {
      var event :| LegalNext(w.known, event) && Stream(w') == Stream(w) + [event] && w'.known == Fold(w.known, event);
      ReplayOneMore(start, Stream(w), event);
    } else {
      assert Stream(w') == Stream(w);
    }
  }

  lemma {:induction false} OffersKeepLog(w: Watcher, notifications: seq<Notification>, start: map<string, string>)
    requires WellLogged(w, start) && OfferAll(w, notifications).overflow.None?
    ensures WellLogged(OfferAll(w, notifications), start)
  {
    if notifications != [] {
      var init, last := notifications[..|notifications| - 1], notifications[|notifications| - 1];
      OverflowIsFinal(OfferAll(w, init), last.note, last.get);
      OffersKeepLog(w, init, start);
      OfferKeepsLog(OfferAll(w, init), last.note, last.get, start);
    }
  }

  /** Event-log well-formedness: for any notifications up to the first overflow, each namespace's events
      alternate legally and replaying the stream yields what the watcher knows, names and versions. */
  lemma LogIsWellFormed(user: UserInfo, visible: set<string>, listed: seq<Namespace>, includeExisting: bool,
      notifications: seq<Notification>)
    requires DistinctNames(listed)
    requires OfferAll(NewWatcher(user, visible, listed, includeExisting), notifications).overflow.None?
    ensures var w := OfferAll(NewWatcher(user, visible, listed, includeExisting), notifications);
      Legal(Start(listed, includeExisting), Stream(w)) && Replay(Start(listed, includeExisting), Stream(w)) == w.known
  {
    NewWatcherIsWellLogged(user, visible, listed, includeExisting);
    OffersKeepLog(NewWatcher(user, visible, listed, includeExisting), notifications, Start(listed, includeExisting));
  }

  // ---- the Watch goroutine and its surroundings ------------------------------------------------

  /** Everything that can happen to a watcher: the producer's calls, the arms of the Watch goroutine's
      selects, the client receiving, and the client stopping. */
  datatype Action =
    | Notify(note: Note, get: string -> Lookup)
    | ReportOverflow  // RemoveWatcher returned; put the complaint on cacheError
    | TakeError
    | TakeInitial
    | TakeEvent
    | ObserveStop
    | Deliver         // the client receives what emit is sending
    | GiveUp          // emit sees userStop instead
    | Stop

  predicate Enabled(w: Watcher, a: Action) {
    var o := w.output;
    match a
    case Notify(_, _) => w.overflow.None?  // an overflowed watcher has removed itself from the cache
    case ReportOverflow => w.overflow.Some? && !o.reported
    case TakeError => o.phase.Ready? && o.failure.Some?
    case TakeInitial => o.phase.Ready? && o.taken < |w.initial| && o.failure.None?
    case TakeEvent => o.phase.Ready? && |w.initial| <= o.taken < |Stream(w)|
    case ObserveStop => o.phase.Ready? && |w.initial| <= o.taken && o.stopped
    case Deliver => o.phase.Emitting?
    case GiveUp => o.phase.Emitting? && o.stopped
    case Stop => true
  }

  function AfterEmit(event: Event): Phase {
    if event.Failure? then Ended else Ready
  }

  function Act(w: Watcher, a: Action): Watcher
    requires Enabled(w, a)
  {
    var o := w.output;
    match a
    case Notify(note, get) => Offer(w, note, get)
    case ReportOverflow => w.(output := o.(failure := w.overflow, reported := true))
    case TakeError => w.(output := o.(failure := None, phase := Emitting(Failure(o.failure.value))))
    case TakeInitial => w.(output := o.(taken := o.taken + 1, phase := Emitting(w.initial[o.taken])))
    case TakeEvent => w.(output := o.(taken := o.taken + 1, phase := Emitting(w.accepted[o.taken - |w.initial|])))
    case ObserveStop => w.(output := o.(phase := Ended))
    case Deliver => w.(output := o.(outgoing := o.outgoing + [o.phase.event], phase := AfterEmit(o.phase.event)))
    case GiveUp => w.(output := o.(phase := AfterEmit(o.phase.event)))
    case Stop => w.(output := o.(stopped := true))
  }

  ghost predicate CanRun(w: Watcher, actions: seq<Action>)
    decreases |actions|
  {
    actions == [] || (Enabled(w, actions[0]) && CanRun(Act(w, actions[0]), actions[1..]))
  }

  ghost function RunActions(w: Watcher, actions: seq<Action>): Watcher
    requires CanRun(w, actions)
    decreases |actions|
  {
    if actions == [] then w else RunActions(Act(w, actions[0]), actions[1..])
  }

  /** `positions` picks `a` out of `b` in order. */
  ghost predicate Picks(positions: seq<nat>, a: seq<Event>, b: seq<Event>) {
    && |positions| == |a|
    && (forall k | 0 <= k < |a| :: positions[k] < |b| && b[positions[k]] == a[k])
    && (forall j, k | 0 <= j < k < |a| :: positions[j] < positions[k])
  }

  /** `a` is `b` with some elements left out. */
  ghost predicate Subsequence(a: seq<Event>, b: seq<Event>) {
    exists positions: seq<nat> :: Picks(positions, a, b)
  }

  lemma SubsequenceExtend(a: seq<Event>, b: seq<Event>, x: Event)
    requires Subsequence(a, b)
    ensures Subsequence(a + [x], b + [x])
  {
    var positions: seq<nat> :| Picks(positions, a, b);
    assert Picks(positions + [|b|], a + [x], b + [x]);
  }

  lemma SubsequenceOfLonger(a: seq<Event>, b: seq<Event>, c: seq<Event>)
    requires Subsequence(a, b) && b <= c
    ensures Subsequence(a, c)
  {
    var positions: seq<nat> :| Picks(positions, a, b);
    assert Picks(positions, a, c);
  }

  lemma SubsequenceDropLast(a: seq<Event>, x: Event, b: seq<Event>)
    requires Subsequence(a + [x], b)
    ensures Subsequence(a, b)
  {
    var positions: seq<nat> :| Picks(positions, a + [x], b);
    assert forall k | 0 <= k < |a| :: (a + [x])[k] == a[k];
    assert Picks(positions[..|a|], a, b);
  }

  ghost predicate NoError(events: seq<Event>) {
    forall k | 0 <= k < |events| :: !events[k].Failure?
  }

  /** The events received or about to be, a final Error event left aside. */
  ghost function Handed(o: Output): seq<Event> {
    match o.phase
    case Emitting(event) => if event.Failure? then o.outgoing else o.outgoing + [event]
    case Ready => o.outgoing
    case Ended => WithoutError(o.outgoing)
  }

  ghost function WithoutError(events: seq<Event>): seq<Event> {
    if |events| > 0 && events[|events| - 1].Failure? then events[..|events| - 1] else events
  }

  /** The delivery invariant of a watcher whose stream so far is `stream`. */
  ghost predicate Delivering(o: Output, stream: seq<Event>) {
    && o.taken <= |stream|
    && NoError(stream)
    && NoError(Handed(o))
    && (o.failure.Some? ==> o.reported)
    && (o.phase.Emitting? && o.phase.event.Failure? ==> o.reported)
    && (o.phase.Ended? && Handed(o) != o.outgoing ==> o.reported)
    && (o.phase.Ended? ==> o.stopped || o.reported)
    && (!o.stopped ==> Handed(o) == stream[..o.taken])
    && Subsequence(Handed(o), stream[..o.taken])
  }

  ghost predicate Live(w: Watcher) {
    && Delivering(w.output, Stream(w))
    && (w.output.reported ==> w.overflow.Some?)
  }

  lemma StreamGrows(o: Output, stream: seq<Event>, stream': seq<Event>)
    requires Delivering(o, stream) && stream <= stream' && NoError(stream')
    ensures Delivering(o, stream')
  {
    assert stream'[..o.taken] == stream[..o.taken];
  }

  lemma OfferGrowsStream(w: Watcher, note: Note, get: string -> Lookup)
    requires NoError(Stream(w))
    ensures var w' := Offer(w, note, get);
      && w'.initial == w.initial && w'.output == w.output && Stream(w) <= Stream(w') && NoError(Stream(w'))
      && (w.overflow.Some? ==> w'.overflow.Some?)
  {
  }

  lemma TakeNext(o: Output, stream: seq<Event>)
    requires Delivering(o, stream) && o.phase.Ready? && o.taken < |stream|
    ensures Delivering(o.(taken := o.taken + 1, phase := Emitting(stream[o.taken])), stream)
  {
    var event := stream[o.taken];
    var o' := o.(taken := o.taken + 1, phase := Emitting(event));
    assert Handed(o') == Handed(o) + [event];
    assert stream[..o'.taken] == stream[..o.taken] + [event];
    assert Subsequence(Handed(o'), stream[..o'.taken]) by {
      SubsequenceExtend(Handed(o), stream[..o.taken], event);
    }
  }

  lemma DeliverOne(o: Output, stream: seq<Event>)
    requires Delivering(o, stream) && o.phase.Emitting?
    ensures Delivering(o.(outgoing := o.outgoing + [o.phase.event], phase := AfterEmit(o.phase.event)), stream)
  {
    var o' := o.(outgoing := o.outgoing + [o.phase.event], phase := AfterEmit(o.phase.event));
    assert Handed(o') == Handed(o);
  }

  lemma GiveUpOne(o: Output, stream: seq<Event>)
    requires Delivering(o, stream) && o.phase.Emitting? && o.stopped
    ensures Delivering(o.(phase := AfterEmit(o.phase.event)), stream)
  {
    var o' := o.(phase := AfterEmit(o.phase.event));
    assert NoError(o.outgoing) by {
      assert forall k | 0 <= k < |o.outgoing| :: Handed(o)[k] == o.outgoing[k];
    }
    assert Handed(o') == o.outgoing;
    if !o.phase.event.Failure? {
      SubsequenceDropLast(o.outgoing, o.phase.event, stream[..o.taken]);
    }
  }

  /** Steps that hand nothing out. */
  lemma HandNothing(o: Output, o': Output, stream: seq<Event>)
    requires Delivering(o, stream) && Handed(o') == Handed(o) && o'.taken == o.taken && (o.stopped ==> o'.stopped)
    requires (o.reported ==> o'.reported) && (o'.failure.Some? ==> o'.reported)
    requires o'.phase.Emitting? && o'.phase.event.Failure? ==> o'.reported
    requires o'.phase.Ended? && Handed(o') != o'.outgoing ==> o'.reported
    requires o'.phase.Ended? ==> o'.stopped || o'.reported
    ensures Delivering(o', stream)
  {
  }

  lemma OfferKeepsLive(w: Watcher, note: Note, get: string -> Lookup)
    requires Live(w)
    ensures Live(Offer(w, note, get))
  {
    OfferGrowsStream(w, note, get);
    StreamGrows(w.output, Stream(w), Stream(Offer(w, note, get)));
  }

  predicate HandsNothing(a: Action) {
    a.ReportOverflow? || a.TakeError? || a.ObserveStop? || a.Stop?
  }

  lemma HandNothingKeepsLive(w: Watcher, a: Action)
    requires Live(w) && Enabled(w, a) && HandsNothing(a)
    ensures Live(Act(w, a))
  {
    var w' := Act(w, a);
    assert Stream(w') == Stream(w);
    HandNothing(w.output, w'.output, Stream(w));
  }

  lemma TakeKeepsLive(w: Watcher, a: Action)
    requires Live(w) && Enabled(w, a) && (a.TakeInitial? || a.TakeEvent?)
    ensures Live(Act(w, a))
  {
    var o, w' := w.output, Act(w, a);
    assert Stream(w') == Stream(w);
    assert w'.output == o.(taken := o.taken + 1, phase := Emitting(Stream(w)[o.taken]));
    TakeNext(o, Stream(w));
  }

  lemma EmitKeepsLive(w: Watcher, a: Action)
    requires Live(w) && Enabled(w, a) && (a.Deliver? || a.GiveUp?)
    ensures Live(Act(w, a))
  {
    assert Stream(Act(w, a)) == Stream(w);
    if a.Deliver? {
      DeliverOne(w.output, Stream(w));
    } else {
      GiveUpOne(w.output, Stream(w));
    }
  }

  lemma ActKeepsLive(w: Watcher, a: Action)
    requires Live(w) && Enabled(w, a)
    ensures Live(Act(w, a))
  {
    match a {
      case Notify(note, get) => OfferKeepsLive(w, note, get);
      case TakeInitial => TakeKeepsLive(w, a);
      case TakeEvent => TakeKeepsLive(w, a);
      case Deliver => EmitKeepsLive(w, a);
      case GiveUp => EmitKeepsLive(w, a);
      case _ => HandNothingKeepsLive(w, a);
    }
  }

  lemma {:induction false} RunKeepsLive(w: Watcher, actions: seq<Action>)
    requires Live(w) && CanRun(w, actions)
    ensures Live(RunActions(w, actions))
    ensures RunActions(w, actions).initial == w.initial
    decreases |actions|
  {
    if actions != [] {
      var w' := Act(w, actions[0]);
      ActKeepsLive(w, actions[0]);
      if actions[0].Notify? {
        OfferGrowsStream(w, actions[0].note, actions[0].get);
      }
      RunKeepsLive(w', actions[1..]);
    }
  }

  lemma NewWatcherIsLive(user: UserInfo, visible: set<string>, listed: seq<Namespace>, includeExisting: bool)
    ensures Live(NewWatcher(user, visible, listed, includeExisting))
  {
    assert Picks([], [], []);
  }

  /** Delivery: under every interleaving of producer, Watch goroutine, client and Stop, what the client
      received is, apart from at most one Error event that comes last and only after an overflow, the
      initial Added events followed by the accepted events: a prefix of them until Stop, a subsequence after. */
  lemma DeliveryTheorem(user: UserInfo, visible: set<string>, listed: seq<Namespace>, includeExisting: bool,
      actions: seq<Action>)
    requires CanRun(NewWatcher(user, visible, listed, includeExisting), actions)
    ensures var w := RunActions(NewWatcher(user, visible, listed, includeExisting), actions);
      var stream := (if includeExisting then AddedEvents(listed) else []) + w.accepted;
      var received := WithoutError(w.output.outgoing);
      && NoError(received)
      && (received != w.output.outgoing ==> w.overflow.Some?)
      && (!w.output.stopped ==> received <= stream)
      && Subsequence(received, stream)
  {
    var w0 := NewWatcher(user, visible, listed, includeExisting);
    NewWatcherIsLive(user, visible, listed, includeExisting);
    RunKeepsLive(w0, actions);
    ReceivedFromStream(RunActions(w0, actions));
  }

  lemma ReceivedFromStream(w: Watcher)
    requires Live(w)
    ensures var received := WithoutError(w.output.outgoing);
      && NoError(received)
      && (received != w.output.outgoing ==> w.overflow.Some?)
      && (!w.output.stopped ==> received <= Stream(w))
      && Subsequence(received, Stream(w))
  {
    var o, stream := w.output, Stream(w);
    if o.phase.Emitting? && !o.phase.event.Failure? {
      assert forall k | 0 <= k < |o.outgoing| :: Handed(o)[k] == o.outgoing[k];
      SubsequenceDropLast(o.outgoing, o.phase.event, stream[..o.taken]);
      assert o.outgoing <= Handed(o);
    }
    SubsequenceOfLonger(WithoutError(o.outgoing), stream[..o.taken], stream);
  }

  /** Nothing is lost before Stop: what was handed out followed by what is yet to be taken up is the
      whole stream, so replaying both gives what the watcher knows. */
  lemma NothingLostBeforeStop(w: Watcher, start: map<string, string>)
    requires Live(w) && !w.output.stopped
    requires Replay(start, Stream(w)) == w.known
    ensures Handed(w.output) + Stream(w)[w.output.taken..] == Stream(w)
    ensures Replay(Replay(start, Handed(w.output)), Stream(w)[w.output.taken..]) == w.known
  {
    ReplayFrom(start, Stream(w), w.output.taken);
  }

  // ---- many watchers ---------------------------------------------------------------------------

  /** RemoveWatcher: the first occurrence goes, the rest shifts. */
  function RemoveFirst<W(==)>(order: seq<W>, id: W): seq<W> {
    if order == [] then []
    else if order[0] == id then order[1..]
    else [order[0]] + RemoveFirst(order[1..], id)
  }

  lemma {:induction false} RemoveFirstKeeps<W>(order: seq<W>, id: W)
    ensures forall x | x in RemoveFirst(order, id) :: x in order
  {
    if order != [] {
      RemoveFirstKeeps(order[1..], id);
    }
  }

  lemma {:induction false} RemoveFirstAt<W>(order: seq<W>, id: W, i: nat)
    requires i <= |order| && id !in order[..i]
    ensures i < |order| && order[i] == id ==> RemoveFirst(order, id) == order[..i] + order[i + 1..]
    ensures i == |order| ==> RemoveFirst(order, id) == order
  {
    if i > 0 {
      assert order[0] == order[..i][0];
      assert order[1..][..i - 1] == order[..i][1..];
      RemoveFirstAt(order[1..], id, i - 1);
    }
  }

  /** All watchers of a cache, by identity, and whether the notifying goroutine is stuck: a watcher whose
      queue is full calls RemoveWatcher, which waits for the lock its caller holds. */
  datatype Told<!W(==)> = Told(watchers: map<W, Watcher>, stuck: bool)

  /** notifyWatchers: one note to the watchers of `order` in turn, as far as the first full queue. */
  function Notified<W>(watchers: map<W, Watcher>, order: seq<W>, note: Note, get: string -> Lookup): (told: Told<W>)
    requires forall id | id in order :: id in watchers
    ensures told.watchers.Keys == watchers.Keys
  {
    if order == [] then Told(watchers, false)
    else
      var last := order[|order| - 1];
      var before := Notified(watchers, order[..|order| - 1], note, get);
      if before.stuck then before
      else
        var w := Offer(before.watchers[last], note, get);
        Told(before.watchers[last := w], w.overflow.Some?)
  }

  function AllNotified<W>(watchers: map<W, Watcher>, order: seq<W>, notes: seq<Note>,
      get: string -> Lookup): (told: Told<W>)
    requires forall id | id in order :: id in watchers
    ensures told.watchers.Keys == watchers.Keys
  {
    if notes == [] then Told(watchers, false)
    else
      var before := AllNotified(watchers, order, notes[..|notes| - 1], get);
      if before.stuck then before else Notified(before.watchers, order, notes[|notes| - 1], get)
  }
}
