/** What a watch can always still do: catch up, report its overflow, or end after Stop. */
module WatchProgress {
  import opened Common
  import opened RbacTypes
  import opened AccessIndex
  import opened Informers
  import opened ProjectWatcher

  /** A step of the Watch goroutine or of its receiving client. */
  predicate OwnStep(a: Action) {
    !a.Notify? && !a.Stop?
  }

  ghost predicate OwnSteps(actions: seq<Action>) {
    forall a | a in actions :: OwnStep(a)
  }

  /** Nothing has gone wrong and the client is still listening. */
  predicate Undisturbed(w: Watcher) {
    w.overflow.None? && !w.output.stopped
  }

  /** How many steps it takes to hand over what is left: two for each event not taken up, one for the event
      being sent. */
  function StepsLeft(w: Watcher): int {
    2 * (|Stream(w)| - w.output.taken) + if w.output.phase.Emitting? then 1 else 0
  }

  ghost predicate SameStream(w: Watcher, w': Watcher) {
    w'.initial == w.initial && w'.accepted == w.accepted && w'.known == w.known
  }

  lemma RunOneMoreFirst(w: Watcher, a: Action, rest: seq<Action>)
    requires Enabled(w, a) && CanRun(Act(w, a), rest)
    ensures CanRun(w, [a] + rest) && RunActions(w, [a] + rest) == RunActions(Act(w, a), rest)
  {
    assert ([a] + rest)[1..] == rest;
  }

  lemma RunOne(w: Watcher, a: Action)
    ensures CanRun(w, [a]) <==> Enabled(w, a)
    ensures CanRun(w, [a]) ==> RunActions(w, [a]) == Act(w, a)
  {
    assert [a][1..] == [];
  }

  lemma StepCounts(w: Watcher, a: Action)
    requires Live(w) && Undisturbed(w) && OwnStep(a) && Enabled(w, a)
    ensures var w' := Act(w, a);
      Live(w') && Undisturbed(w') && SameStream(w, w') && StepsLeft(w') == StepsLeft(w) - 1
  {
    ActKeepsLive(w, a);
    assert Stream(Act(w, a)) == Stream(w);
  }

  /** No detours: as long as nothing is notified and nobody stops, each step of goroutine or client, in whatever
      order they come, is one of those left. */
  lemma {:induction false} EveryStepCounts(w: Watcher, actions: seq<Action>)
    requires Live(w) && Undisturbed(w) && OwnSteps(actions) && CanRun(w, actions)
    ensures var w' := RunActions(w, actions);
      && Live(w') && Undisturbed(w') && SameStream(w, w')
      && |actions| + StepsLeft(w') == StepsLeft(w)
    decreases |actions|
  {
    if actions != [] {
      assert actions[0] in actions;
      StepCounts(w, actions[0]);
      EveryStepCounts(Act(w, actions[0]), actions[1..]);
    }
  }

  /** No halt: while anything is left a step is possible, without anyone stopping. */
  lemma SomethingCanHappen(w: Watcher) returns (a: Action)
    requires Live(w) && Undisturbed(w) && StepsLeft(w) > 0
    ensures CanRun(w, [a]) && a in {TakeInitial, TakeEvent, Deliver}
  {
    a := if w.output.phase.Emitting? then Deliver
         else if w.output.taken < |w.initial| then TakeInitial else TakeEvent;
    RunOne(w, a);
  }

  lemma NothingLeft(w: Watcher)
    requires Live(w) && Undisturbed(w) && StepsLeft(w) <= 0
    ensures w.output.outgoing == Stream(w) && w.output.taken == |Stream(w)| && w.output.phase == Ready
  {
    assert Stream(w)[..w.output.taken] == Stream(w);
  }

  /** Every watch that has neither overflowed nor been stopped can hand over its whole stream, in exactly the
      steps left. */
  lemma {:induction false} CatchesUp(w: Watcher) returns (actions: seq<Action>)
    requires Live(w) && Undisturbed(w)
    ensures CanRun(w, actions) && (forall a | a in actions :: a in {TakeInitial, TakeEvent, Deliver})
    ensures RunActions(w, actions) ==
            w.(output := w.output.(taken := |Stream(w)|, phase := Ready, outgoing := Stream(w)))
    ensures |actions| == StepsLeft(w)
    decreases StepsLeft(w)
  {
    if StepsLeft(w) <= 0 {
      NothingLeft(w);
      actions := [];
    } else {
      var a := SomethingCanHappen(w);
      RunOne(w, a);
      StepCounts(w, a);
      var rest := CatchesUp(Act(w, a));
      RunOneMoreFirst(w, a, rest);
      actions := [a] + rest;
    }
  }

  /** ... and does so in every schedule: goroutine and client cannot come to rest before. */
  lemma RestsOnlyWhenCaughtUp(w: Watcher, actions: seq<Action>)
    requires Live(w) && Undisturbed(w) && OwnSteps(actions) && CanRun(w, actions)
    requires forall a | OwnStep(a) :: !CanRun(RunActions(w, actions), [a])
    ensures RunActions(w, actions).output.outgoing == Stream(w) && |actions| == StepsLeft(w)
  {
    EveryStepCounts(w, actions);
    var w' := RunActions(w, actions);
    assert Stream(w') == Stream(w);
    if StepsLeft(w') > 0 {
      var a := SomethingCanHappen(w');
    } else {
      NothingLeft(w');
    }
  }

  // ---- overflow --------------------------------------------------------------------------------

  /** What becomes of an overflow: its complaint is still to be reported, waits on cacheError, is being sent, or
      was received last; a client that stopped may have missed it. Without one there is no error. */
  ghost predicate Accounts(o: Output, overflow: Option<string>) {
    && (o.failure.Some? ==> o.reported && o.failure == overflow)
    && (SendingError(o) ==> o.reported && overflow == Some(o.phase.event.message))
    && (o.reported ==> overflow.Some?)
    && (!o.stopped && o.reported && !o.phase.Ended? && !SendingError(o) ==> o.failure.Some?)
    && (!o.stopped && o.phase.Ended? ==> overflow.Some? && Complained(o.outgoing, overflow.value))
  }

  predicate SendingError(o: Output) {
    o.phase.Emitting? && o.phase.event.Failure?
  }

  /** The last thing received is the Error event with this complaint. */
  predicate Complained(received: seq<Event>, complaint: string) {
    received != [] && received[|received| - 1] == Failure(complaint)
  }

  ghost predicate Accountable(w: Watcher) {
    Accounts(w.output, w.overflow)
  }

  lemma ActKeepsAccountable(w: Watcher, a: Action)
    requires Live(w) && Accountable(w) && Enabled(w, a)
    ensures Accountable(Act(w, a))
  {
    match a {
      case Notify(note, get) => NotifyKeepsAccountable(w, note, get);
      case TakeInitial =>
        NextIsNoError(w);
        TakeAccounts(w.output, Stream(w)[w.output.taken], w.overflow);
      case TakeEvent =>
        NextIsNoError(w);
        TakeAccounts(w.output, Stream(w)[w.output.taken], w.overflow);
      case _ =>
    }
  }

  lemma NextIsNoError(w: Watcher)
    requires Live(w) && w.output.taken < |Stream(w)|
    ensures !Stream(w)[w.output.taken].Failure?
  {
  }

  lemma TakeAccounts(o: Output, event: Event, overflow: Option<string>)
    requires Accounts(o, overflow) && o.phase.Ready? && !event.Failure?
    ensures Accounts(o.(taken := o.taken + 1, phase := Emitting(event)), overflow)
  {
  }

  lemma NotifyKeepsAccountable(w: Watcher, note: Note, get: string -> Lookup)
    requires Accountable(w) && w.overflow.None?
    ensures Accountable(Offer(w, note, get))
  {
  }

  lemma {:induction false} RunKeepsAccountable(w: Watcher, actions: seq<Action>)
    requires Live(w) && Accountable(w) && CanRun(w, actions)
    ensures Live(RunActions(w, actions)) && Accountable(RunActions(w, actions))
    decreases |actions|
  {
    if actions != [] {
      ActKeepsLive(w, actions[0]);
      ActKeepsAccountable(w, actions[0]);
      RunKeepsAccountable(Act(w, actions[0]), actions[1..]);
    }
  }

  /** After an overflow the Error event can reach a client that listens, as the last one. */
  lemma {:induction false} OverflowCanBeReported(w: Watcher) returns (actions: seq<Action>)
    requires Live(w) && Accountable(w) && w.overflow.Some? && !w.output.stopped
    ensures CanRun(w, actions) && OwnSteps(actions)
    ensures RunActions(w, actions).output.phase == Ended
    ensures Complained(RunActions(w, actions).output.outgoing, w.overflow.value)
    ensures RunActions(w, actions).overflow == w.overflow
    decreases !w.output.phase.Ended?, if w.output.reported then 0 else 1, w.output.failure.Some?,
              w.output.phase.Emitting?
  {
    if w.output.phase.Ended? {
      actions := [];
    } else {
      var a := if w.output.phase.Emitting? then Deliver else if w.output.reported then TakeError else ReportOverflow;
      ActKeepsLive(w, a);
      ActKeepsAccountable(w, a);
      var rest := OverflowCanBeReported(Act(w, a));
      RunOneMoreFirst(w, a, rest);
      actions := [a] + rest;
    }
  }

  // ---- Stop ------------------------------------------------------------------------------------

  /** Once the client has stopped, the goroutine can end without it. */
  lemma {:induction false} StopCanEndTheWatch(w: Watcher) returns (actions: seq<Action>)
    requires Live(w) && w.output.stopped
    ensures CanRun(w, actions) && (forall a | a in actions :: a in {TakeError, TakeInitial, GiveUp, ObserveStop})
    ensures RunActions(w, actions).output.phase == Ended
    ensures RunActions(w, actions).output.outgoing == w.output.outgoing
    decreases if w.output.phase.Ended? then 0 else 1 + StepsLeft(w) + if w.output.failure.Some? then 2 else 0
  {
    var o := w.output;
    if o.phase.Ended? {
      actions := [];
    } else {
      var a := if o.phase.Emitting? then GiveUp else if o.failure.Some? then TakeError
          else if o.taken < |w.initial| then TakeInitial else ObserveStop;
      ActKeepsLive(w, a);
      assert Stream(Act(w, a)) == Stream(w);
      var rest := StopCanEndTheWatch(Act(w, a));
      RunOneMoreFirst(w, a, rest);
      actions := [a] + rest;
    }
  }

  // ---- all watches -----------------------------------------------------------------------------

  /** No watch hangs. Whatever has happened to it, goroutine and client can go on by themselves until the client
      has received the whole stream; after an overflow, until it has received the Error event and the goroutine
      has ended; after Stop the goroutine can end without it. */
  lemma NoWatchHangs(user: UserInfo, visible: set<string>, listed: seq<Namespace>, includeExisting: bool,
      actions: seq<Action>) returns (more: seq<Action>)
    requires CanRun(NewWatcher(user, visible, listed, includeExisting), actions)
    ensures var w := RunActions(NewWatcher(user, visible, listed, includeExisting), actions);
      && CanRun(w, more) && OwnSteps(more)
      && var w' := RunActions(w, more);
         && (Undisturbed(w) ==> w'.output.outgoing == w.initial + w.accepted)
         && (w.overflow.Some? && !w.output.stopped ==>
               w'.output.phase == Ended && w'.output.outgoing != [] &&
                   w'.output.outgoing[|w'.output.outgoing| - 1] == Failure(w.overflow.value))
         && (w.output.stopped ==> w'.output.phase == Ended && w'.output.outgoing == w.output.outgoing)
  {
    var w := RunActions(NewWatcher(user, visible, listed, includeExisting), actions);
    NewWatcherIsLive(user, visible, listed, includeExisting);
    RunKeepsAccountable(NewWatcher(user, visible, listed, includeExisting), actions);
    if w.output.stopped {
      more := StopCanEndTheWatch(w);
    } else if w.overflow.Some? {
      more := OverflowCanBeReported(w);
    } else {
      more := CatchesUp(w);
    }
  }

  /** A client can stop at any time, and a watcher that has not overflowed can be notified at any time. */
  lemma NeverRefused(w: Watcher, note: Note, get: string -> Lookup)
    ensures CanRun(w, [Stop]) && RunActions(w, [Stop]) == w.(output := w.output.(stopped := true))
    ensures w.overflow.None? ==> CanRun(w, [Notify(note, get)])
  {
    RunOne(w, Stop);
    RunOne(w, Notify(note, get));
  }

  /** After the initial projects the goroutine may take any arm of its select that is ready, whichever others are:
      a queued event also after Stop or with an error waiting, and the other way round. */
  lemma AnyReadyArmCanBeTaken(w: Watcher)
    requires w.output.phase == Ready && w.output.taken >= |w.initial|
    ensures CanRun(w, [TakeEvent]) <==> w.output.taken < |w.initial| + |w.accepted|
    ensures CanRun(w, [TakeError]) <==> w.output.failure.Some?
    ensures CanRun(w, [ObserveStop]) <==> w.output.stopped
    ensures !CanRun(w, [TakeInitial]) && !CanRun(w, [Deliver]) && !CanRun(w, [GiveUp])
  {
    forall a { RunOne(w, a); }
  }

  /** Before, an error goes first. */
  lemma ErrorGoesBeforeInitialProjects(w: Watcher)
    requires w.output.phase == Ready && w.output.taken < |w.initial|
    ensures CanRun(w, [TakeInitial]) <==> w.output.failure.None?
    ensures CanRun(w, [TakeError]) <==> w.output.failure.Some?
    ensures !CanRun(w, [TakeEvent]) && !CanRun(w, [ObserveStop]) && !CanRun(w, [Deliver]) && !CanRun(w, [GiveUp])
  {
    forall a { RunOne(w, a); }
  }

  /** An event being sent can be received, Stop or not, and after Stop also be dropped; the goroutine then goes on,
      or has ended if it was the error. */
  lemma SendingIsAChoice(w: Watcher)
    requires w.output.phase.Emitting?
    ensures CanRun(w, [Deliver]) && (CanRun(w, [GiveUp]) <==> w.output.stopped)
    ensures var o, next := w.output, if w.output.phase.event.Failure? then Ended else Ready;
      && RunActions(w, [Deliver]) == w.(output := o.(outgoing := o.outgoing + [o.phase.event], phase := next))
      && (o.stopped ==> RunActions(w, [GiveUp]) == w.(output := o.(phase := next)))
    ensures forall a | a in {TakeEvent, TakeError, TakeInitial, ObserveStop} :: !CanRun(w, [a])
  {
    forall a { RunOne(w, a); }
  }
}
