/** userProjectWatcher as an object, step by step against its model. */
module WatcherObjects {
  import opened Common
  import opened RbacTypes
  import opened Reviewer
  import opened AccessIndex
  import opened Informers
  import opened ProjectWatcher
  import opened WatchProgress

  class UserProjectWatcher {
    const user: UserInfo
    const visibleNamespaces: set<string>
    const initialProjects: seq<Namespace>
    var knownProjects: map<string, string>
    var cacheIncoming: seq<Event>
    var cacheError: Option<string>
    var userStop: bool
    var outgoing: seq<Event>
    var next: nat                 // initial projects emitted so far
    var phase: Phase
    var overflow: Option<string>  // RemoveWatcher was called with this complaint pending
    var reported: bool
    ghost var accepted: seq<Event>
    ghost var drained: nat        // how many of them were taken up

    /** The queue holds the accepted events not yet taken up, and none is taken up before the initial projects. */
    ghost predicate Valid()
      reads this
    {
      && next <= |initialProjects|
      && drained <= |accepted| && cacheIncoming == accepted[drained..]
      && (next < |initialProjects| ==> drained == 0)
    }

    ghost function State(): Watcher
      requires Valid()
      reads this
    {
      Watcher(user, visibleNamespaces, AddedEvents(initialProjects), knownProjects, accepted, overflow,
              Output(next + drained, cacheError, reported, userStop, phase, outgoing))
    }

    /** NewUserProjectWatcher, given what List answered. An error from List is a nil dereference there. */
    constructor (user: UserInfo, visibleNamespaces: set<string>, listed: seq<Namespace>,
        includeAllExistingProjects: bool)
      ensures Valid() && State() == NewWatcher(user, visibleNamespaces, listed, includeAllExistingProjects)
    {
      this.user, this.visibleNamespaces := user, visibleNamespaces;
      initialProjects := if includeAllExistingProjects then listed else [];
      cacheIncoming, outgoing, accepted := [], [], [];
      cacheError, overflow, reported, userStop := None, None, false, false;
      next, drained, phase := 0, 0, Ready;
      knownProjects := map[];
      new;
      for i := 0 to |listed|
        modifies this`knownProjects
        invariant knownProjects == KnownFrom(listed[..i])
      {
        assert listed[..i + 1][..i] == listed[..i];
        knownProjects := knownProjects[listed[i].name := listed[i].resourceVersion];
      }
      assert listed[..|listed|] == listed;
    }

    method GroupMembershipChanged(namespaceName: string, users: set<string>, groups: set<string>,
        nsLister: string -> Lookup)
      requires Valid()
      modifies this
      ensures Valid() && State() == Offer(old(State()), Note(namespaceName, users, groups), nsLister)
      ensures |old(cacheIncoming)| < 1000 ==> overflow == old(overflow)
    {
      if ALL_NAMESPACES !in visibleNamespaces && namespaceName !in visibleNamespaces {
        return;
      }
      var hasAccess := HasAccess(user, users, groups);
      if !hasAccess && namespaceName in knownProjects {
        knownProjects := knownProjects - {namespaceName};
        assert State() == old(State()).(known := knownProjects);
        TrySend(Deleted(namespaceName), "delete notification timeout");
      } else if hasAccess {
        var namespace := nsLister(namespaceName);
        if !namespace.Found? {
          return;
        }
        var project := Namespace(namespaceName, namespace.resourceVersion);
        var event := Added(project);
        if namespaceName in knownProjects {
          event := Modified(project);
          if knownProjects[namespaceName] == namespace.resourceVersion {
            return;
          }
        }
        knownProjects := knownProjects[namespaceName := namespace.resourceVersion];
        assert State() == old(State()).(known := knownProjects);
        TrySend(event, "add notification timeout");
      }
    }

    /** The non-blocking send both branches end in. */
    method TrySend(event: Event, complaint: string)
      requires Valid()
      modifies this`cacheIncoming, this`accepted, this`overflow
      ensures Valid() && State() == Send(old(State()), event, complaint)
      ensures |old(cacheIncoming)| < 1000 ==>
                cacheIncoming == old(cacheIncoming) + [event] && overflow == old(overflow)
      ensures |old(cacheIncoming)| >= 1000 ==> cacheIncoming == old(cacheIncoming) && overflow == Some(complaint)
    {
      assert QueueLength(State()) == |cacheIncoming|;
      if |cacheIncoming| < QUEUE_CAPACITY {
        cacheIncoming, accepted := cacheIncoming + [event], accepted + [event];
      } else {
        overflow := Some(complaint);
      }
    }

    method Stop()
      requires Valid()
      modifies this`userStop
      ensures Valid() && State() == Act(old(State()), Action.Stop)
    {
      if userStop {
        return;
      }
      userStop := true;
    }

    // ---- the Watch goroutine, one arm of its selects at a time ------------------------------------

    /** In the loop over initial projects: nothing on cacheError, so emit the next one. */
    method EmitInitialProject()
      requires Valid() && Enabled(State(), TakeInitial)
      modifies this`phase, this`next
      ensures Valid() && State() == Act(old(State()), TakeInitial)
    {
      phase, next := Emitting(Added(initialProjects[next])), next + 1;
    }

    /** In either loop: an error arrived. */
    method ReceiveError()
      requires Valid() && Enabled(State(), TakeError)
      modifies this`phase, this`cacheError
      ensures Valid() && State() == Act(old(State()), TakeError)
    {
      phase, cacheError := Emitting(Failure(cacheError.value)), None;
    }

    /** In the drain loop: an event arrived. */
    method ReceiveEvent()
      requires Valid() && Enabled(State(), TakeEvent)
      modifies this`phase, this`cacheIncoming, this`drained
      ensures Valid() && State() == Act(old(State()), TakeEvent)
      ensures phase == Emitting(old(cacheIncoming)[0]) && cacheIncoming == old(cacheIncoming)[1..]
    {
      phase, cacheIncoming := Emitting(cacheIncoming[0]), cacheIncoming[1..];
      drained := drained + 1;
    }

    /** In the drain loop: the client stopped. */
    method ReceiveStop()
      requires Valid() && Enabled(State(), ObserveStop)
      modifies this`phase
      ensures Valid() && State() == Act(old(State()), ObserveStop)
    {
      phase := Ended;
    }

    /** emit: the client takes the event, or has stopped. */
    method Emit(received: bool)
      requires Valid() && Enabled(State(), if received then Deliver else GiveUp)
      modifies this`phase, this`outgoing
      ensures Valid() && State() == Act(old(State()), if received then Deliver else GiveUp)
    {
      var event := phase.event;
      if received {
        outgoing := outgoing + [event];
      }
      phase := if event.Failure? then Ended else Ready;
    }

    /** Which of these steps, and of the client's, is possible. */
    predicate CanPerform(action: Action)
      requires Valid()
      reads this
      ensures CanPerform(action) <==> !action.Notify? && Enabled(State(), action)
    {
      match action
      case Notify(_, _) => false
      case ReportOverflow => overflow.Some? && !reported
      case TakeError => phase.Ready? && cacheError.Some?
      case TakeInitial => phase.Ready? && next < |initialProjects| && cacheError.None?
      case TakeEvent => phase.Ready? && next == |initialProjects| && |cacheIncoming| > 0
      case ObserveStop => phase.Ready? && next == |initialProjects| && userStop
      case Deliver => phase.Emitting?
      case GiveUp => phase.Emitting? && userStop
      case Stop => true
    }

    method Perform(action: Action)
      requires Valid() && CanPerform(action)
      modifies this
      ensures Valid() && State() == Act(old(State()), action)
    {
      match action {
        case ReportOverflow => SendError();
        case TakeError => ReceiveError();
        case TakeInitial => EmitInitialProject();
        case TakeEvent => ReceiveEvent();
        case ObserveStop => ReceiveStop();
        case Deliver => Emit(true);
        case GiveUp => Emit(false);
        case Stop => Stop();
      }
    }

    /** After an overflow, once RemoveWatcher has returned: cacheError <- complaint. */
    method SendError()
      requires Valid() && Enabled(State(), ReportOverflow)
      modifies this`cacheError, this`reported
      ensures Valid() && State() == Act(old(State()), ReportOverflow)
    {
      cacheError, reported := overflow, true;
    }
  }

  /** A watcher object that neither overflowed nor was stopped can always go on until its client has everything:
      the initial projects first, then what is queued. */
  lemma ObjectCanGoOn(w: UserProjectWatcher)
    requires w.Valid() && Live(w.State()) && w.overflow.None? && !w.userStop
    ensures w.phase == Ready && w.next < |w.initialProjects| ==> w.CanPerform(TakeInitial)
    ensures w.phase == Ready && w.next == |w.initialProjects| && w.cacheIncoming != [] ==> w.CanPerform(TakeEvent)
    ensures w.phase != Ready ==> w.CanPerform(Deliver)
    ensures w.outgoing == AddedEvents(w.initialProjects) + w.accepted ||
            exists a | a in {TakeInitial, TakeEvent, Deliver} :: w.CanPerform(a)
  {
    if StepsLeft(w.State()) > 0 {
      var a := SomethingCanHappen(w.State());
      RunOne(w.State(), a);
      assert w.CanPerform(a);
    } else {
      NothingLeft(w.State());
    }
  }
}
