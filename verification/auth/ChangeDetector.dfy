/** invalidateCache: has any cluster role or cluster role binding changed? Its two recorded version sets
    may come to be one object. */
module ChangeDetector {
  import opened Common
  import opened RbacTypes

  /** A sets.String on the heap. */
  class VersionSet {
    var versions: set<string>

    constructor ()
      ensures versions == {}
    {
      versions := {};
    }

    method Insert(version: string)
      modifies this
      ensures versions == old(versions) + {version}
    {
      versions := versions + {version};
    }

    method InsertRoles(roles: seq<Role>)
      modifies this
      ensures versions == old(versions) + RoleVersions(roles)
    {
      for i := 0 to |roles|
        invariant versions == old(versions) + RoleVersions(roles[..i])
      {
        Insert(roles[i].meta.resourceVersion);
        assert roles[..i + 1] == roles[..i] + [roles[i]];
      }
      assert roles[..|roles|] == roles;
    }

    method InsertBindings(bindings: seq<Binding>)
      modifies this
      ensures versions == old(versions) + BindingVersions(bindings)
    {
      for i := 0 to |bindings|
        invariant versions == old(versions) + BindingVersions(bindings[..i])
      {
        Insert(bindings[i].meta.resourceVersion);
        assert bindings[..i + 1] == bindings[..i] + [bindings[i]];
      }
      assert bindings[..|bindings|] == bindings;
    }

    method Clear()
      modifies this
      ensures versions == {}
    {
      versions := {};
    }

    /** The comparison the detector makes: different sizes, or something in `other` missing here. */
    predicate DiffersFrom(other: VersionSet)
      reads this, other
      ensures DiffersFrom(other) <==> versions != other.versions
    {
      SameSizeSubset(other.versions, versions);
      |versions| != |other.versions| || !(other.versions <= versions)
    }
  }

  lemma SameSizeSubset(a: set<string>, b: set<string>)
    ensures a <= b && |a| == |b| ==> a == b
  {
    if a <= b && a != b {
      assert b - a != {} by {
        assert b == a + (b - a);
      }
      var x :| x in b - a;
      SubsetIsNotLarger(a, b - {x});
    }
  }

  lemma {:induction false} SubsetIsNotLarger(a: set<string>, b: set<string>)
    requires a <= b
    ensures |a| <= |b|
  {
    if a != {} {
      var x :| x in a;
      SubsetIsNotLarger(a - {x}, b - {x});
    }
  }

  // ---- specification ---------------------------------------------------------------------------

  /** The contents of the two recorded sets. */
  datatype Recorded = Recorded(roles: set<string>, bindings: set<string>)

  /** What one call lists: the version sets, or an error. */
  datatype Call = Call(roles: Result<set<string>, Error>, bindings: Result<set<string>, Error>)

  datatype Answer = Answer(invalidate: bool, recorded: Recorded)

  function Detect(r: Recorded, c: Call): Answer {
    match c.roles
    case Err(_) => Answer(false, r)
    case Ok(roles) =>
      var changed := roles != r.roles;
      match c.bindings
      case Err(_) => Answer(changed, r.(roles := roles))
      case Ok(bindings) =>
        // a changed role set is recorded as the very object that is then refilled with binding versions
        Answer(changed || bindings != r.bindings, Recorded(if changed then bindings else r.roles, bindings))
  }

  function RoleVersions(roles: seq<Role>): set<string> {
    set r | r in roles :: r.meta.resourceVersion
  }

  function BindingVersions(bindings: seq<Binding>): set<string> {
    set b | b in bindings :: b.meta.resourceVersion
  }

  function CallOf(clusterRoles: Result<seq<Role>, Error>, clusterRoleBindings: Result<seq<Binding>, Error>): Call {
    Call(
      match clusterRoles case Ok(items) => Ok(RoleVersions(items)) case Err(e) => Err(e),
      match clusterRoleBindings case Ok(items) => Ok(BindingVersions(items)) case Err(e) => Err(e))
  }

  // ---- any sequence of calls -------------------------------------------------------------------

  const NOTHING := Recorded({}, {})

  function After(calls: seq<Call>): Recorded {
    if calls == [] then NOTHING
    else Detect(After(calls[..|calls| - 1]), calls[|calls| - 1]).recorded
  }

  /** The role versions last listed; none at first. */
  function LastRoles(calls: seq<Call>): set<string> {
    if calls == [] then {}
    else
      var last := calls[|calls| - 1];
      if last.roles.Ok? then last.roles.value else LastRoles(calls[..|calls| - 1])
  }

  /** The binding versions last listed; they are only listed once the roles have been. */
  function LastBindings(calls: seq<Call>): set<string> {
    if calls == [] then {}
    else
      var last := calls[|calls| - 1];
      if last.roles.Ok? && last.bindings.Ok? then last.bindings.value else LastBindings(calls[..|calls| - 1])
  }

  /** After any calls, errors included, the recorded binding versions are the last listed ones, and the
      recorded role versions are the last listed role versions or the last listed binding versions. */
  lemma {:induction false} RecordedVersions(calls: seq<Call>)
    ensures After(calls).bindings == LastBindings(calls)
    ensures After(calls).roles == LastRoles(calls) || After(calls).roles == LastBindings(calls)
  {
    if calls != [] {
      RecordedVersions(calls[..|calls| - 1]);
    }
  }

  ghost predicate ErrorFree(calls: seq<Call>) {
    forall c | c in calls :: c.roles.Ok? && c.bindings.Ok?
  }

  /** No version is ever carried both by a role and by a binding. */
  ghost predicate NeverShared(calls: seq<Call>) {
    forall c, d | c in calls && d in calls && c.roles.Ok? && d.bindings.Ok? :: c.roles.value !! d.bindings.value
  }

  lemma {:induction false} RolesAreRecordedAsBindings(calls: seq<Call>)
    requires ErrorFree(calls) && NeverShared(calls)
    requires forall c | c in calls :: c.roles.value != {}
    ensures After(calls).roles == LastBindings(calls) == After(calls).bindings
    ensures calls != [] ==> exists d | d in calls :: After(calls).roles == d.bindings.value
  {
    if calls != [] {
      var init, last := calls[..|calls| - 1], calls[|calls| - 1];
      assert forall c | c in init :: c in calls;
      RolesAreRecordedAsBindings(init);
      assert last in calls;
    }
  }

  /** With error-free calls, some role at every call and no version shared between roles and bindings,
      every call answers true, changed or not: the incremental path is never taken. */
  lemma EveryCallInvalidates(calls: seq<Call>, next: Call)
    requires ErrorFree(calls + [next]) && NeverShared(calls + [next])
    requires forall c | c in calls + [next] :: c.roles.value != {}
    ensures Detect(After(calls), next).invalidate
  {
    assert forall c | c in calls :: c in calls + [next];
    RolesAreRecordedAsBindings(calls);
    assert next in calls + [next];
  }

  /** A call whose role listing fails answers false, whatever changed; any other answers false exactly when
      the role versions it lists are those recorded, and the binding versions, if it gets to list them, are. */
  lemma AnswersFalseIff(calls: seq<Call>, next: Call)
    ensures !Detect(After(calls), next).invalidate <==>
            (next.roles.Ok? ==>
              && next.roles.value == After(calls).roles
              && (next.bindings.Ok? ==> next.bindings.value == LastBindings(calls)))
  {
    RecordedVersions(calls);
  }

  /** A change of the listed role versions goes unnoticed exactly when the new ones coincide with the binding
      versions recorded in their place and the bindings, if they can be listed, are unchanged. */
  lemma MissedChangeIff(calls: seq<Call>, roles: set<string>, bindings: Result<set<string>, Error>)
    requires roles != LastRoles(calls)
    ensures !Detect(After(calls), Call(Ok(roles), bindings)).invalidate <==>
            && roles == LastBindings(calls) == After(calls).roles
            && (bindings.Ok? ==> bindings.value == LastBindings(calls))
  {
    RecordedVersions(calls);
  }

  /** Conversely, with nothing changed a call answers true exactly when binding versions that differ from the
      role versions are recorded in their place. */
  lemma FalseAlarmIff(calls: seq<Call>)
    ensures Detect(After(calls), Call(Ok(LastRoles(calls)), Ok(LastBindings(calls)))).invalidate <==>
            After(calls).roles != LastRoles(calls)
  {
    RecordedVersions(calls);
  }

  /** A change of the binding versions is missed only if they are not listed, because the roles cannot be. */
  lemma BindingChangeIsNoticedIff(calls: seq<Call>, roles: Result<set<string>, Error>, bindings: set<string>)
    requires bindings != LastBindings(calls)
    ensures Detect(After(calls), Call(roles, Ok(bindings))).invalidate <==> roles.Ok?
  {
    RecordedVersions(calls);
  }

  /** A role change really can be missed: the second call lists other role versions and answers false. */
  lemma RoleChangeCanBeMissed() returns (calls: seq<Call>, next: Call)
    ensures ErrorFree(calls + [next]) && next.roles.value != LastRoles(calls)
    ensures !Detect(After(calls), next).invalidate
  {
    calls, next := [Call(Ok({"1"}), Ok({"2"}))], Call(Ok({"2"}), Ok({"2"}));
    assert calls[..0] == [];
    assert After([]) == NOTHING;
  }

  /** ... and so can one beside which the bindings cannot be listed. */
  lemma RoleChangeCanBeMissedInAFailingCall() returns (calls: seq<Call>, next: Call)
    ensures ErrorFree(calls) && next.roles.Ok? && next.roles.value != LastRoles(calls) && next.bindings.Err?
    ensures !Detect(After(calls), next).invalidate
  {
    calls, next := [Call(Ok({"1"}), Ok({"2"}))], Call(Ok({"2"}), Err("unavailable"));
    assert calls[..0] == [];
    assert After([]) == NOTHING;
  }
}
