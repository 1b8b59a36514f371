/** The question the cache asks about a namespace, and what its answer means for a user. */
module Reviewer {
  import opened Common
  import opened RbacTypes
  import opened Allows
  import opened PlainRbac
  import opened RuleResolver
  import opened SubjectLocator

  /** "May one get the namespace called `name`?", asked inside that namespace. */
  function Action(name: string): Attributes {
    Attributes("get", name, "", "namespaces", "", name, true, "")
  }

  /** A review: the allowed subjects, or nothing at all if anything failed on the way. */
  function Review(e: Evaluator, name: string): Result<seq<Subject>, seq<Error>> {
    var errors := LocatorErrors(e.policy, name);
    if errors == [] then Ok(Subjects(e, Action(name))) else Err(errors)
  }

  /** Asking the evaluator: its partial subjects are dropped when it also returns errors. */
  method AskEvaluator(e: Evaluator, name: string) returns (review: Result<seq<Subject>, seq<Error>>)
    ensures review == Review(e, name)
  {
    var subjects, errors := AllowedSubjects(e, Action(name));
    review := if errors == [] then Ok(subjects) else Err(errors);
  }

  // ---- what is asked -----------------------------------------------------------------------------

  /** The rules that answer the question are those that let one get the namespace. */
  lemma QuestionIs(rule: PolicyRule, name: string)
    ensures RuleAllows(Action(name), rule) <==> LetsGet(rule, name)
  {
    ResourceRequestAllowedIff(Action(name), rule);
  }

  /** A review succeeds iff both listings work and every listed binding's reference is to a role that can be had;
      it then names the privileged group, the superuser if there is one, and every subject that may get the
      namespace, and no other. */
  lemma ReviewIs(e: Evaluator, name: string)
    ensures Review(e, name).Ok? <==>
            && Listable(e.policy, name)
            && forall b, own | Binds(e.policy, name, b, own) :: Resolvable(e.policy, b.roleRef, own)
    ensures Review(e, name).Ok? ==> forall s :: s in Review(e, name).value <==>
              || s == Subject("Group", "rbac.authorization.k8s.io", "system:masters", "")
              || (e.superUser != "" && s == Subject("User", "rbac.authorization.k8s.io", e.superUser, ""))
              || SubjectMayGet(e.policy, name, s)
  {
    LocatorErrorFreeIffResolvable(e.policy, name);
    forall rule { QuestionIs(rule, name); }
    forall s ensures s in PolicySubjects(e.policy, Action(name)) <==> SubjectMayGet(e.policy, name, s) {
      PolicySubjectsIff(e.policy, Action(name), s);
    }
  }

  /** The resolver's answer to the question, over the policy's own objects. */
  lemma UserMayGetIff(p: Policy, name: string, user: UserInfo)
    ensures UserAllowed(p, user, Action(name)) <==> UserMayGet(p, name, user)
  {
    forall rule { QuestionIs(rule, name); }
    AllowedIff(p, user, Action(name));
  }

  // ---- flattening subjects to user and group names ---------------------------------------------

  /** The user name a subject stands for in reviews of `namespace`, if it stands for one. */
  function UserNamed(s: Subject, namespace: string): Option<string> {
    if s.kind == USER_KIND then Some(s.name)
    else if s.kind == SERVICE_ACCOUNT_KIND then
      var saNamespace := if |s.namespace| > 0 then s.namespace else namespace;
      if |saNamespace| == 0 then None else Some(MakeUsername(saNamespace, s.name))
    else None
  }

  function FlatUsers(subjects: seq<Subject>, namespace: string): seq<string> {
    if subjects == [] then []
    else
      var u := UserNamed(subjects[|subjects| - 1], namespace);
      FlatUsers(subjects[..|subjects| - 1], namespace) + if u.Some? then [u.value] else []
  }

  function FlatGroups(subjects: seq<Subject>): seq<string> {
    if subjects == [] then []
    else
      var s := subjects[|subjects| - 1];
      FlatGroups(subjects[..|subjects| - 1]) + if s.kind == GROUP_KIND then [s.name] else []
  }

  method Flatten(subjects: seq<Subject>, namespace: string) returns (users: seq<string>, groups: seq<string>)
    ensures users == FlatUsers(subjects, namespace)
    ensures groups == FlatGroups(subjects)
  {
    users, groups := [], [];
    for i := 0 to |subjects|
      invariant users == FlatUsers(subjects[..i], namespace)
      invariant groups == FlatGroups(subjects[..i])
    {
      assert subjects[..i + 1][..i] == subjects[..i];
      var subject := subjects[i];
      if subject.kind == USER_KIND {
        users := users + [subject.name];
      } else if subject.kind == GROUP_KIND {
        groups := groups + [subject.name];
      } else if subject.kind == SERVICE_ACCOUNT_KIND {
        var saNamespace := namespace;
        if |subject.namespace| > 0 {
          saNamespace := subject.namespace;
        }
        if |saNamespace| == 0 {
          continue;
        }
        users := users + [MakeUsername(saNamespace, subject.name)];
      }
    }
    assert subjects[..|subjects|] == subjects;
  }

  /** How both the index and a watcher decide access: by user name or by any of the user's groups. */
  predicate HasAccess(user: UserInfo, users: set<string>, groups: set<string>) {
    user.name in users || exists g | g in user.groups :: g in groups
  }

  /** The user and group names a review of `name` yields. */
  function ReviewedUsers(e: Evaluator, name: string): set<string> {
    Elements(FlatUsers(Subjects(e, Action(name)), name))
  }

  function ReviewedGroups(e: Evaluator, name: string): set<string> {
    Elements(FlatGroups(Subjects(e, Action(name))))
  }

  lemma {:induction false} FlatUsersContains(subjects: seq<Subject>, namespace: string, user: string)
    ensures user in FlatUsers(subjects, namespace) <==> exists s | s in subjects ::
        UserNamed(s, namespace) == Some(user)
  {
    if subjects != [] {
      var init, last := subjects[..|subjects| - 1], subjects[|subjects| - 1];
      FlatUsersContains(init, namespace, user);
      assert forall s :: s in subjects <==> s in init || s == last;
    }
  }

  lemma {:induction false} FlatGroupsContains(subjects: seq<Subject>, group: string)
    ensures group in FlatGroups(subjects) <==> exists s | s in subjects :: s.kind == GROUP_KIND && s.name == group
  {
    if subjects != [] {
      var init, last := subjects[..|subjects| - 1], subjects[|subjects| - 1];
      FlatGroupsContains(init, group);
      assert forall s :: s in subjects <==> s in init || s == last;
    }
  }

  /** Flattening preserves meaning: name-or-group membership is exactly "some subject applies". */
  lemma FlatteningPreservesAccess(subjects: seq<Subject>, namespace: string, user: UserInfo)
    ensures HasAccess(user, Elements(FlatUsers(subjects, namespace)), Elements(FlatGroups(subjects))) <==>
            AppliesTo(user, subjects, namespace)
  {
    FlatUsersContains(subjects, namespace, user.name);
    forall g { FlatGroupsContains(subjects, g); }
    if AppliesTo(user, subjects, namespace) {
      var s :| s in subjects && AppliesToUser(user, s, namespace);
      if s.kind != GROUP_KIND {
        assert UserNamed(s, namespace) == Some(user.name);
      } else {
        assert s.name in FlatGroups(subjects);
        assert s.name in Elements(FlatGroups(subjects));
      }
    }
    if user.name in FlatUsers(subjects, namespace) {
      var s :| s in subjects && UserNamed(s, namespace) == Some(user.name);
      assert AppliesToUser(user, s, namespace);
    } else if exists g | g in user.groups :: g in FlatGroups(subjects) {
      var g :| g in user.groups && g in FlatGroups(subjects);
      var s :| s in subjects && s.kind == GROUP_KIND && s.name == g;
      assert AppliesToUser(user, s, namespace);
    }
  }

  /** A review gives access to exactly the exempt users and those some granted subject applies to. */
  lemma ReviewLocates(e: Evaluator, name: string, user: UserInfo)
    ensures HasAccess(user, ReviewedUsers(e, name), ReviewedGroups(e, name)) <==>
            Exempt(e.superUser, user) || UserLocated(e.policy, user, Action(name))
  {
    var implicit, granted := ImplicitSubjects(e.superUser), PolicySubjects(e.policy, Action(name));
    FlatteningPreservesAccess(Subjects(e, Action(name)), name, user);
    assert forall s :: s in Subjects(e, Action(name)) <==> s in implicit || s in granted;
    assert AppliesTo(user, Subjects(e, Action(name)), name) <==>
        AppliesTo(user, implicit, name) || AppliesTo(user, granted, name);
    ImplicitSubjectsApply(e.superUser, name, user);
  }

  lemma ImplicitSubjectsApply(superUser: string, name: string, user: UserInfo)
    ensures AppliesTo(user, ImplicitSubjects(superUser), name) <==> Exempt(superUser, user)
  {
    var implicit := ImplicitSubjects(superUser);
    assert AppliesToUser(user, implicit[0], name) <==> SYSTEM_PRIVILEGED_GROUP in user.groups;
    assert implicit[0] in implicit;
    if |superUser| > 0 {
      assert AppliesToUser(user, implicit[1], name) <==> user.name == superUser;
      assert implicit[1] in implicit;
    }
  }

  /** A review gives access to exactly the exempt users and those RBAC lets get the namespace. */
  lemma ReviewDecides(e: Evaluator, name: string, user: UserInfo)
    requires ClusterSubjectsQualified(e.policy, Action(name))
    ensures HasAccess(user, ReviewedUsers(e, name), ReviewedGroups(e, name)) <==>
            Exempt(e.superUser, user) || UserMayGet(e.policy, name, user)
  {
    ReviewLocates(e, name, user);
    LocatorAgreesWithResolver(e.policy, user, Action(name));
    UserMayGetIff(e.policy, name, user);
  }
}
