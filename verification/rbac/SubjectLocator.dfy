/** From a request to the subjects that may make it, and its duality with the rule resolver. */
module SubjectLocator {
  import opened Common
  import opened RbacTypes
  import opened Allows
  import opened PlainRbac
  import opened RuleResolver

  /** SubjectAccessEvaluator: the policy and an optional superuser (none when empty). */
  datatype Evaluator = Evaluator(superUser: string, policy: Policy)

  // ---- specification ---------------------------------------------------------------------------

  /** Subjects allowed whatever the policy says. */
  function ImplicitSubjects(superUser: string): seq<Subject> {
    [Subject(GROUP_KIND, GROUP_NAME, SYSTEM_PRIVILEGED_GROUP, "")] +
    if |superUser| > 0 then [Subject(USER_KIND, GROUP_NAME, superUser, "")] else []
  }

  function GrantedSubjects(p: Policy, bindings: seq<Binding>, namespace: string, a: Attributes): seq<Subject> {
    if bindings == [] then []
    else
      var last := bindings[|bindings| - 1];
      GrantedSubjects(p, bindings[..|bindings| - 1], namespace, a) +
      if BindingAllows(p, last, namespace, a) then last.subjects else []
  }

  function ResolutionErrors(p: Policy, bindings: seq<Binding>, namespace: string): seq<Error> {
    if bindings == [] then []
    else
      var rules := GetRoleReferenceRules(p, bindings[|bindings| - 1].roleRef, namespace);
      ResolutionErrors(p, bindings[..|bindings| - 1], namespace) + if rules.Err? then [rules.error] else []
  }

  function ListedSubjects(p: Policy, listed: Result<seq<Binding>, Error>, namespace: string,
      a: Attributes): seq<Subject> {
    match listed case Err(_) => [] case Ok(bindings) => GrantedSubjects(p, bindings, namespace, a)
  }

  function ListedErrors(p: Policy, listed: Result<seq<Binding>, Error>, namespace: string): seq<Error> {
    match listed case Err(e) => [e] case Ok(bindings) => ResolutionErrors(p, bindings, namespace)
  }

  /** What the policy's bindings grant, leaving the implicit subjects aside. */
  function PolicySubjects(p: Policy, a: Attributes): seq<Subject> {
    ListedSubjects(p, p.listClusterRoleBindings, "", a) +
    if |a.namespace| > 0 then ListedSubjects(p, p.listRoleBindings(a.namespace), a.namespace, a) else []
  }

  function LocatorErrors(p: Policy, namespace: string): seq<Error> {
    ListedErrors(p, p.listClusterRoleBindings, "") +
    if |namespace| > 0 then ListedErrors(p, p.listRoleBindings(namespace), namespace) else []
  }

  function Subjects(e: Evaluator, a: Attributes): seq<Subject> {
    ImplicitSubjects(e.superUser) + PolicySubjects(e.policy, a)
  }

  // ---- the traversal ---------------------------------------------------------------------------

  method AllowedSubjects(e: Evaluator, a: Attributes) returns (subjects: seq<Subject>, errors: seq<Error>)
    ensures subjects == Subjects(e, a)
    ensures errors == LocatorErrors(e.policy, a.namespace)
  {
    subjects := [Subject(GROUP_KIND, GROUP_NAME, SYSTEM_PRIVILEGED_GROUP, "")];
    if |e.superUser| > 0 {
      subjects := subjects + [Subject(USER_KIND, GROUP_NAME, e.superUser, "")];
    }
    errors := [];
    subjects, errors := AppendListed(e.policy, e.policy.listClusterRoleBindings, "", a, subjects, errors);
    if |a.namespace| > 0 {
      subjects, errors := AppendListed(e.policy, e.policy.listRoleBindings(a.namespace), a.namespace, a, subjects,
          errors);
    }
  }

  /** One of the two loops of AllowedSubjects: append what a listing grants, note what it fails to. */
  method AppendListed(p: Policy, listed: Result<seq<Binding>, Error>, namespace: string, a: Attributes,
                      subjects0: seq<Subject>, errors0: seq<Error>)
    returns (subjects: seq<Subject>, errors: seq<Error>)
    ensures subjects == subjects0 + ListedSubjects(p, listed, namespace, a)
    ensures errors == errors0 + ListedErrors(p, listed, namespace)
  {
    subjects, errors := subjects0, errors0;
    if listed.Err? {
      errors := errors + [listed.error];
    } else {
      var bindings := listed.value;
      for i := 0 to |bindings|
        invariant subjects == subjects0 + GrantedSubjects(p, bindings[..i], namespace, a)
        invariant errors == errors0 + ResolutionErrors(p, bindings[..i], namespace)
      {
        assert bindings[..i + 1][..i] == bindings[..i];
        var b := bindings[i];
        var answer := GetRoleReferenceRules(p, b.roleRef, namespace);
        var rules := if answer.Ok? then answer.value else [];
        if answer.Err? {
          errors := errors + [answer.error];
        }
        if RulesAllow(a, rules) {
          subjects := subjects + b.subjects;
        }
      }
      assert bindings[..|bindings|] == bindings;
    }
  }

  // ---- what the list contains ------------------------------------------------------------------

  /** Some listed binding allows the request and names the subject. */
  ghost predicate ListNames(p: Policy, listed: Result<seq<Binding>, Error>, namespace: string, a: Attributes,
      s: Subject) {
    listed.Ok? && exists b | b in listed.value :: BindingAllows(p, b, namespace, a) && s in b.subjects
  }

  ghost predicate ClusterNames(p: Policy, a: Attributes, s: Subject) {
    ListNames(p, p.listClusterRoleBindings, "", a, s)
  }

  ghost predicate NamespaceNames(p: Policy, a: Attributes, s: Subject) {
    |a.namespace| > 0 && ListNames(p, p.listRoleBindings(a.namespace), a.namespace, a, s)
  }

  lemma {:induction false} GrantedSubjectsContains(p: Policy, bindings: seq<Binding>, namespace: string, a: Attributes,
      s: Subject)
    ensures s in GrantedSubjects(p, bindings, namespace, a) <==> ListNames(p, Ok(bindings), namespace, a, s)
  {
    if bindings != [] {
      var init, last := bindings[..|bindings| - 1], bindings[|bindings| - 1];
      GrantedSubjectsContains(p, init, namespace, a, s);
      assert forall b :: b in bindings <==> b in init || b == last;
    }
  }

  /** A subject is granted by policy iff a listed binding that allows the request names it. */
  lemma PolicySubjectsContains(p: Policy, a: Attributes, s: Subject)
    ensures s in PolicySubjects(p, a) <==> ClusterNames(p, a, s) || NamespaceNames(p, a, s)
  {
    if p.listClusterRoleBindings.Ok? {
      GrantedSubjectsContains(p, p.listClusterRoleBindings.value, "", a, s);
    }
    if |a.namespace| > 0 && p.listRoleBindings(a.namespace).Ok? {
      GrantedSubjectsContains(p, p.listRoleBindings(a.namespace).value, a.namespace, a, s);
    }
  }

  /** ... whose reference is to a role with a rule that allows it. */
  lemma PolicySubjectsIff(p: Policy, a: Attributes, s: Subject)
    ensures s in PolicySubjects(p, a) <==>
            exists b, own, rule :: Binds(p, a.namespace, b, own) && s in b.subjects &&
                Gives(p, b.roleRef, own, rule) && RuleAllows(a, rule)
  {
    PolicySubjectsContains(p, a, s);
    if s in PolicySubjects(p, a) {
      var b, own := NamingBinding(p, a, s);
      BindingAllowsIff(p, b, own, a);
    }
    forall b, own, rule | Binds(p, a.namespace, b, own) && s in b.subjects && Gives(p, b.roleRef, own, rule) &&
        RuleAllows(a, rule)
      ensures ClusterNames(p, a, s) || NamespaceNames(p, a, s)
    {
      BindingAllowsIff(p, b, own, a);
    }
  }

  lemma NamingBinding(p: Policy, a: Attributes, s: Subject) returns (b: Binding, own: string)
    requires ClusterNames(p, a, s) || NamespaceNames(p, a, s)
    ensures Binds(p, a.namespace, b, own) && BindingAllows(p, b, own, a) && s in b.subjects
  {
    if ClusterNames(p, a, s) {
      own := "";
      b :| b in p.listClusterRoleBindings.value && BindingAllows(p, b, own, a) && s in b.subjects;
    } else {
      own := a.namespace;
      b :| b in p.listRoleBindings(own).value && BindingAllows(p, b, own, a) && s in b.subjects;
    }
  }

  // ---- duality with the rule resolver ----------------------------------------------------------

  /** What the resolver answers for this user: RulesAllow over RulesFor. */
  ghost predicate UserAllowed(p: Policy, user: UserInfo, a: Attributes) {
    RulesAllow(a, RulesOf(AllVisits(p, user, a.namespace)))
  }

  /** What the locator answers for this user: some subject the policy grants applies to them. */
  ghost predicate UserLocated(p: Policy, user: UserInfo, a: Attributes) {
    AppliesTo(user, PolicySubjects(p, a), a.namespace)
  }

  predicate Unqualified(s: Subject) {
    s.kind == SERVICE_ACCOUNT_KIND && |s.namespace| == 0
  }

  /** Every user the resolver allows is located. */
  lemma AllowedIsLocated(p: Policy, user: UserInfo, a: Attributes)
    requires UserAllowed(p, user, a)
    ensures UserLocated(p, user, a)
  {
    UserGrantedIff(p, user, a);
    if ListGrants(p, user, p.listClusterRoleBindings, "", a) {
      var b :| b in p.listClusterRoleBindings.value && AppliesTo(user, b.subjects, "") && BindingAllows(p, b, "", a);
      var s :| s in b.subjects && AppliesToUser(user, s, "");
      assert ClusterNames(p, a, s);
      PolicySubjectsContains(p, a, s);
    } else {
      var b :| b in p.listRoleBindings(a.namespace).value && AppliesTo(user, b.subjects, a.namespace) &&
          BindingAllows(p, b, a.namespace, a);
      var s :| s in b.subjects && AppliesToUser(user, s, a.namespace);
      assert NamespaceNames(p, a, s);
      PolicySubjectsContains(p, a, s);
    }
  }

  /** A located user is allowed, unless what located them is a ServiceAccount without a namespace in
      a cluster binding: the locator's caller fills in the request's namespace, the resolver does not. */
  lemma LocatedIsAllowed(p: Policy, user: UserInfo, a: Attributes, s: Subject)
    requires s in PolicySubjects(p, a) && AppliesToUser(user, s, a.namespace)
    requires !(Unqualified(s) && ClusterNames(p, a, s))
    ensures UserAllowed(p, user, a)
  {
    UserGrantedIff(p, user, a);
    PolicySubjectsContains(p, a, s);
    if ClusterNames(p, a, s) {
      var b :| b in p.listClusterRoleBindings.value && BindingAllows(p, b, "", a) && s in b.subjects;
      assert AppliesToUser(user, s, "");
      assert AppliesTo(user, b.subjects, "");
    } else {
      var b :| b in p.listRoleBindings(a.namespace).value && BindingAllows(p, b, a.namespace, a) && s in b.subjects;
      assert AppliesTo(user, b.subjects, a.namespace);
    }
  }

  /** No cluster binding that allows the request names a ServiceAccount without its namespace. */
  ghost predicate ClusterSubjectsQualified(p: Policy, a: Attributes) {
    forall s :: ClusterNames(p, a, s) ==> !Unqualified(s)
  }

  /** The two traversals agree on every user once cluster bindings qualify their ServiceAccounts. */
  lemma LocatorAgreesWithResolver(p: Policy, user: UserInfo, a: Attributes)
    requires ClusterSubjectsQualified(p, a)
    ensures UserLocated(p, user, a) <==> UserAllowed(p, user, a)
  {
    if UserAllowed(p, user, a) {
      AllowedIsLocated(p, user, a);
    }
    if UserLocated(p, user, a) {
      var s :| s in PolicySubjects(p, a) && AppliesToUser(user, s, a.namespace);
      LocatedIsAllowed(p, user, a, s);
    }
  }

  /** The bare user an unqualified ServiceAccount subject is mistaken for in this request's namespace. */
  function MistakenFor(s: Subject, namespace: string): UserInfo {
    UserInfo(MakeUsername(namespace, s.name), [])
  }

  /** Exactly when the two traversals agree on every user: each ServiceAccount that an allowing cluster
      binding names without a namespace must be allowed by some other grant already. */
  lemma AgreeOnEveryUserIff(p: Policy, a: Attributes)
    ensures (forall user :: UserLocated(p, user, a) <==> UserAllowed(p, user, a)) <==>
            (|a.namespace| > 0 ==>
              forall s :: ClusterNames(p, a, s) && Unqualified(s) ==> UserAllowed(p, MistakenFor(s, a.namespace), a))
  {
    if |a.namespace| > 0 && forall user :: UserLocated(p, user, a) <==> UserAllowed(p, user, a) {
      forall s | ClusterNames(p, a, s) && Unqualified(s)
        ensures UserAllowed(p, MistakenFor(s, a.namespace), a)
      {
        PolicySubjectsContains(p, a, s);
        assert AppliesToUser(MistakenFor(s, a.namespace), s, a.namespace);
        assert UserLocated(p, MistakenFor(s, a.namespace), a);
      }
    }
    if |a.namespace| > 0 ==> forall s :: ClusterNames(p, a, s) && Unqualified(s) ==>
        UserAllowed(p, MistakenFor(s, a.namespace), a) {
      forall user
        ensures UserLocated(p, user, a) <==> UserAllowed(p, user, a)
      {
        if UserAllowed(p, user, a) {
          AllowedIsLocated(p, user, a);
        }
        if UserLocated(p, user, a) {
          var s :| s in PolicySubjects(p, a) && AppliesToUser(user, s, a.namespace);
          if Unqualified(s) && ClusterNames(p, a, s) {
            SameNameMoreGroups(p, MistakenFor(s, a.namespace), user, a);
          } else {
            LocatedIsAllowed(p, user, a, s);
          }
        }
      }
    }
  }

  /** Belonging to more groups never loses a permission. */
  lemma SameNameMoreGroups(p: Policy, u: UserInfo, v: UserInfo, a: Attributes)
    requires u.name == v.name && Elements(u.groups) <= Elements(v.groups)
    requires UserAllowed(p, u, a)
    ensures UserAllowed(p, v, a)
  {
    UserGrantedIff(p, u, a);
    UserGrantedIff(p, v, a);
    assert forall g | g in u.groups :: g in Elements(u.groups);
    forall subjects, namespace | AppliesTo(u, subjects, namespace) ensures AppliesTo(v, subjects, namespace) {
      var s :| s in subjects && AppliesToUser(u, s, namespace);
      assert AppliesToUser(v, s, namespace);
    }
  }

  /** The disagreement is real: one cluster binding, one unqualified ServiceAccount. */
  lemma UnqualifiedServiceAccountDisagrees() returns (p: Policy, user: UserInfo, a: Attributes)
    ensures UserLocated(p, user, a) && !UserAllowed(p, user, a)
  {
    var rule := PolicyRule(["get"], [""], ["namespaces"], [], []);
    var role := Role(ObjectMeta("", "viewer", "u1", "1"), [rule]);
    var subject := Subject(SERVICE_ACCOUNT_KIND, "", "builder", "");
    var binding := Binding(ObjectMeta("", "view", "u2", "2"), [subject], RoleRef(GROUP_NAME, "ClusterRole", "viewer"));
    p := Policy((ns, n) => Err("not found"), ns => Ok([]), n => Ok(role), Ok([binding]));
    a := Attributes("get", "dev", "", "namespaces", "", "dev", true, "");
    user := MistakenFor(subject, "dev");
    assert RuleAllows(a, rule) by {
      assert "get" in rule.verbs && "" in rule.apiGroups && "namespaces" in rule.resources;
    }
    assert rule in role.rules;
    assert BindingAllows(p, binding, "", a);
    assert subject in binding.subjects && binding in [binding];
    assert ClusterNames(p, a, subject);
    PolicySubjectsContains(p, a, subject);
    UserGrantedIff(p, user, a);
  }

  // ---- errors ----------------------------------------------------------------------------------

  lemma {:induction false} NoResolutionErrors(p: Policy, bindings: seq<Binding>, namespace: string)
    ensures ResolutionErrors(p, bindings, namespace) == [] <==> ListResolves(p, Ok(bindings), namespace)
  {
    if bindings != [] {
      var init, last := bindings[..|bindings| - 1], bindings[|bindings| - 1];
      NoResolutionErrors(p, init, namespace);
      assert forall b :: b in bindings <==> b in init || b == last;
    }
  }

  ghost predicate Resolves(p: Policy, namespace: string) {
    && ListResolves(p, p.listClusterRoleBindings, "")
    && (|namespace| > 0 ==> ListResolves(p, p.listRoleBindings(namespace), namespace))
  }

  /** AllowedSubjects is error-free iff both listings work and every listed binding resolves. */
  lemma LocatorErrorFreeIff(p: Policy, namespace: string)
    ensures LocatorErrors(p, namespace) == [] <==> Resolves(p, namespace)
  {
    if p.listClusterRoleBindings.Ok? {
      NoResolutionErrors(p, p.listClusterRoleBindings.value, "");
    }
    if |namespace| > 0 && p.listRoleBindings(namespace).Ok? {
      NoResolutionErrors(p, p.listRoleBindings(namespace).value, namespace);
    }
  }

  /** ... that is, iff every listed binding's reference is to a Role or ClusterRole of RBAC's that can be had. */
  lemma LocatorErrorFreeIffResolvable(p: Policy, namespace: string)
    ensures LocatorErrors(p, namespace) == [] <==>
            && Listable(p, namespace)
            && forall b, own | Binds(p, namespace, b, own) :: Resolvable(p, b.roleRef, own)
  {
    LocatorErrorFreeIff(p, namespace);
    forall b: Binding, own: string { ReferenceResolvesIff(p, b.roleRef, own); }
  }

  /** An error-free AllowedSubjects means an error-free RulesFor for every user. */
  lemma ErrorFreeLocatorMeansErrorFreeRules(p: Policy, user: UserInfo, namespace: string)
    requires LocatorErrors(p, namespace) == []
    ensures ErrorsOf(AllVisits(p, user, namespace)) == []
  {
    LocatorErrorFreeIff(p, namespace);
    ResolvedListShowsNoError(p, user, p.listClusterRoleBindings.value, "");
    if |namespace| > 0 {
      ResolvedListShowsNoError(p, user, p.listRoleBindings(namespace).value, namespace);
    }
    ErrorsOfEmpty(AllVisits(p, user, namespace));
  }

  // ---- policy is purely additive ---------------------------------------------------------------

  ghost predicate RoleExtends(r: Result<Role, Error>, r': Result<Role, Error>) {
    r.Ok? ==> r'.Ok? && Elements(r.value.rules) <= Elements(r'.value.rules)
  }

  ghost predicate BindingExtends(b: Binding, b': Binding) {
    b.roleRef == b'.roleRef && Elements(b.subjects) <= Elements(b'.subjects)
  }

  ghost predicate ListExtends(l: Result<seq<Binding>, Error>, l': Result<seq<Binding>, Error>) {
    l.Ok? ==> l'.Ok? && forall b | b in l.value :: exists b' | b' in l'.value :: BindingExtends(b, b')
  }

  /** `q` has everything `p` has: more bindings, subjects, rules in a role, roles, working lookups. */
  ghost predicate PolicyExtends(p: Policy, q: Policy) {
    && (forall ns, n :: RoleExtends(p.getRole(ns, n), q.getRole(ns, n)))
    && (forall n :: RoleExtends(p.getClusterRole(n), q.getClusterRole(n)))
    && (forall ns :: ListExtends(p.listRoleBindings(ns), q.listRoleBindings(ns)))
    && ListExtends(p.listClusterRoleBindings, q.listClusterRoleBindings)
  }

  lemma ExtendedBindingAllows(p: Policy, q: Policy, b: Binding, b': Binding, namespace: string, a: Attributes)
    requires PolicyExtends(p, q) && BindingExtends(b, b') && BindingAllows(p, b, namespace, a)
    ensures BindingAllows(q, b', namespace, a)
  {
    var rules := GetRoleReferenceRules(p, b.roleRef, namespace).value;
    var rules' := GetRoleReferenceRules(q, b'.roleRef, namespace);
    assert RoleExtends(p.getRole(namespace, b.roleRef.name), q.getRole(namespace, b.roleRef.name));
    assert RoleExtends(p.getClusterRole(b.roleRef.name), q.getClusterRole(b.roleRef.name));
    var r :| r in rules && RuleAllows(a, r);
    assert r in Elements(rules) && Elements(rules) <= Elements(rules'.value);
  }

  lemma ExtendedListNames(p: Policy, q: Policy, l: Result<seq<Binding>, Error>, l': Result<seq<Binding>, Error>,
      namespace: string, a: Attributes, s: Subject)
    requires PolicyExtends(p, q) && ListExtends(l, l') && ListNames(p, l, namespace, a, s)
    ensures ListNames(q, l', namespace, a, s)
  {
    var b :| b in l.value && BindingAllows(p, b, namespace, a) && s in b.subjects;
    var b' :| b' in l'.value && BindingExtends(b, b');
    ExtendedBindingAllows(p, q, b, b', namespace, a);
    assert s in Elements(b.subjects) && Elements(b.subjects) <= Elements(b'.subjects);
  }

  /** Extending the policy never removes a subject from AllowedSubjects. */
  lemma ExtendingKeepsSubjects(p: Policy, q: Policy, a: Attributes)
    requires PolicyExtends(p, q)
    ensures Elements(PolicySubjects(p, a)) <= Elements(PolicySubjects(q, a))
  {
    forall s | s in PolicySubjects(p, a) ensures s in PolicySubjects(q, a) {
      PolicySubjectsContains(p, a, s);
      PolicySubjectsContains(q, a, s);
      if ClusterNames(p, a, s) {
        ExtendedListNames(p, q, p.listClusterRoleBindings, q.listClusterRoleBindings, "", a, s);
      } else {
        assert ListExtends(p.listRoleBindings(a.namespace), q.listRoleBindings(a.namespace));
        ExtendedListNames(p, q, p.listRoleBindings(a.namespace), q.listRoleBindings(a.namespace), a.namespace, a, s);
      }
    }
  }

  lemma ExtendedListGrants(p: Policy, q: Policy, user: UserInfo, l: Result<seq<Binding>, Error>,
      l': Result<seq<Binding>, Error>, namespace: string, a: Attributes)
    requires PolicyExtends(p, q) && ListExtends(l, l') && ListGrants(p, user, l, namespace, a)
    ensures ListGrants(q, user, l', namespace, a)
  {
    var b :| b in l.value && AppliesTo(user, b.subjects, namespace) && BindingAllows(p, b, namespace, a);
    var b' :| b' in l'.value && BindingExtends(b, b');
    ExtendedBindingAllows(p, q, b, b', namespace, a);
    var s :| s in b.subjects && AppliesToUser(user, s, namespace);
    assert s in Elements(b.subjects) && Elements(b.subjects) <= Elements(b'.subjects);
    assert AppliesTo(user, b'.subjects, namespace);
  }

  /** Extending the policy never turns an allowed request into a denied one. */
  lemma ExtendingKeepsPermissions(p: Policy, q: Policy, user: UserInfo, a: Attributes)
    requires PolicyExtends(p, q) && UserAllowed(p, user, a)
    ensures UserAllowed(q, user, a)
  {
    UserGrantedIff(p, user, a);
    UserGrantedIff(q, user, a);
    if ListGrants(p, user, p.listClusterRoleBindings, "", a) {
      ExtendedListGrants(p, q, user, p.listClusterRoleBindings, q.listClusterRoleBindings, "", a);
    } else {
      assert ListExtends(p.listRoleBindings(a.namespace), q.listRoleBindings(a.namespace));
      ExtendedListGrants(p, q, user, p.listRoleBindings(a.namespace), q.listRoleBindings(a.namespace), a.namespace, a);
    }
  }
}
