/** From a user to the rules that apply to them: the rule resolver and its visitor. */
module RuleResolver {
  import opened Common
  import opened RbacTypes
  import opened Allows
  import opened PlainRbac

  /** One call of the visitor: either a rule or an error, never both. */
  datatype Visit = RuleVisit(rule: PolicyRule) | ErrorVisit(error: Error)

  /** A visitor: from its own state and one visit to its next state and "go on". */
  type Visitor<!S> = (S, Visit) -> (S, bool)

  function GetRoleReferenceRules(p: Policy, roleRef: RoleRef, bindingNamespace: string)
    : Result<seq<PolicyRule>, Error>
  {
    if roleRef.apiGroup == GROUP_NAME && roleRef.kind == "Role" then
      match p.getRole(bindingNamespace, roleRef.name)
      case Ok(role) => Ok(role.rules)
      case Err(e) => Err(e)
    else if roleRef.apiGroup == GROUP_NAME && roleRef.kind == "ClusterRole" then
      match p.getClusterRole(roleRef.name)
      case Ok(role) => Ok(role.rules)
      case Err(e) => Err(e)
    else
      Err("unsupported role reference kind: " + roleRef.kind)
  }

  predicate AppliesTo(user: UserInfo, subjects: seq<Subject>, namespace: string) {
    exists s | s in subjects :: AppliesToUser(user, s, namespace)
  }

  predicate AppliesToUser(user: UserInfo, subject: Subject, namespace: string) {
    if subject.kind == USER_KIND then
      user.name == subject.name
    else if subject.kind == GROUP_KIND then
      subject.name in user.groups
    else if subject.kind == SERVICE_ACCOUNT_KIND then
      var saNamespace := if |subject.namespace| > 0 then subject.namespace else namespace;
      |saNamespace| > 0 && MakeUsername(saNamespace, subject.name) == user.name
    else
      false
  }

  // ---- what references and subjects mean ---------------------------------------------------------

  /** The rules a reference resolves to are those of the Role in the binding's namespace, or of the ClusterRole
      whatever that namespace; any other reference is an error. */
  lemma ReferenceResolvesIff(p: Policy, ref: RoleRef, own: string)
    ensures var rules := GetRoleReferenceRules(p, ref, own);
      && (rules.Ok? <==> Resolvable(p, ref, own))
      && (rules.Ok? ==> forall rule :: rule in rules.value <==> Gives(p, ref, own, rule))
  {
  }

  lemma AppliesToUserIff(user: UserInfo, s: Subject, own: string)
    ensures AppliesToUser(user, s, own) <==> Means(s, own, user)
  {
  }

  // ---- the full visit sequence -----------------------------------------------------------------

  /** What resolving one binding shows the visitor. */
  function BindingVisits(p: Policy, user: UserInfo, b: Binding, namespace: string): seq<Visit> {
    if !AppliesTo(user, b.subjects, namespace) then []
    else
      match GetRoleReferenceRules(p, b.roleRef, namespace)
      case Err(e) => [ErrorVisit(e)]
      case Ok(rules) => RuleVisits(rules)
  }

  function RuleVisits(rules: seq<PolicyRule>): seq<Visit> {
    seq(|rules|, i requires 0 <= i < |rules| => RuleVisit(rules[i]))
  }

  function ListVisits(p: Policy, user: UserInfo, bindings: seq<Binding>, namespace: string): seq<Visit> {
    if bindings == [] then []
    else ListVisits(p, user, bindings[..|bindings| - 1], namespace) + BindingVisits(p, user, bindings[|bindings| - 1],
        namespace)
  }

  function ListedVisits(p: Policy, user: UserInfo, listed: Result<seq<Binding>, Error>, namespace: string): seq<Visit> {
    match listed
    case Err(e) => [ErrorVisit(e)]
    case Ok(bindings) => ListVisits(p, user, bindings, namespace)
  }

  /** Everything a visitor that never stops is shown: cluster bindings, then the namespace's own. */
  function AllVisits(p: Policy, user: UserInfo, namespace: string): seq<Visit> {
    ListedVisits(p, user, p.listClusterRoleBindings, "") +
    if |namespace| > 0 then ListedVisits(p, user, p.listRoleBindings(namespace), namespace) else []
  }

  // ---- running a visitor -----------------------------------------------------------------------

  /** The visits a visitor is actually shown when it is offered `visits`: up to its first "stop". */
  function Fed<S>(visitor: Visitor<S>, s: S, visits: seq<Visit>): seq<Visit> {
    if visits == [] then []
    else
      var (s', more) := visitor(s, visits[0]);
      [visits[0]] + if more then Fed(visitor, s', visits[1..]) else []
  }

  /** The visitor's state after `visits`, and whether it still wants more. */
  function Run<S>(visitor: Visitor<S>, s: S, visits: seq<Visit>): (S, bool) {
    if visits == [] then (s, true)
    else
      var (s', more) := visitor(s, visits[0]);
      if more then Run(visitor, s', visits[1..]) else (s', false)
  }

  lemma {:induction false} RunAppend<S>(visitor: Visitor<S>, s: S, a: seq<Visit>, b: seq<Visit>)
    ensures var (s', more) := Run(visitor, s, a);
      Run(visitor, s, a + b) == if more then Run(visitor, s', b) else (s', false)
  {
    if a == [] {
      assert a + b == b;
    } else {
      var (s1, more) := visitor(s, a[0]);
      assert (a + b)[1..] == a[1..] + b;
      if more {
        RunAppend(visitor, s1, a[1..], b);
      }
    }
  }

  /** VisitRulesFor's loop over one list of bindings, stopping when the visitor says so. */
  method VisitBindings<S>(p: Policy, user: UserInfo, bindings: seq<Binding>, namespace: string, visitor: Visitor<S>,
      s0: S)
    returns (s: S, more: bool)
    ensures (s, more) == Run(visitor, s0, ListVisits(p, user, bindings, namespace))
  {
    s, more := s0, true;
    for i := 0 to |bindings|
      invariant more && (s, more) == Run(visitor, s0, ListVisits(p, user, bindings[..i], namespace))
    {
      var b := bindings[i];
      ghost var before := ListVisits(p, user, bindings[..i], namespace);
      ghost var rest := bindings[i + 1..];
      assert bindings[..i + 1][..i] == bindings[..i];
      assert ListVisits(p, user, bindings[..i + 1], namespace) == before + BindingVisits(p, user, b, namespace);
      RunAppend(visitor, s0, before, BindingVisits(p, user, b, namespace));
      if !AppliesTo(user, b.subjects, namespace) {
        continue;
      }
      var answer := GetRoleReferenceRules(p, b.roleRef, namespace);
      if answer.Err? {
        s, more := VisitOne(visitor, s, ErrorVisit(answer.error));
      } else {
        s, more := VisitEach(visitor, s, answer.value);
      }
      if !more {
        StoppedStays(p, user, bindings, i + 1, namespace, visitor, s0);
        return;
      }
    }
    assert bindings[..|bindings|] == bindings;
  }

  method VisitOne<S>(visitor: Visitor<S>, s0: S, v: Visit) returns (s: S, more: bool)
    ensures (s, more) == Run(visitor, s0, [v])
  {
    var answer := visitor(s0, v);
    s, more := answer.0, answer.1;
    assert Run(visitor, s, [v][1..]) == (s, true);
  }

  method VisitEach<S>(visitor: Visitor<S>, s0: S, rules: seq<PolicyRule>) returns (s: S, more: bool)
    ensures (s, more) == Run(visitor, s0, RuleVisits(rules))
  {
    s, more := s0, true;
    ghost var all := RuleVisits(rules);
    for i := 0 to |rules|
      invariant more && (s, more) == Run(visitor, s0, all[..i])
    {
      RunAppend(visitor, s0, all[..i], [all[i]]);
      assert all[..i + 1] == all[..i] + [all[i]];
      RunAppend(visitor, s0, all[..i + 1], all[i + 1..]);
      assert all == all[..i + 1] + all[i + 1..];
      s, more := VisitOne(visitor, s, RuleVisit(rules[i]));
      if !more {
        return;
      }
    }
    assert all[..|rules|] == all;
  }

  /** A visitor that stopped within a prefix of the bindings is in the same state after all of them. */
  lemma {:induction false} StoppedStays<S>(p: Policy, user: UserInfo, bindings: seq<Binding>, n: nat, namespace: string,
      visitor: Visitor<S>, s0: S)
    requires n <= |bindings|
    requires !Run(visitor, s0, ListVisits(p, user, bindings[..n], namespace)).1
    ensures Run(visitor, s0, ListVisits(p, user, bindings, namespace)) ==
        Run(visitor, s0, ListVisits(p, user, bindings[..n], namespace))
  {
    if n == |bindings| {
      assert bindings[..n] == bindings;
    } else {
      var shorter := bindings[..|bindings| - 1];
      assert shorter[..n] == bindings[..n];
      StoppedStays(p, user, shorter, n, namespace, visitor, s0);
      RunAppend(visitor, s0, ListVisits(p, user, shorter, namespace),
          BindingVisits(p, user, bindings[|bindings| - 1], namespace));
    }
  }

  method VisitRulesFor<S>(p: Policy, user: UserInfo, namespace: string, visitor: Visitor<S>, s0: S) returns (s: S)
    ensures s == Run(visitor, s0, AllVisits(p, user, namespace)).0
  {
    var more;
    ghost var cluster := ListedVisits(p, user, p.listClusterRoleBindings, "");
    ghost var local := if |namespace| > 0 then ListedVisits(p, user, p.listRoleBindings(namespace), namespace) else [];
    RunAppend(visitor, s0, cluster, local);
    if p.listClusterRoleBindings.Err? {
      s, more := VisitOne(visitor, s0, ErrorVisit(p.listClusterRoleBindings.error));
    } else {
      s, more := VisitBindings(p, user, p.listClusterRoleBindings.value, "", visitor, s0);
    }
    if !more {
      return;
    }
    if |namespace| > 0 {
      var listed := p.listRoleBindings(namespace);
      if listed.Err? {
        s, more := VisitOne(visitor, s, ErrorVisit(listed.error));
      } else {
        s, more := VisitBindings(p, user, listed.value, namespace, visitor, s);
      }
    }
  }

  // ---- RulesFor: the accumulating visitor ------------------------------------------------------

  datatype RuleAccumulator = RuleAccumulator(rules: seq<PolicyRule>, errors: seq<Error>) {
    /** ruleAccumulator.visit: record what is shown and always ask for more. */
    function Visit(v: Visit): (RuleAccumulator, bool) {
      match v
      case RuleVisit(rule) => (this.(rules := rules + [rule]), true)
      case ErrorVisit(error) => (this.(errors := errors + [error]), true)
    }
  }

  function Accumulate(acc: RuleAccumulator, v: Visit): (RuleAccumulator, bool) {
    acc.Visit(v)
  }

  method RulesFor(p: Policy, user: UserInfo, namespace: string) returns (rules: seq<PolicyRule>, errors: seq<Error>)
    ensures rules == RulesOf(AllVisits(p, user, namespace))
    ensures errors == ErrorsOf(AllVisits(p, user, namespace))
  {
    var acc := VisitRulesFor(p, user, namespace, Accumulate, RuleAccumulator([], []));
    AccumulatorKeepsAll(RuleAccumulator([], []), AllVisits(p, user, namespace));
    rules, errors := acc.rules, acc.errors;
  }

  /** The rules among the visits, in order. */
  function RulesOf(visits: seq<Visit>): seq<PolicyRule> {
    if visits == [] then []
    else (if visits[0].RuleVisit? then [visits[0].rule] else []) + RulesOf(visits[1..])
  }

  /** The errors among the visits, in order. */
  function ErrorsOf(visits: seq<Visit>): seq<Error> {
    if visits == [] then []
    else (if visits[0].ErrorVisit? then [visits[0].error] else []) + ErrorsOf(visits[1..])
  }

  lemma {:induction false} AccumulatorKeepsAll(acc: RuleAccumulator, visits: seq<Visit>)
    ensures Run(Accumulate, acc, visits) ==
            (RuleAccumulator(acc.rules + RulesOf(visits), acc.errors + ErrorsOf(visits)), true)
    decreases |visits|
  {
    if visits == [] {
      assert acc.rules + [] == acc.rules && acc.errors + [] == acc.errors;
    } else {
      var v, rest := visits[0], visits[1..];
      var acc' := acc.Visit(v).0;
      AccumulatorKeepsAll(acc', rest);
      match v {
        case RuleVisit(rule) =>
          assert acc.rules + ([rule] + RulesOf(rest)) == acc.rules + [rule] + RulesOf(rest);
          assert [] + ErrorsOf(rest) == ErrorsOf(rest);
        case ErrorVisit(error) =>
          assert acc.errors + ([error] + ErrorsOf(rest)) == acc.errors + [error] + ErrorsOf(rest);
          assert [] + RulesOf(rest) == RulesOf(rest);
      }
    }
  }

  lemma {:induction false} RulesOfContains(visits: seq<Visit>, rule: PolicyRule)
    ensures rule in RulesOf(visits) <==> RuleVisit(rule) in visits
  {
    if visits != [] {
      RulesOfContains(visits[1..], rule);
    }
  }

  lemma {:induction false} ErrorsOfEmpty(visits: seq<Visit>)
    ensures ErrorsOf(visits) == [] <==> forall v | v in visits :: v.RuleVisit?
  {
    if visits != [] {
      ErrorsOfEmpty(visits[1..]);
      assert visits[0] in visits;
      assert forall v :: v in visits <==> v == visits[0] || v in visits[1..];
    }
  }

  // ---- short-circuiting ------------------------------------------------------------------------

  /** Short-circuit visiting, for any visitor: it is shown a prefix of the full sequence, it answered
      "go on" to all of that prefix but possibly the last visit, and when it is not shown everything
      it is because it answered "stop" to the last visit shown. */
  lemma {:induction false} ShownAPrefixEndingAtTheFirstStop<S>(visitor: Visitor<S>, s: S, visits: seq<Visit>)
    ensures var fed := Fed(visitor, s, visits);
      && fed <= visits
      && Run(visitor, s, fed) == Run(visitor, s, visits)
      && (forall k | 0 <= k < |fed| :: Run(visitor, s, fed[..k]).1)
      && (fed != visits ==> !Run(visitor, s, fed).1)
  {
    if visits != [] {
      var (s', more) := visitor(s, visits[0]);
      var fed := Fed(visitor, s, visits);
      if more {
        ShownAPrefixEndingAtTheFirstStop(visitor, s', visits[1..]);
        var rest := Fed(visitor, s', visits[1..]);
        assert fed[1..] == rest;
        forall k | 0 <= k < |fed| ensures Run(visitor, s, fed[..k]).1 {
          if k > 0 {
            assert fed[..k][1..] == rest[..k - 1];
          }
        }
      } else {
        assert fed == [visits[0]];
        assert fed[..0] == [];
      }
    }
  }

  /** The authorizer's visitor: stop at the first rule that allows the request. */
  function StopAtFirstAllowing(a: Attributes): Visitor<bool> {
    (allowed: bool, v: Visit) =>
      if v.RuleVisit? && RuleAllows(a, v.rule) then (true, false) else (allowed, true)
  }

  /** Deciding by a visitor that stops at the first allowing rule is deciding over all the rules. */
  lemma {:induction false} ShortCircuitDecides(a: Attributes, visits: seq<Visit>)
    ensures Run(StopAtFirstAllowing(a), false, visits).0 == RulesAllow(a, RulesOf(visits))
  {
    if visits != [] {
      ShortCircuitDecides(a, visits[1..]);
      var rules, rest := RulesOf(visits), RulesOf(visits[1..]);
      if visits[0].RuleVisit? {
        assert rules == [visits[0].rule] + rest;
        if RuleAllows(a, visits[0].rule) {
          assert visits[0].rule in rules;
        } else {
          assert forall r :: r in rules <==> r == visits[0].rule || r in rest;
        }
      }
    }
  }

  method UserMay(p: Policy, user: UserInfo, a: Attributes) returns (allowed: bool)
    ensures allowed == RulesAllow(a, RulesOf(AllVisits(p, user, a.namespace)))
  {
    allowed := VisitRulesFor(p, user, a.namespace, StopAtFirstAllowing(a), false);
    ShortCircuitDecides(a, AllVisits(p, user, a.namespace));
  }

  // ---- the decision, without the traversal -----------------------------------------------------

  /** This binding's role resolves and one of its rules allows the request. */
  predicate BindingAllows(p: Policy, b: Binding, namespace: string, a: Attributes) {
    var rules := GetRoleReferenceRules(p, b.roleRef, namespace);
    rules.Ok? && RulesAllow(a, rules.value)
  }

  /** Some listed binding both applies to the user and allows the request. */
  ghost predicate ListGrants(p: Policy, user: UserInfo, listed: Result<seq<Binding>, Error>, namespace: string,
      a: Attributes) {
    listed.Ok? && exists b | b in listed.value ::
        AppliesTo(user, b.subjects, namespace) && BindingAllows(p, b, namespace, a)
  }

  ghost predicate UserGranted(p: Policy, user: UserInfo, a: Attributes) {
    || ListGrants(p, user, p.listClusterRoleBindings, "", a)
    || (|a.namespace| > 0 && ListGrants(p, user, p.listRoleBindings(a.namespace), a.namespace, a))
  }

  ghost predicate VisitsAllow(a: Attributes, visits: seq<Visit>) {
    exists v | v in visits :: v.RuleVisit? && RuleAllows(a, v.rule)
  }

  lemma VisitsAllowIffRulesAllow(a: Attributes, visits: seq<Visit>)
    ensures VisitsAllow(a, visits) <==> RulesAllow(a, RulesOf(visits))
  {
    if VisitsAllow(a, visits) {
      var v :| v in visits && v.RuleVisit? && RuleAllows(a, v.rule);
      RulesOfContains(visits, v.rule);
    }
    if RulesAllow(a, RulesOf(visits)) {
      var r :| r in RulesOf(visits) && RuleAllows(a, r);
      RulesOfContains(visits, r);
      assert RuleVisit(r) in visits;
    }
  }

  lemma BindingVisitsAllow(p: Policy, user: UserInfo, b: Binding, namespace: string, a: Attributes)
    ensures VisitsAllow(a, BindingVisits(p, user, b, namespace)) <==>
            AppliesTo(user, b.subjects, namespace) && BindingAllows(p, b, namespace, a)
  {
    var visits := BindingVisits(p, user, b, namespace);
    var answer := GetRoleReferenceRules(p, b.roleRef, namespace);
    if AppliesTo(user, b.subjects, namespace) && answer.Ok? {
      var rules := answer.value;
      if RulesAllow(a, rules) {
        var r :| r in rules && RuleAllows(a, r);
        var i :| 0 <= i < |rules| && rules[i] == r;
        assert visits[i] == RuleVisit(r);
      }
    }
  }

  lemma {:induction false} ListVisitsAllow(p: Policy, user: UserInfo, bindings: seq<Binding>, namespace: string,
      a: Attributes)
    ensures VisitsAllow(a, ListVisits(p, user, bindings, namespace)) <==>
        ListGrants(p, user, Ok(bindings), namespace, a)
  {
    if bindings != [] {
      var init, last := bindings[..|bindings| - 1], bindings[|bindings| - 1];
      ListVisitsAllow(p, user, init, namespace, a);
      BindingVisitsAllow(p, user, last, namespace, a);
      assert bindings == init + [last];
      assert forall b :: b in bindings <==> b in init || b == last;
    }
  }

  /** The resolver decides by exactly the bindings that apply and resolve to an allowing rule. */
  lemma UserGrantedIff(p: Policy, user: UserInfo, a: Attributes)
    ensures RulesAllow(a, RulesOf(AllVisits(p, user, a.namespace))) <==> UserGranted(p, user, a)
  {
    VisitsAllowIffRulesAllow(a, AllVisits(p, user, a.namespace));
    if p.listClusterRoleBindings.Ok? {
      ListVisitsAllow(p, user, p.listClusterRoleBindings.value, "", a);
    }
    if |a.namespace| > 0 && p.listRoleBindings(a.namespace).Ok? {
      ListVisitsAllow(p, user, p.listRoleBindings(a.namespace).value, a.namespace, a);
    }
  }

  /** A binding whose reference is to a ClusterRole grants, in any namespace, exactly what the ClusterRole of that
      name does; one whose reference is to a Role, what the Role of that name in its namespace does; any other
      grants nothing. */
  lemma BindingAllowsIff(p: Policy, b: Binding, own: string, a: Attributes)
    ensures b.roleRef.apiGroup == "rbac.authorization.k8s.io" && b.roleRef.kind == "ClusterRole" ==>
        (BindingAllows(p, b, own, a) <==>
          && p.getClusterRole(b.roleRef.name).Ok?
          && exists rule | rule in p.getClusterRole(b.roleRef.name).value.rules :: RuleAllows(a, rule))
    ensures b.roleRef.apiGroup == "rbac.authorization.k8s.io" && b.roleRef.kind == "Role" ==>
        (BindingAllows(p, b, own, a) <==>
          && p.getRole(own, b.roleRef.name).Ok?
          && exists rule | rule in p.getRole(own, b.roleRef.name).value.rules :: RuleAllows(a, rule))
    ensures b.roleRef.apiGroup != "rbac.authorization.k8s.io" || b.roleRef.kind !in {"ClusterRole", "Role"} ==>
        !BindingAllows(p, b, own, a)
    ensures BindingAllows(p, b, own, a) <==> exists rule :: Gives(p, b.roleRef, own, rule) && RuleAllows(a, rule)
  {
    ReferenceResolvesIff(p, b.roleRef, own);
  }

  /** The resolver allows a request iff a listed binding means the user and its role has a rule that does. */
  lemma AllowedIff(p: Policy, user: UserInfo, a: Attributes)
    ensures RulesAllow(a, RulesOf(AllVisits(p, user, a.namespace))) <==>
            exists b, own, s, rule :: Binds(p, a.namespace, b, own) && s in b.subjects && Means(s, own, user) &&
                Gives(p, b.roleRef, own, rule) && RuleAllows(a, rule)
  {
    UserGrantedIff(p, user, a);
    if UserGranted(p, user, a) {
      var b, own := GrantingBinding(p, user, a);
      BindingAllowsIff(p, b, own, a);
      var s :| s in b.subjects && AppliesToUser(user, s, own);
      var rule :| Gives(p, b.roleRef, own, rule) && RuleAllows(a, rule);
      AppliesToUserIff(user, s, own);
    }
    forall b, own, s, rule | Binds(p, a.namespace, b, own) && s in b.subjects && Means(s, own, user) &&
        Gives(p, b.roleRef, own, rule) && RuleAllows(a, rule)
      ensures UserGranted(p, user, a)
    {
      BindingAllowsIff(p, b, own, a);
      AppliesToUserIff(user, s, own);
      assert AppliesTo(user, b.subjects, own);
    }
  }

  lemma GrantingBinding(p: Policy, user: UserInfo, a: Attributes) returns (b: Binding, own: string)
    requires UserGranted(p, user, a)
    ensures Binds(p, a.namespace, b, own) && AppliesTo(user, b.subjects, own) && BindingAllows(p, b, own, a)
  {
    if ListGrants(p, user, p.listClusterRoleBindings, "", a) {
      own := "";
      b :| b in p.listClusterRoleBindings.value && AppliesTo(user, b.subjects, own) && BindingAllows(p, b, own, a);
    } else {
      own := a.namespace;
      b :| b in p.listRoleBindings(own).value && AppliesTo(user, b.subjects, own) && BindingAllows(p, b, own, a);
    }
  }

  // ---- errors ----------------------------------------------------------------------------------

  /** The listing worked and every listed binding's role reference resolves. */
  ghost predicate ListResolves(p: Policy, listed: Result<seq<Binding>, Error>, namespace: string) {
    listed.Ok? && forall b | b in listed.value :: GetRoleReferenceRules(p, b.roleRef, namespace).Ok?
  }

  lemma {:induction false} ResolvedListShowsNoError(p: Policy, user: UserInfo, bindings: seq<Binding>,
      namespace: string)
    requires ListResolves(p, Ok(bindings), namespace)
    ensures forall v | v in ListVisits(p, user, bindings, namespace) :: v.RuleVisit?
  {
    if bindings != [] {
      var init, last := bindings[..|bindings| - 1], bindings[|bindings| - 1];
      assert forall b | b in init :: b in bindings;
      ResolvedListShowsNoError(p, user, init, namespace);
      assert last in bindings;
    }
  }

  lemma {:induction false} ListShowsNoErrorIff(p: Policy, user: UserInfo, bindings: seq<Binding>, own: string)
    ensures (forall v | v in ListVisits(p, user, bindings, own) :: v.RuleVisit?) <==>
            ListResolvesFor(p, user, bindings, own)
  {
    if bindings != [] {
      var init, last := bindings[..|bindings| - 1], bindings[|bindings| - 1];
      ListShowsNoErrorIff(p, user, init, own);
      BindingShowsNoErrorIff(p, user, last, own);
      var visits := ListVisits(p, user, bindings, own);
      assert forall v :: v in visits <==> v in ListVisits(p, user, init, own) || v in BindingVisits(p, user, last, own);
      assert forall b :: b in bindings <==> b in init || b == last;
    }
  }

  lemma BindingShowsNoErrorIff(p: Policy, user: UserInfo, b: Binding, own: string)
    ensures (forall v | v in BindingVisits(p, user, b, own) :: v.RuleVisit?) <==>
            forall s | s in b.subjects && Means(s, own, user) :: Resolvable(p, b.roleRef, own)
  {
    ReferenceResolvesIff(p, b.roleRef, own);
    var visits, answer := BindingVisits(p, user, b, own), GetRoleReferenceRules(p, b.roleRef, own);
    if AppliesTo(user, b.subjects, own) {
      var s :| s in b.subjects && AppliesToUser(user, s, own);
      AppliesToUserIff(user, s, own);
      if answer.Err? {
        assert visits == [ErrorVisit(answer.error)] && visits[0] in visits;
      } else {
        assert visits == RuleVisits(answer.value);
      }
    } else {
      forall s | s in b.subjects ensures !Means(s, own, user) {
        AppliesToUserIff(user, s, own);
      }
      assert visits == [];
    }
  }

  ghost predicate OnlyRules(visits: seq<Visit>) {
    forall v | v in visits :: v.RuleVisit?
  }

  lemma ListedShowsNoErrorIff(p: Policy, user: UserInfo, listed: Result<seq<Binding>, Error>, own: string)
    ensures OnlyRules(ListedVisits(p, user, listed, own)) <==>
            listed.Ok? && ListResolvesFor(p, user, listed.value, own)
  {
    if listed.Ok? {
      ListShowsNoErrorIff(p, user, listed.value, own);
    } else {
      assert ErrorVisit(listed.error) in ListedVisits(p, user, listed, own);
    }
  }

  /** Every binding in the list that means the user refers to a role that can be had. */
  ghost predicate ListResolvesFor(p: Policy, user: UserInfo, bindings: seq<Binding>, own: string) {
    forall b, s | b in bindings && s in b.subjects && Means(s, own, user) :: Resolvable(p, b.roleRef, own)
  }

  /** Every listed binding that means the user does. */
  ghost predicate ResolvesFor(p: Policy, user: UserInfo, namespace: string) {
    forall b, own, s | Binds(p, namespace, b, own) && s in b.subjects && Means(s, own, user) ::
      Resolvable(p, b.roleRef, own)
  }

  lemma ResolvesForIff(p: Policy, user: UserInfo, namespace: string)
    requires Listable(p, namespace)
    ensures ResolvesFor(p, user, namespace) <==>
            && ListResolvesFor(p, user, p.listClusterRoleBindings.value, "")
            && (namespace != "" ==> ListResolvesFor(p, user, p.listRoleBindings(namespace).value, namespace))
  {
    if ResolvesFor(p, user, namespace) {
      assert forall b | b in p.listClusterRoleBindings.value :: Binds(p, namespace, b, "");
      if namespace != "" {
        assert forall b | b in p.listRoleBindings(namespace).value :: Binds(p, namespace, b, namespace);
      }
    }
  }

  /** RulesFor is error-free iff both listings work and every listed binding that means the user resolves. */
  lemma RulesForErrorFreeIff(p: Policy, user: UserInfo, namespace: string)
    ensures ErrorsOf(AllVisits(p, user, namespace)) == [] <==> Listable(p, namespace) && ResolvesFor(p, user, namespace)
  {
    var cluster := ListedVisits(p, user, p.listClusterRoleBindings, "");
    var local := if |namespace| > 0 then ListedVisits(p, user, p.listRoleBindings(namespace), namespace) else [];
    ErrorsOfEmpty(cluster + local);
    assert OnlyRules(cluster + local) <==> OnlyRules(cluster) && OnlyRules(local);
    ListedShowsNoErrorIff(p, user, p.listClusterRoleBindings, "");
    if namespace != "" {
      ListedShowsNoErrorIff(p, user, p.listRoleBindings(namespace), namespace);
    }
    if Listable(p, namespace) {
      ResolvesForIff(p, user, namespace);
    }
  }
}
