/** What RBAC grants, said of the policy's own objects and apart from how any evaluator finds it out. */
module PlainRbac {
  import opened Common
  import opened RbacTypes

  /** `b` is listed and speaks for requests in `namespace`: as a cluster binding, in no namespace of its own, or
      as a binding of that namespace. */
  ghost predicate Binds(p: Policy, namespace: string, b: Binding, own: string) {
    || (own == "" && p.listClusterRoleBindings.Ok? && b in p.listClusterRoleBindings.value)
    || (own == namespace && namespace != "" && p.listRoleBindings(namespace).Ok? &&
        b in p.listRoleBindings(namespace).value)
  }

  /** Both listings that such requests need can be had. */
  predicate Listable(p: Policy, namespace: string) {
    p.listClusterRoleBindings.Ok? && (namespace == "" || p.listRoleBindings(namespace).Ok?)
  }

  /** Someone of this name and in these groups is whom the subject of a binding in `own` means. */
  predicate Means(s: Subject, own: string, user: UserInfo) {
    || (s.kind == "User" && s.name == user.name)
    || (s.kind == "Group" && s.name in user.groups)
    || (s.kind == "ServiceAccount" && s.namespace != "" &&
        user.name == "system:serviceaccount:" + s.namespace + ":" + s.name)
    || (s.kind == "ServiceAccount" && s.namespace == "" && own != "" &&
        user.name == "system:serviceaccount:" + own + ":" + s.name)
  }

  /** The reference, in a binding of `own`, is to a role that can be had. */
  predicate Resolvable(p: Policy, ref: RoleRef, own: string) {
    && ref.apiGroup == "rbac.authorization.k8s.io"
    && ((ref.kind == "Role" && p.getRole(own, ref.name).Ok?) ||
        (ref.kind == "ClusterRole" && p.getClusterRole(ref.name).Ok?))
  }

  /** ... and this is one of its rules. */
  predicate Gives(p: Policy, ref: RoleRef, own: string, rule: PolicyRule) {
    && ref.apiGroup == "rbac.authorization.k8s.io"
    && ((ref.kind == "Role" && p.getRole(own, ref.name).Ok? && rule in p.getRole(own, ref.name).value.rules) ||
        (ref.kind == "ClusterRole" && p.getClusterRole(ref.name).Ok? && rule in
            p.getClusterRole(ref.name).value.rules))
  }

  /** The rule lets one get the namespace called `name`. */
  predicate LetsGet(rule: PolicyRule, name: string) {
    && ("get" in rule.verbs || "*" in rule.verbs)
    && ("" in rule.apiGroups || "*" in rule.apiGroups)
    && ("namespaces" in rule.resources || "*" in rule.resources)
    && (rule.resourceNames == [] || name in rule.resourceNames)
  }

  /** A listed binding names the subject, and its role has a rule that lets one get the namespace. */
  ghost predicate SubjectMayGet(p: Policy, name: string, s: Subject) {
    exists b, own, rule :: Binds(p, name, b, own) && s in b.subjects && Gives(p, b.roleRef, own, rule) &&
        LetsGet(rule, name)
  }

  /** A listed binding means the user, and its role has a rule that lets one get the namespace. */
  ghost predicate UserMayGet(p: Policy, name: string, user: UserInfo) {
    exists b, own, s, rule :: Binds(p, name, b, own) && s in b.subjects && Means(s, own, user) &&
        Gives(p, b.roleRef, own, rule) && LetsGet(rule, name)
  }

  /** Whom nobody asks RBAC about: members of the privileged group, and the superuser if there is one. */
  predicate Exempt(superUser: string, user: UserInfo) {
    "system:masters" in user.groups || (superUser != "" && user.name == superUser)
  }
}
