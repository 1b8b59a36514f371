/** The rbac/v1 entities the evaluator reads, and the interfaces it reads them through. */
module RbacTypes {
  import opened Common

  const GROUP_NAME: string := "rbac.authorization.k8s.io"
  const ALL: string := "*"
  const USER_KIND: string := "User"
  const GROUP_KIND: string := "Group"
  const SERVICE_ACCOUNT_KIND: string := "ServiceAccount"
  const SYSTEM_PRIVILEGED_GROUP: string := "system:masters"

  datatype ObjectMeta = ObjectMeta(namespace: string, name: string, uid: string, resourceVersion: string)

  datatype PolicyRule = PolicyRule(
    verbs: seq<string>,
    apiGroups: seq<string>,
    resources: seq<string>,
    resourceNames: seq<string>,
    nonResourceURLs: seq<string>)

  datatype Subject = Subject(kind: string, apiGroup: string, name: string, namespace: string)

  datatype RoleRef = RoleRef(apiGroup: string, kind: string, name: string)

  /** A Role or, with an empty namespace, a ClusterRole. */
  datatype Role = Role(meta: ObjectMeta, rules: seq<PolicyRule>)

  /** A RoleBinding or, with an empty namespace, a ClusterRoleBinding. */
  datatype Binding = Binding(meta: ObjectMeta, subjects: seq<Subject>, roleRef: RoleRef)

  datatype UserInfo = UserInfo(name: string, groups: seq<string>)

  /** authorizer.Attributes */
  datatype Attributes = Attributes(
    verb: string,
    namespace: string,
    apiGroup: string,
    resource: string,
    subresource: string,
    name: string,
    resourceRequest: bool,
    path: string)

  /** The four getters and listers of the resolver, over one fixed state of the informers.
      Every one of them may fail, independently of the others. */
  datatype Policy = Policy(
    getRole: (string, string) -> Result<Role, Error>,
    listRoleBindings: string -> Result<seq<Binding>, Error>,
    getClusterRole: string -> Result<Role, Error>,
    listClusterRoleBindings: Result<seq<Binding>, Error>)

  /** serviceaccount.MakeUsername */
  function MakeUsername(namespace: string, name: string): string {
    "system:serviceaccount:" + namespace + ":" + name
  }
}
