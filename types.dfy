/** The records a configuration file declares and the remote API returns:
    quotas, project members, projects and brief entities (id and name). */
module Types {

  /** A quota map from resource name to limit; values are kept verbatim
      (e.g. "2500m", "4096Mi") and never read as numbers. */
  type Quotas = map<string, string>

  /** Quotas for the whole project and the default for each of its namespaces. */
  datatype ProjectQuotas = ProjectQuotas(project: Quotas, namespace: Quotas)

  const MemberTypeUser: string := "User"
  const MemberTypeGroup: string := "Group"

  /** A role binding of a principal in a project. `id` is assigned by the
      remote API and is empty for a binding that only exists in a config file. */
  datatype Member = Member(id: string, memberType: string, principalId: string, roleTemplateId: string)

  datatype Project = Project(
    id: string,
    name: string,
    description: string,
    podSecurityPolicyId: string,
    members: seq<Member>,
    resourceQuotas: ProjectQuotas)

  datatype ProjectList = ProjectList(projects: seq<Project>)

  /** Brief information about a remote cluster or project. */
  datatype Entity = Entity(id: string, name: string)

  /** The identity of a binding: everything but the remote-assigned id. */
  datatype Key = Key(memberType: string, principalId: string, roleTemplateId: string)

  function KeyOf(m: Member): Key {
    Key(m.memberType, m.principalId, m.roleTemplateId)
  }

  /** Member.Compare: equality that ignores the remote-assigned id. */
  predicate Compare(m: Member, p: Member)
    ensures Compare(m, p) <==> KeyOf(m) == KeyOf(p)
  {
    m.memberType == p.memberType && m.principalId == p.principalId && m.roleTemplateId == p.roleTemplateId
  }

  /** Two members that differ only in their id compare equal. */
  lemma CompareIgnoresId(m: Member, id: string)
    ensures Compare(m, m.(id := id)) && Compare(m.(id := id), m)
  {
  }

  /** Compare is an equivalence relation. */
  lemma CompareIsEquivalence(a: Member, b: Member, c: Member)
    ensures Compare(a, a)
    ensures Compare(a, b) ==> Compare(b, a)
    ensures Compare(a, b) && Compare(b, c) ==> Compare(a, c)
  {
  }

  /** The same principal bound with two different roles gives two distinct bindings. */
  lemma DistinctRolesAreDistinctBindings(m: Member, role: string)
    requires role != m.roleTemplateId
    ensures !Compare(m, m.(roleTemplateId := role))
  {
  }
}
