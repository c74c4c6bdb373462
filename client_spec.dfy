/** What each client call does against a remote state: the value it returns,
    the requests it sends (in the remote's log) and the resulting store.
    The methods in module Client are proved to compute exactly these. */
module ClientSpec {
  import opened Results
  import opened Types
  import opened Remote
  import Membership
  import Parsers
  import Seqs

  datatype Error =
    | Transport                 // the HTTP client returned an error
    | CreateRejected(code: int) // "created project failed, statuscode=<code>"
    | MissingProjectId          // "created projectID not found"
    | DetailRejected(code: int) // "GetProjectDetail() failed: statusCode=<code>"
    | InvalidMemberType         // "invalid member type"
    | AddRejected(code: int)    // "add project member failed, code=<code>"
    | DeleteRejected(code: int) // "delete failed, response=<code>"

  // Reading a JSON path that is absent gives the empty value.

  function FieldsOf(body: Body): Fields {
    if body.ProjectBody? then body.fields else NoFields
  }

  function ItemsOf(body: Body): seq<Binding> {
    if body.BindingsBody? then body.items else []
  }

  function EntitiesOf(body: Body): seq<Entity> {
    if body.EntitiesBody? then body.entities else []
  }

  function CreatedIdOf(body: Body): string {
    if body.CreatedBody? then body.id else ""
  }

  /** The project fields that CreateProject and UpdateProject send. */
  function FieldsOfProject(p: Project): Fields {
    Fields(p.name, p.description, p.podSecurityPolicyId, p.resourceQuotas)
  }

  /** The classifier of GetProjectMembers: a binding with a user principal is a
      User member, any other binding a Group member. */
  function MemberOf(b: Binding): Member {
    if b.userPrincipalId != "" then Member(b.id, MemberTypeUser, b.userPrincipalId, b.roleTemplateId)
    else Member(b.id, MemberTypeGroup, b.groupPrincipalId, b.roleTemplateId)
  }

  /** The members decoded from a list of bindings, one per binding, in order. */
  function MembersOf(items: seq<Binding>): (ms: seq<Member>)
    ensures |ms| == |items|
  {
    if items == [] then [] else MembersOf(items[..|items| - 1]) + [MemberOf(items[|items| - 1])]
  }

  /** The request body AddProjectMember builds; None for a type other than User or Group. */
  function PayloadOf(projectId: string, m: Member): Option<BindingPayload> {
    if m.memberType == MemberTypeUser then
      Some(BindingPayload(m.memberType, projectId, m.principalId, "", m.roleTemplateId))
    else if m.memberType == MemberTypeGroup then
      Some(BindingPayload(m.memberType, projectId, "", m.principalId, m.roleTemplateId))
    else None
  }

  function GetProjectQuotas(st: RemoteState, net: Network, projectId: string): (r: Run<Result<ProjectQuotas, Error>>)
    ensures st.log <= r.st.log
  {
    var x := Exchange(st, net, GetProject(projectId));
    if x.value.TransportError? then Run(Err(Transport), x.st)
    else Run(Ok(FieldsOf(x.value.body).quotas), x.st)
  }

  function GetProjectMembers(st: RemoteState, net: Network, projectId: string): (r: Run<Result<seq<Member>, Error>>)
    ensures st.log <= r.st.log
  {
    var x := Exchange(st, net, GetBindings(projectId));
    if x.value.TransportError? then Run(Err(Transport), x.st)
    else Run(Ok(MembersOf(ItemsOf(x.value.body))), x.st)
  }

  function GetProjectDetail(st: RemoteState, net: Network, projectId: string): (r: Run<Result<Project, Error>>)
    ensures st.log <= r.st.log
  {
    var q := GetProjectQuotas(st, net, projectId);
    if q.value.Err? then Run(Err(q.value.error), q.st)
    else
      var ms := GetProjectMembers(q.st, net, projectId);
      if ms.value.Err? then Run(Err(ms.value.error), ms.st)
      else
        var x := Exchange(ms.st, net, GetProject(projectId));
        if x.value.TransportError? then Run(Err(Transport), x.st)
        else if x.value.code != StatusOK then Run(Err(DetailRejected(x.value.code)), x.st)
        else
          var f := FieldsOf(x.value.body);
          Run(Ok(Project(projectId, f.name, f.description, f.podSecurityPolicyId, ms.value.value, q.value.value)), x.st)
  }

  function GetProjects(st: RemoteState, net: Network, clusterId: string): (r: Run<Result<seq<Entity>, Error>>)
    ensures st.log <= r.st.log
  {
    var x := Exchange(st, net, ListProjects(clusterId));
    if x.value.TransportError? then Run(Err(Transport), x.st)
    else Run(Ok(Seqs.Filter(EntitiesOf(x.value.body), Parsers.Named)), x.st)
  }

  /** Group principal ids on which parseGroupFromPrincipalID does not slice out of range. */
  predicate GroupIdsInRange(ids: seq<string>) {
    forall i :: 0 <= i < |ids| ==> Parsers.SliceInRange(ids[i])
  }

  /** The group principal id of every binding, in order. */
  function GroupPrincipalIds(items: seq<Binding>): (ids: seq<string>)
    ensures |ids| == |items|
    ensures forall i :: 0 <= i < |items| ==> ids[i] == items[i].groupPrincipalId
  {
    seq(|items|, i requires 0 <= i < |items| => items[i].groupPrincipalId)
  }

  /** The name a group principal id contributes to GetProjectGroups, if any. */
  function GroupNameOf(id: string): Option<string>
    requires Parsers.SliceInRange(id)
  {
    if id == "" then None
    else
      match Parsers.ParseGroupFromPrincipalId(id)
      case Ok(g) => if g != "" then Some(g) else None
      case Err(_) => None
  }

  /** The group names GetProjectGroups keeps, in the order of their principal ids. */
  function GroupNames(ids: seq<string>): seq<string>
    requires GroupIdsInRange(ids)
  {
    Seqs.FilterMap(ids, GroupNameOf)
  }

  /** Every stored binding has a group principal id that parses without slicing out of range. */
  predicate StoreGroupIdsInRange(st: RemoteState) {
    forall b :: b in st.bindings ==> Parsers.SliceInRange(b.groupPrincipalId)
  }

  /** A bindings list read from such a store has only such group principal ids. */
  lemma BindingsBodyInRange(st: RemoteState, net: Network, projectId: string)
    requires StoreGroupIdsInRange(st)
    ensures var x := Exchange(st, net, GetBindings(projectId));
      x.value.Reply? ==> GroupIdsInRange(GroupPrincipalIds(ItemsOf(x.value.body)))
  {
    var x := Exchange(st, net, GetBindings(projectId));
    if x.value.Reply? {
      var items := ItemsOf(x.value.body);
      assert forall b :: b in items ==> b in st.bindings;
      forall i | 0 <= i < |items| ensures Parsers.SliceInRange(items[i].groupPrincipalId) {
        assert items[i] in items;
      }
    }
  }

  function GetProjectGroups(st: RemoteState, net: Network, projectId: string): (r: Run<Result<seq<string>, Error>>)
    requires StoreGroupIdsInRange(st)
    ensures st.log <= r.st.log
  {
    var x := Exchange(st, net, GetBindings(projectId));
    if x.value.TransportError? then Run(Err(Transport), x.st)
    else
      BindingsBodyInRange(st, net, projectId);
      Run(Ok(GroupNames(GroupPrincipalIds(ItemsOf(x.value.body)))), x.st)
  }

  function AddProjectMember(st: RemoteState, net: Network, projectId: string, m: Member): (r: Run<Option<Error>>)
    ensures st.log <= r.st.log
  {
    var payload := PayloadOf(projectId, m);
    if payload.None? then Run(Some(InvalidMemberType), st)
    else
      var x := Exchange(st, net, CreateBinding(payload.value));
      if x.value.TransportError? then Run(Some(Transport), x.st)
      else if x.value.code != StatusCreated then Run(Some(AddRejected(x.value.code)), x.st)
      else Run(None, x.st)
  }

  function DeleteProjectMember(st: RemoteState, net: Network, bindingId: string): (r: Run<Option<Error>>)
    ensures st.log <= r.st.log
  {
    var x := Exchange(st, net, DeleteBinding(bindingId));
    if x.value.TransportError? then Run(Some(Transport), x.st)
    else if x.value.code != StatusOK then Run(Some(DeleteRejected(x.value.code)), x.st)
    else Run(None, x.st)
  }

  function SetProjectPsp(st: RemoteState, net: Network, projectId: string, psp: string): (r: Run<Option<Error>>)
    ensures st.log <= r.st.log
  {
    var x := Exchange(st, net, SetPsp(projectId, psp));
    if x.value.TransportError? then Run(Some(Transport), x.st) else Run(None, x.st)
  }

  /** AddProjectMember for each member in turn; the errors are only logged. */
  function AddAll(st: RemoteState, net: Network, projectId: string, ms: seq<Member>): (r: RemoteState)
    ensures st.log <= r.log
  {
    if ms == [] then st
    else AddProjectMember(AddAll(st, net, projectId, ms[..|ms| - 1]), net, projectId, ms[|ms| - 1]).st
  }

  /** DeleteProjectMember, by binding id, for each member in turn; the errors are only logged. */
  function DeleteAll(st: RemoteState, net: Network, ms: seq<Member>): (r: RemoteState)
    ensures st.log <= r.log
  {
    if ms == [] then st
    else DeleteProjectMember(DeleteAll(st, net, ms[..|ms| - 1]), net, ms[|ms| - 1].id).st
  }

  /** CreateProject's two results: the new project id and the error. */
  datatype Created = Created(projectId: string, error: Option<Error>)

  function CreateProject(st: RemoteState, net: Network, clusterId: string, p: Project): (r: Run<Created>)
    ensures st.log <= r.st.log
  {
    var x := Exchange(st, net, PostProject(clusterId, FieldsOfProject(p)));
    if x.value.TransportError? then Run(Created("", Some(Transport)), x.st)
    else if x.value.code != StatusCreated then Run(Created("", Some(CreateRejected(x.value.code))), x.st)
    else
      var id := CreatedIdOf(x.value.body);
      if id == "" then Run(Created("", Some(MissingProjectId)), x.st)
      else
        var bound := AddAll(x.st, net, id, p.members);
        var psp := SetProjectPsp(bound, net, id, p.podSecurityPolicyId);
        Run(Created(id, psp.value), psp.st)
  }

  function UpdateProject(st: RemoteState, net: Network, clusterId: string, projectId: string, p: Project): (r: Run<Option<Error>>)
    ensures st.log <= r.st.log
  {
    var detail := GetProjectDetail(st, net, projectId);
    if detail.value.Err? then Run(Some(detail.value.error), detail.st)
    else
      var put := Exchange(detail.st, net, ReplaceProject(projectId, clusterId, FieldsOfProject(p)));
      if put.value.TransportError? then Run(Some(Transport), put.st)
      else
        var fetched := detail.value.value;
        var psp :=
          if fetched.podSecurityPolicyId != p.podSecurityPolicyId
          then SetProjectPsp(put.st, net, projectId, p.podSecurityPolicyId)
          else Run(None, put.st);
        if psp.value.Some? then psp
        else
          var added := AddAll(psp.st, net, projectId, Membership.Missing(p.members, fetched.members));
          Run(None, DeleteAll(added, net, Membership.Missing(fetched.members, p.members)))
  }
}
