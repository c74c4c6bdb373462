/** The Rancher client (defaultClient): each call sends its requests to the
    remote one at a time and is proved to return, send and change exactly
    what ClientSpec says. */
module Client {
  import opened Results
  import opened Types
  import opened Remote
  import S = ClientSpec
  import Membership
  import Parsers

  /** GET /v3/projects/<id>; the status code is not checked. */
  method GetProjectQuotas(api: Rancher, projectId: string) returns (r: Result<ProjectQuotas, S.Error>)
    modifies api
    ensures Run(r, api.State()) == S.GetProjectQuotas(old(api.State()), api.net, projectId)
  {
    var resp := api.Send(GetProject(projectId));
    if resp.TransportError? {
      return Err(S.Transport);
    }
    return Ok(S.FieldsOf(resp.body).quotas);
  }

  /** GET the project's bindings and classify each one; the status code is not checked. */
  method GetProjectMembers(api: Rancher, projectId: string) returns (r: Result<seq<Member>, S.Error>)
    modifies api
    ensures Run(r, api.State()) == S.GetProjectMembers(old(api.State()), api.net, projectId)
  {
    var resp := api.Send(GetBindings(projectId));
    if resp.TransportError? {
      return Err(S.Transport);
    }
    var items := S.ItemsOf(resp.body);
    var members: seq<Member> := [];
    for i := 0 to |items|
      invariant members == S.MembersOf(items[..i])
    {
      var item := items[i];
      var m := Member(item.id, "", "", item.roleTemplateId);
      if item.userPrincipalId != "" {
        m := m.(memberType := MemberTypeUser, principalId := item.userPrincipalId);
      } else {
        m := m.(memberType := MemberTypeGroup, principalId := item.groupPrincipalId);
      }
      members := members + [m];
      assert items[..i + 1][..i] == items[..i];
    }
    assert items[..|items|] == items;
    return Ok(members);
  }

  /** Quotas, then members, then the project's own fields, which need status 200. */
  method GetProjectDetail(api: Rancher, projectId: string) returns (r: Result<Project, S.Error>)
    modifies api
    ensures Run(r, api.State()) == S.GetProjectDetail(old(api.State()), api.net, projectId)
  {
    var rq := GetProjectQuotas(api, projectId);
    if rq.Err? {
      return Err(rq.error);
    }
    var members := GetProjectMembers(api, projectId);
    if members.Err? {
      return Err(members.error);
    }
    var resp := api.Send(GetProject(projectId));
    if resp.TransportError? {
      return Err(S.Transport);
    }
    if resp.code != StatusOK {
      return Err(S.DetailRejected(resp.code));
    }
    var f := S.FieldsOf(resp.body);
    return Ok(Project(projectId, f.name, f.description, f.podSecurityPolicyId, members.value, rq.value));
  }

  /** The cluster's projects that have both a name and an id. */
  method GetProjects(api: Rancher, clusterId: string) returns (r: Result<seq<Entity>, S.Error>)
    modifies api
    ensures Run(r, api.State()) == S.GetProjects(old(api.State()), api.net, clusterId)
  {
    var resp := api.Send(ListProjects(clusterId));
    if resp.TransportError? {
      return Err(S.Transport);
    }
    var projects := Parsers.ParseEntities(S.EntitiesOf(resp.body));
    return Ok(projects);
  }

  /** The LDAP group names bound to the project: empty principal ids are skipped,
      ids that fail to parse are logged and skipped, empty names are dropped. */
  method GetProjectGroups(api: Rancher, projectId: string) returns (r: Result<seq<string>, S.Error>)
    requires S.StoreGroupIdsInRange(api.State())
    modifies api
    ensures Run(r, api.State()) == S.GetProjectGroups(old(api.State()), api.net, projectId)
  {
    var resp := api.Send(GetBindings(projectId));
    if resp.TransportError? {
      return Err(S.Transport);
    }
    S.BindingsBodyInRange(old(api.State()), api.net, projectId);
    var ids := S.GroupPrincipalIds(S.ItemsOf(resp.body));
    var groups: seq<string> := [];
    for i := 0 to |ids|
      invariant S.GroupIdsInRange(ids[..i])
      invariant groups == S.GroupNames(ids[..i])
    {
      var id := ids[i];
      assert ids[..i + 1][..i] == ids[..i];
      assert ids[..i + 1][i] == id;
      if id != "" {
        var g := Parsers.ParseGroupFromPrincipalId(id);
        if g.Ok? && g.value != "" {
          groups := groups + [g.value];
        }
      }
    }
    assert ids[..|ids|] == ids;
    return Ok(groups);
  }

  /** POST a binding of the member's principal; a type other than User or Group is
      refused before anything is sent, and only status 201 counts as success. */
  method AddProjectMember(api: Rancher, projectId: string, member: Member) returns (err: Option<S.Error>)
    modifies api
    ensures Run(err, api.State()) == S.AddProjectMember(old(api.State()), api.net, projectId, member)
  {
    var payload := BindingPayload(member.memberType, projectId, "", "", member.roleTemplateId);
    if member.memberType == MemberTypeUser {
      payload := payload.(userPrincipalId := member.principalId);
    } else if member.memberType == MemberTypeGroup {
      payload := payload.(groupPrincipalId := member.principalId);
    } else {
      return Some(S.InvalidMemberType);
    }
    var resp := api.Send(CreateBinding(payload));
    if resp.TransportError? {
      return Some(S.Transport);
    }
    if resp.code != StatusCreated {
      return Some(S.AddRejected(resp.code));
    }
    return None;
  }

  /** POST the setpodsecuritypolicytemplate action; the status code is not checked. */
  method SetProjectPsp(api: Rancher, projectId: string, psp: string) returns (err: Option<S.Error>)
    modifies api
    ensures Run(err, api.State()) == S.SetProjectPsp(old(api.State()), api.net, projectId, psp)
  {
    var resp := api.Send(SetPsp(projectId, psp));
    if resp.TransportError? {
      return Some(S.Transport);
    }
    return None;
  }

  /** DELETE a binding by its id; only status 200 counts as success. */
  method DeleteProjectMember(api: Rancher, bindingId: string) returns (err: Option<S.Error>)
    modifies api
    ensures Run(err, api.State()) == S.DeleteProjectMember(old(api.State()), api.net, bindingId)
  {
    var resp := api.Send(DeleteBinding(bindingId));
    if resp.TransportError? {
      return Some(S.Transport);
    }
    if resp.code != StatusOK {
      return Some(S.DeleteRejected(resp.code));
    }
    return None;
  }

  /** AddProjectMember for each member in turn; a failure is logged and the loop goes on. */
  method AddMembers(api: Rancher, projectId: string, members: seq<Member>)
    modifies api
    ensures api.State() == S.AddAll(old(api.State()), api.net, projectId, members)
  {
    for i := 0 to |members|
      invariant api.State() == S.AddAll(old(api.State()), api.net, projectId, members[..i])
    {
      var addErr := AddProjectMember(api, projectId, members[i]);
      assert members[..i + 1][..i] == members[..i];
    }
    assert members[..|members|] == members;
  }

  /** DeleteProjectMember, by the fetched binding id, for each member in turn; a failure
      is logged and the loop goes on. */
  method DeleteMembers(api: Rancher, members: seq<Member>)
    modifies api
    ensures api.State() == S.DeleteAll(old(api.State()), api.net, members)
  {
    for i := 0 to |members|
      invariant api.State() == S.DeleteAll(old(api.State()), api.net, members[..i])
    {
      var deleteErr := DeleteProjectMember(api, members[i].id);
      assert members[..i + 1][..i] == members[..i];
    }
    assert members[..|members|] == members;
  }

  /** Create the project (status 201 and a non-empty id required), bind every member
      best-effort, then set the pod security policy, whose error is the result. */
  method CreateProject(api: Rancher, clusterId: string, project: Project) returns (projectId: string, err: Option<S.Error>)
    modifies api
    ensures Run(S.Created(projectId, err), api.State()) == S.CreateProject(old(api.State()), api.net, clusterId, project)
  {
    var resp := api.Send(PostProject(clusterId, S.FieldsOfProject(project)));
    if resp.TransportError? {
      return "", Some(S.Transport);
    }
    if resp.code != StatusCreated {
      return "", Some(S.CreateRejected(resp.code));
    }
    projectId := S.CreatedIdOf(resp.body);
    if projectId == "" {
      return "", Some(S.MissingProjectId);
    }
    AddMembers(api, projectId, project.members);
    err := SetProjectPsp(api, projectId, project.podSecurityPolicyId);
  }

  /** Fetch the current project, replace its fields, set the pod security policy if it
      changed, then add the new bindings and delete the stale ones, best-effort. */
  method UpdateProject(api: Rancher, clusterId: string, projectId: string, project: Project) returns (err: Option<S.Error>)
    modifies api
    ensures Run(err, api.State()) == S.UpdateProject(old(api.State()), api.net, clusterId, projectId, project)
  {
    var oldPrj := GetProjectDetail(api, projectId);
    if oldPrj.Err? {
      return Some(oldPrj.error);
    }
    var resp := api.Send(ReplaceProject(projectId, clusterId, S.FieldsOfProject(project)));
    if resp.TransportError? {
      return Some(S.Transport);
    }
    if oldPrj.value.podSecurityPolicyId != project.podSecurityPolicyId {
      var pspErr := SetProjectPsp(api, projectId, project.podSecurityPolicyId);
      if pspErr.Some? {
        return pspErr;
      }
    }
    var newMembers, deletedMembers := Membership.DiffMembers(project.members, oldPrj.value.members);
    AddMembers(api, projectId, newMembers);
    DeleteMembers(api, deletedMembers);
    return None;
  }
}
