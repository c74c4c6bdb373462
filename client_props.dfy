/** Properties of the client calls: which requests each one sends, which
    failures are fatal and which are only logged, and how members survive
    the round trip through the remote's bindings. */
module ClientProps {
  import opened Results
  import opened Types
  import opened Remote
  import opened ClientSpec
  import Membership
  import Parsers
  import Seqs

  // ---------------------------------------------------------------------
  // Members and bindings

  /** AddProjectMember's payload: only User and Group are accepted; a User fills
      userPrincipalId only and a Group fills groupPrincipalId only. */
  lemma PayloadFields(projectId: string, m: Member)
    ensures PayloadOf(projectId, m).Some? <==> m.memberType == MemberTypeUser || m.memberType == MemberTypeGroup
    ensures m.memberType == MemberTypeUser ==>
      PayloadOf(projectId, m) == Some(BindingPayload(MemberTypeUser, projectId, m.principalId, "", m.roleTemplateId))
    ensures m.memberType == MemberTypeGroup ==>
      PayloadOf(projectId, m) == Some(BindingPayload(MemberTypeGroup, projectId, "", m.principalId, m.roleTemplateId))
  {
  }

  /** The binding the remote stores for a member reads back, through the classifier of
      GetProjectMembers, as the same member exactly when the member is not a User
      with an empty principal (such a binding reads back as a Group). */
  lemma StoredBindingReadsBack(projectId: string, m: Member, id: string)
    requires PayloadOf(projectId, m).Some?
    ensures var p := PayloadOf(projectId, m).value;
      var b := Binding(id, p.projectId, p.userPrincipalId, p.groupPrincipalId, p.roleTemplateId);
      MemberOf(b).id == id && b.projectId == projectId &&
      (Compare(MemberOf(b), m) <==> !(m.memberType == MemberTypeUser && m.principalId == ""))
  {
    var p := PayloadOf(projectId, m).value;
    var b := Binding(id, p.projectId, p.userPrincipalId, p.groupPrincipalId, p.roleTemplateId);
    if m.memberType == MemberTypeUser && m.principalId == "" {
      assert MemberOf(b).memberType == MemberTypeGroup;
      assert MemberTypeGroup != MemberTypeUser;
    }
  }

  /** GetProjectMembers yields one member per binding, in the bindings' order. */
  lemma {:induction false} MembersOfIndex(items: seq<Binding>, i: nat)
    requires i < |items|
    ensures MembersOf(items)[i] == MemberOf(items[i])
  {
    if i < |items| - 1 {
      MembersOfIndex(items[..|items| - 1], i);
    }
  }

  /** The classifier: a non-empty user principal makes a User, anything else a Group;
      the binding's id and role are kept. */
  lemma ClassifierRule(b: Binding)
    ensures MemberOf(b).id == b.id && MemberOf(b).roleTemplateId == b.roleTemplateId
    ensures MemberOf(b).memberType == MemberTypeUser <==> b.userPrincipalId != ""
    ensures MemberOf(b).principalId == if b.userPrincipalId != "" then b.userPrincipalId else b.groupPrincipalId
  {
  }

  // ---------------------------------------------------------------------
  // Single calls

  /** A member of any other type is refused without sending anything. */
  lemma InvalidMemberSendsNothing(st: RemoteState, net: Network, projectId: string, m: Member)
    requires m.memberType != MemberTypeUser && m.memberType != MemberTypeGroup
    ensures AddProjectMember(st, net, projectId, m) == Run(Some(InvalidMemberType), st)
  {
  }

  /** AddProjectMember succeeds exactly when its POST is answered with 201, and a success
      stores a binding that reads back as the member (unless it is a User without principal). */
  lemma AddMemberOutcome(st: RemoteState, net: Network, projectId: string, m: Member)
    requires PayloadOf(projectId, m).Some?
    ensures var req := CreateBinding(PayloadOf(projectId, m).value);
      var a := net(|st.log|, req);
      var r := AddProjectMember(st, net, projectId, m);
      r.st.log == st.log + [req] &&
      (r.value.None? <==> a.Answered? && a.code == StatusCreated) &&
      (r.value.None? ==>
        (exists b :: b in r.st.bindings && b.id == a.assignedId && b.projectId == projectId &&
          (Compare(MemberOf(b), m) <==> !(m.memberType == MemberTypeUser && m.principalId == ""))))
  {
    var p := PayloadOf(projectId, m).value;
    var a := net(|st.log|, CreateBinding(p));
    var r := AddProjectMember(st, net, projectId, m);
    if r.value.None? {
      var b := Binding(a.assignedId, p.projectId, p.userPrincipalId, p.groupPrincipalId, p.roleTemplateId);
      StoredBindingReadsBack(projectId, m, a.assignedId);
      assert r.st.bindings == st.bindings + [b];
      assert b in r.st.bindings;
    }
  }

  /** DeleteProjectMember succeeds exactly when its DELETE is answered with 200, and then
      no binding with that id is left. */
  lemma DeleteMemberOutcome(st: RemoteState, net: Network, bindingId: string)
    ensures var a := net(|st.log|, DeleteBinding(bindingId));
      var r := DeleteProjectMember(st, net, bindingId);
      r.st.log == st.log + [DeleteBinding(bindingId)] &&
      (r.value.None? <==> a.Answered? && a.code == StatusOK) &&
      (r.value.None? ==> forall b :: b in r.st.bindings ==> b.id != bindingId)
  {
  }

  /** SetProjectPSP checks no status: it fails only when its request is not answered. */
  lemma SetPspOutcome(st: RemoteState, net: Network, projectId: string, psp: string)
    ensures var r := SetProjectPsp(st, net, projectId, psp);
      r.st.log == st.log + [SetPsp(projectId, psp)] &&
      (r.value.None? <==> net(|st.log|, SetPsp(projectId, psp)).Answered?) &&
      (r.value.Some? ==> r.value == Some(Transport))
  {
  }

  /** The requests GetProjectDetail sends when nothing fails. */
  function DetailRequests(projectId: string): seq<Request> {
    [GetProject(projectId), GetBindings(projectId), GetProject(projectId)]
  }

  /** GetProjectDetail only reads: it sends a prefix of its three GETs, and all three when it succeeds. */
  lemma DetailReadsOnly(st: RemoteState, net: Network, projectId: string)
    ensures var d := GetProjectDetail(st, net, projectId);
      d.st.projects == st.projects && d.st.bindings == st.bindings &&
      d.st.log[|st.log|..] <= DetailRequests(projectId) &&
      (d.value.Ok? ==> d.st.log == st.log + DetailRequests(projectId))
  {
    var rs := DetailRequests(projectId);
    var d := GetProjectDetail(st, net, projectId);
    var q := GetProjectQuotas(st, net, projectId);
    if q.value.Ok? {
      var ms := GetProjectMembers(q.st, net, projectId);
      if ms.value.Ok? {
        assert d.st.log == st.log + rs;
      } else {
        assert d.st.log == st.log + rs[..2];
      }
    } else {
      assert d.st.log == st.log + rs[..1];
    }
  }

  /** GetProjectDetail succeeds exactly when its three GETs are answered and the last with 200. */
  lemma DetailOkIff(st: RemoteState, net: Network, projectId: string)
    ensures var n := |st.log|;
      GetProjectDetail(st, net, projectId).value.Ok? <==>
        net(n, GetProject(projectId)).Answered? &&
        net(n + 1, GetBindings(projectId)).Answered? &&
        net(n + 2, GetProject(projectId)) .Answered? && net(n + 2, GetProject(projectId)).code == StatusOK
  {
  }

  /** When the three GETs are answered with 200 and the project is stored, GetProjectDetail
      returns the stored fields and the members decoded from the project's bindings. */
  lemma DetailReflectsStore(st: RemoteState, net: Network, projectId: string)
    requires Find(st.projects, projectId).Some?
    requires var n := |st.log|;
      net(n, GetProject(projectId)).Answered? && net(n, GetProject(projectId)).code == StatusOK &&
      net(n + 1, GetBindings(projectId)).Answered? && net(n + 1, GetBindings(projectId)).code == StatusOK &&
      net(n + 2, GetProject(projectId)).Answered? && net(n + 2, GetProject(projectId)).code == StatusOK
    ensures var f := Find(st.projects, projectId).value.fields;
      GetProjectDetail(st, net, projectId).value ==
        Ok(Project(projectId, f.name, f.description, f.podSecurityPolicyId,
                   MembersOf(Seqs.Filter(st.bindings, b => InProject(projectId, b))), f.quotas))
  {
  }

  // ---------------------------------------------------------------------
  // The member loops

  /** The request AddProjectMember sends for one member: none for an invalid type. */
  function AddRequest(projectId: string, m: Member): seq<Request> {
    if PayloadOf(projectId, m).Some? then [CreateBinding(PayloadOf(projectId, m).value)] else []
  }

  function AddRequests(projectId: string, ms: seq<Member>): seq<Request> {
    if ms == [] then [] else AddRequests(projectId, ms[..|ms| - 1]) + AddRequest(projectId, ms[|ms| - 1])
  }

  /** One DELETE per member, by the member's (fetched) binding id, in order. */
  function DeleteRequests(ms: seq<Member>): (rs: seq<Request>)
    ensures |rs| == |ms|
  {
    if ms == [] then [] else DeleteRequests(ms[..|ms| - 1]) + [DeleteBinding(ms[|ms| - 1].id)]
  }

  lemma {:induction false} DeleteRequestsIndex(ms: seq<Member>, i: nat)
    requires i < |ms|
    ensures DeleteRequests(ms)[i] == DeleteBinding(ms[i].id)
  {
    if i < |ms| - 1 {
      DeleteRequestsIndex(ms[..|ms| - 1], i);
    }
  }

  /** The add loop sends one POST per valid member, in order, whatever the answers. */
  lemma {:induction false} AddAllLog(st: RemoteState, net: Network, projectId: string, ms: seq<Member>)
    ensures AddAll(st, net, projectId, ms).log == st.log + AddRequests(projectId, ms)
  {
    if ms != [] {
      var init := ms[..|ms| - 1];
      AddAllLog(st, net, projectId, init);
      var mid := AddAll(st, net, projectId, init);
      assert AddProjectMember(mid, net, projectId, ms[|ms| - 1]).st.log == mid.log + AddRequest(projectId, ms[|ms| - 1]);
    }
  }

  /** The delete loop sends one DELETE per member, by binding id, in order, whatever the answers. */
  lemma {:induction false} DeleteAllLog(st: RemoteState, net: Network, ms: seq<Member>)
    ensures DeleteAll(st, net, ms).log == st.log + DeleteRequests(ms)
  {
    if ms != [] {
      DeleteAllLog(st, net, ms[..|ms| - 1]);
    }
  }

  /** No binding is created or deleted by these requests. */
  predicate NoMemberCalls(rs: seq<Request>) {
    forall i :: 0 <= i < |rs| ==> !rs[i].CreateBinding? && !rs[i].DeleteBinding?
  }

  // ---------------------------------------------------------------------
  // UpdateProject

  /** The PUT UpdateProject sends after a successful fetch. */
  function PutRequest(clusterId: string, projectId: string, p: Project): Request {
    ReplaceProject(projectId, clusterId, FieldsOfProject(p))
  }

  /** The PSP request UpdateProject sends: only when the desired policy differs from the fetched one. */
  function PspRequests(fetched: Project, projectId: string, p: Project): seq<Request> {
    if fetched.podSecurityPolicyId != p.podSecurityPolicyId then [SetPsp(projectId, p.podSecurityPolicyId)] else []
  }

  /** UpdateProject fails only when the detail fetch fails (with that error), when the PUT is
      not answered, or when the policy must change and its request is not answered; the
      answers to the member requests never change the result. */
  lemma UpdateErrors(st: RemoteState, net: Network, clusterId: string, projectId: string, p: Project)
    ensures var d := GetProjectDetail(st, net, projectId);
      var r := UpdateProject(st, net, clusterId, projectId, p);
      (d.value.Err? ==> r.value == Some(d.value.error)) &&
      (d.value.Ok? ==>
        var n := |d.st.log|;
        (r.value.Some? <==>
          net(n, PutRequest(clusterId, projectId, p)).Unreachable? ||
          (PspRequests(d.value.value, projectId, p) != [] && net(n + 1, SetPsp(projectId, p.podSecurityPolicyId)).Unreachable?)) &&
        (r.value.Some? ==> r.value == Some(Transport)))
  {
  }

  /** A successful UpdateProject sends, after the three GETs: the PUT, the policy request if
      the policy changed, one POST per new valid member and one DELETE per stale binding, by
      the fetched binding's id. */
  lemma UpdateRequests(st: RemoteState, net: Network, clusterId: string, projectId: string, p: Project)
    requires UpdateProject(st, net, clusterId, projectId, p).value.None?
    ensures var d := GetProjectDetail(st, net, projectId);
      d.value.Ok? &&
      var fetched := d.value.value;
      UpdateProject(st, net, clusterId, projectId, p).st.log ==
        st.log + DetailRequests(projectId) + [PutRequest(clusterId, projectId, p)]
          + PspRequests(fetched, projectId, p)
          + AddRequests(projectId, Membership.Missing(p.members, fetched.members))
          + DeleteRequests(Membership.Missing(fetched.members, p.members))
  {
    var d := GetProjectDetail(st, net, projectId);
    DetailReadsOnly(st, net, projectId);
    var fetched := d.value.value;
    var put := Exchange(d.st, net, PutRequest(clusterId, projectId, p));
    var psp :=
      if fetched.podSecurityPolicyId != p.podSecurityPolicyId
      then SetProjectPsp(put.st, net, projectId, p.podSecurityPolicyId)
      else Run(None, put.st);
    assert psp.st.log == d.st.log + [PutRequest(clusterId, projectId, p)] + PspRequests(fetched, projectId, p);
    var newMembers := Membership.Missing(p.members, fetched.members);
    var deleted := Membership.Missing(fetched.members, p.members);
    AddAllLog(psp.st, net, projectId, newMembers);
    DeleteAllLog(AddAll(psp.st, net, projectId, newMembers), net, deleted);
  }

  /** A failed UpdateProject adds and removes no member: every member request comes after the
      last point at which it can fail. */
  lemma UpdateFailureTouchesNoMember(st: RemoteState, net: Network, clusterId: string, projectId: string, p: Project)
    requires UpdateProject(st, net, clusterId, projectId, p).value.Some?
    ensures var r := UpdateProject(st, net, clusterId, projectId, p);
      st.log <= r.st.log && NoMemberCalls(r.st.log[|st.log|..])
  {
    var d := GetProjectDetail(st, net, projectId);
    var r := UpdateProject(st, net, clusterId, projectId, p);
    DetailReadsOnly(st, net, projectId);
    var t := d.st.log[|st.log|..];
    assert NoMemberCalls(t) by {
      forall i | 0 <= i < |t| ensures !t[i].CreateBinding? && !t[i].DeleteBinding? {
        assert t[i] == DetailRequests(projectId)[i];
      }
    }
    if d.value.Ok? {
      var fetched := d.value.value;
      var put := Exchange(d.st, net, PutRequest(clusterId, projectId, p));
      var extra := [PutRequest(clusterId, projectId, p)] + (if put.value.TransportError? then [] else PspRequests(fetched, projectId, p));
      assert r.st.log == d.st.log + extra;
      assert r.st.log[|st.log|..] == t + extra;
    }
  }

  /** When the fetched members and the desired ones have the same keys, a successful update
      sends no member request at all: a repeated identical update only re-PUTs the project. */
  lemma UpdateSameMembersNoMemberCalls(st: RemoteState, net: Network, clusterId: string, projectId: string, p: Project)
    requires UpdateProject(st, net, clusterId, projectId, p).value.None?
    requires Membership.Keys(GetProjectDetail(st, net, projectId).value.value.members) == Membership.Keys(p.members)
    ensures var fetched := GetProjectDetail(st, net, projectId).value.value;
      UpdateProject(st, net, clusterId, projectId, p).st.log ==
        st.log + DetailRequests(projectId) + [PutRequest(clusterId, projectId, p)] + PspRequests(fetched, projectId, p)
  {
    UpdateRequests(st, net, clusterId, projectId, p);
    var fetched := GetProjectDetail(st, net, projectId).value.value;
    Membership.SameKeysNoDiff(p.members, fetched.members);
  }

  // ---------------------------------------------------------------------
  // CreateProject

  function CreateRequest(clusterId: string, p: Project): Request {
    PostProject(clusterId, FieldsOfProject(p))
  }

  /** CreateProject returns no id exactly when the create is not answered, answered with a
      status other than 201, or without an id; it then sends nothing more and reports an error. */
  lemma CreateWithoutId(st: RemoteState, net: Network, clusterId: string, p: Project)
    ensures var a := net(|st.log|, CreateRequest(clusterId, p));
      var c := CreateProject(st, net, clusterId, p);
      (c.value.projectId == "" <==> a.Unreachable? || a.code != StatusCreated || a.assignedId == "") &&
      (c.value.projectId == "" ==> c.value.error.Some? && c.st.log == st.log + [CreateRequest(clusterId, p)])
  {
  }

  /** Once the project is created, every valid member is bound in order and the policy is set;
      the only error reported is the policy request's: member failures change nothing. */
  lemma CreateWithId(st: RemoteState, net: Network, clusterId: string, p: Project)
    requires CreateProject(st, net, clusterId, p).value.projectId != ""
    ensures var a := net(|st.log|, CreateRequest(clusterId, p));
      var c := CreateProject(st, net, clusterId, p);
      var id := c.value.projectId;
      var pspReq := SetPsp(id, p.podSecurityPolicyId);
      a.Answered? && a.code == StatusCreated && id == a.assignedId &&
      c.st.log == st.log + [CreateRequest(clusterId, p)] + AddRequests(id, p.members) + [pspReq] &&
      (c.value.error.None? <==> net(|c.st.log| - 1, pspReq).Answered?) &&
      (c.value.error.Some? ==> c.value.error == Some(Transport))
  {
    var x := Exchange(st, net, CreateRequest(clusterId, p));
    var id := CreatedIdOf(x.value.body);
    AddAllLog(x.st, net, id, p.members);
  }

  // ---------------------------------------------------------------------
  // GetProjectGroups

  /** One principal id contributes a name exactly when it is non-empty and parses to a non-empty name. */
  lemma GroupNameOfIff(id: string, g: string)
    requires Parsers.SliceInRange(id)
    ensures GroupNameOf(id) == Some(g) <==> id != "" && Parsers.ParseGroupFromPrincipalId(id) == Ok(g) && g != ""
  {
  }

  /** The kept names are exactly the names contributed by some principal id. */
  lemma GroupNamesIff(ids: seq<string>, g: string)
    requires GroupIdsInRange(ids)
    ensures g in GroupNames(ids) <==> exists i :: 0 <= i < |ids| && GroupNameOf(ids[i]) == Some(g)
  {
    Seqs.FilterMapIff(ids, GroupNameOf, g);
  }

  /** Every kept group name is a bare CN value: no ',' and no '='. */
  lemma GroupNamesAreBare(ids: seq<string>, g: string)
    requires GroupIdsInRange(ids)
    requires g in GroupNames(ids)
    ensures g != "" && ',' !in g && '=' !in g
  {
    GroupNamesIff(ids, g);
    var i :| 0 <= i < |ids| && GroupNameOf(ids[i]) == Some(g);
    GroupNameOfIff(ids[i], g);
  }
}
