/** Reconciliation: when the server keeps binding ids unique and every binding
    create and delete succeeds, UpdateProject and CreateProject leave the project
    bound to exactly the declared members (compared by key, ids ignored). */
module Reconcile {
  import opened Results
  import opened Types
  import opened Remote
  import opened ClientSpec
  import Membership
  import Seqs
  import ClientProps

  /** The keys of the members GetProjectMembers decodes from a project's stored bindings. */
  function ProjectKeys(bindings: seq<Binding>, projectId: string): set<Key> {
    set b | b in bindings && b.projectId == projectId :: KeyOf(MemberOf(b))
  }

  function Ids(bindings: seq<Binding>): set<string> {
    set b | b in bindings :: b.id
  }

  function MemberIds(ms: seq<Member>): set<string> {
    set m | m in ms :: m.id
  }

  /** No two stored bindings share an id. */
  predicate UniqueIds(bindings: seq<Binding>) {
    forall a, b :: a in bindings && b in bindings && a.id == b.id ==> a == b
  }

  /** A member whose binding reads back as itself: a User with a principal, or a Group. */
  predicate Bindable(m: Member) {
    (m.memberType == MemberTypeUser && m.principalId != "") || m.memberType == MemberTypeGroup
  }

  /** From log position `from` on, every binding create is answered with 201 and an id outside `taken`. */
  ghost predicate CreatesSucceed(net: Network, from: nat, taken: set<string>) {
    forall n: nat, pl: BindingPayload :: n >= from ==>
      net(n, CreateBinding(pl)).Answered? && net(n, CreateBinding(pl)).code == StatusCreated &&
      net(n, CreateBinding(pl)).assignedId !in taken
  }

  /** From log position `from` on, every binding delete is answered with 200. */
  ghost predicate DeletesSucceed(net: Network, from: nat) {
    forall n: nat, id: string :: n >= from ==>
      net(n, DeleteBinding(id)).Answered? && net(n, DeleteBinding(id)).code == StatusOK
  }

  /** The members of `fetched` are exactly those decoded from the project's bindings in `bindings`. */
  ghost predicate DecodedFrom(fetched: seq<Member>, bindings: seq<Binding>, projectId: string) {
    forall m :: m in fetched <==> exists b :: b in bindings && b.projectId == projectId && m == MemberOf(b)
  }

  /** GetProjectMembers decodes every binding and nothing else. */
  lemma MembersOfIff(items: seq<Binding>, m: Member)
    ensures m in MembersOf(items) <==> exists b :: b in items && m == MemberOf(b)
  {
    if m in MembersOf(items) {
      var i :| 0 <= i < |MembersOf(items)| && MembersOf(items)[i] == m;
      ClientProps.MembersOfIndex(items, i);
      assert items[i] in items;
    }
    if exists b :: b in items && m == MemberOf(b) {
      var b :| b in items && m == MemberOf(b);
      var i :| 0 <= i < |items| && items[i] == b;
      ClientProps.MembersOfIndex(items, i);
    }
  }

  /** When its bindings GET is answered with 200, a successful GetProjectDetail returns the
      members decoded from the project's stored bindings. */
  lemma FetchedMembers(st: RemoteState, net: Network, projectId: string)
    requires GetProjectDetail(st, net, projectId).value.Ok?
    requires net(|st.log| + 1, GetBindings(projectId)).Answered?
    requires net(|st.log| + 1, GetBindings(projectId)).code == StatusOK
    ensures DecodedFrom(GetProjectDetail(st, net, projectId).value.value.members, st.bindings, projectId)
  {
    var q := GetProjectQuotas(st, net, projectId);
    var items := Seqs.Filter(st.bindings, b => InProject(projectId, b));
    assert GetProjectDetail(st, net, projectId).value.value.members == MembersOf(items);
    forall m ensures m in MembersOf(items) <==> exists b :: b in st.bindings && b.projectId == projectId && m == MemberOf(b) {
      MembersOfIff(items, m);
      if exists b :: b in st.bindings && b.projectId == projectId && m == MemberOf(b) {
        var b :| b in st.bindings && b.projectId == projectId && m == MemberOf(b);
        Seqs.FilterIff(st.bindings, b => InProject(projectId, b), b);
      }
    }
  }

  /** The add loop, when every create succeeds: the stored bindings are kept, every new one
      belongs to the project, has an id outside `taken` and a key of some member, and every
      member gets one. */
  lemma {:induction false} AddAllBinds(st: RemoteState, net: Network, projectId: string, ms: seq<Member>, taken: set<string>)
    requires forall m :: m in ms ==> Bindable(m)
    requires CreatesSucceed(net, |st.log|, taken)
    ensures var r := AddAll(st, net, projectId, ms);
      (forall b :: b in st.bindings ==> b in r.bindings) &&
      (forall b :: b in r.bindings && b !in st.bindings ==>
         b.projectId == projectId && b.id !in taken && KeyOf(MemberOf(b)) in Membership.Keys(ms)) &&
      (forall m :: m in ms ==> exists b :: b in r.bindings && b.projectId == projectId && b.id !in taken && KeyOf(MemberOf(b)) == KeyOf(m))
  {
    if ms != [] {
      var init, m := ms[..|ms| - 1], ms[|ms| - 1];
      assert forall x :: x in init ==> x in ms;
      assert m in ms;
      AddAllBinds(st, net, projectId, init, taken);
      var mid := AddAll(st, net, projectId, init);
      var pl := PayloadOf(projectId, m).value;
      var a := net(|mid.log|, CreateBinding(pl));
      assert a.Answered? && a.code == StatusCreated && a.assignedId !in taken;
      var b := Binding(a.assignedId, pl.projectId, pl.userPrincipalId, pl.groupPrincipalId, pl.roleTemplateId);
      ClientProps.StoredBindingReadsBack(projectId, m, a.assignedId);
      var r := AddAll(st, net, projectId, ms);
      assert r.bindings == mid.bindings + [b];
      assert KeyOf(MemberOf(b)) == KeyOf(m);
      assert Membership.Keys(init) <= Membership.Keys(ms);
      forall x | x in ms
        ensures exists c :: c in r.bindings && c.projectId == projectId && c.id !in taken && KeyOf(MemberOf(c)) == KeyOf(x)
      {
        if x == m {
          assert b in r.bindings;
        } else {
          assert x in init;
          var c :| c in mid.bindings && c.projectId == projectId && c.id !in taken && KeyOf(MemberOf(c)) == KeyOf(x);
          assert c in r.bindings;
        }
      }
    }
  }

  /** The delete loop, when every delete succeeds: exactly the bindings with the members' ids are gone. */
  lemma {:induction false} DeleteAllRemoves(st: RemoteState, net: Network, ms: seq<Member>)
    requires DeletesSucceed(net, |st.log|)
    ensures forall b :: b in DeleteAll(st, net, ms).bindings <==> b in st.bindings && b.id !in MemberIds(ms)
  {
    if ms != [] {
      var init, m := ms[..|ms| - 1], ms[|ms| - 1];
      DeleteAllRemoves(st, net, init);
      var mid := DeleteAll(st, net, init);
      var r := DeleteAll(st, net, ms);
      assert r.bindings == Seqs.Filter(mid.bindings, b => NotId(m.id, b));
      assert MemberIds(ms) == MemberIds(init) + {m.id} by {
        assert forall x :: x in ms <==> x in init || x == m;
      }
      forall b ensures b in r.bindings <==> b in st.bindings && b.id !in MemberIds(ms) {
        Seqs.FilterIff(mid.bindings, b => NotId(m.id, b), b);
      }
    }
  }

  /** With unique ids, a stored binding of the project is deleted exactly when its key is not declared. */
  lemma StaleIdIff(bindings: seq<Binding>, projectId: string, fetched: seq<Member>, desired: seq<Member>, b: Binding)
    requires UniqueIds(bindings) && DecodedFrom(fetched, bindings, projectId)
    requires b in bindings && b.projectId == projectId
    ensures b.id in MemberIds(Membership.Missing(fetched, desired)) <==> KeyOf(MemberOf(b)) !in Membership.Keys(desired)
  {
    var stale := Membership.Missing(fetched, desired);
    assert MemberOf(b) in fetched;
    Membership.HasKeyIffKeyIn(desired, MemberOf(b));
    Membership.MissingIff(fetched, desired, MemberOf(b));
    if b.id in MemberIds(stale) {
      var m :| m in stale && m.id == b.id;
      Membership.MissingIff(fetched, desired, m);
      var c :| c in bindings && c.projectId == projectId && m == MemberOf(c);
      assert c.id == b.id;
      Membership.HasKeyIffKeyIn(desired, m);
    }
  }

  /** Only ids of stored bindings are deleted. */
  lemma StaleIdsStored(bindings: seq<Binding>, projectId: string, fetched: seq<Member>, desired: seq<Member>)
    requires DecodedFrom(fetched, bindings, projectId)
    ensures MemberIds(Membership.Missing(fetched, desired)) <= Ids(bindings)
  {
    forall id | id in MemberIds(Membership.Missing(fetched, desired)) ensures id in Ids(bindings) {
      var m :| m in Membership.Missing(fetched, desired) && m.id == id;
      Membership.MissingIff(fetched, desired, m);
      var c :| c in bindings && c.projectId == projectId && m == MemberOf(c);
    }
  }

  /** The key arithmetic of the member phase: the kept stored bindings carry the declared keys
      that were already bound, the added ones the declared keys that were not. */
  lemma MemberPhaseKeys(before: seq<Binding>, added: seq<Binding>, after: seq<Binding>, projectId: string,
                        fetched: seq<Member>, desired: seq<Member>)
    requires UniqueIds(before) && DecodedFrom(fetched, before, projectId)
    requires var toAdd := Membership.Missing(desired, fetched);
      (forall b :: b in before ==> b in added) &&
      (forall b :: b in added && b !in before ==>
         b.projectId == projectId && b.id !in Ids(before) && KeyOf(MemberOf(b)) in Membership.Keys(toAdd)) &&
      (forall m :: m in toAdd ==> exists b :: b in added && b.projectId == projectId && b.id !in Ids(before) && KeyOf(MemberOf(b)) == KeyOf(m))
    requires forall b :: b in after <==> b in added && b.id !in MemberIds(Membership.Missing(fetched, desired))
    ensures ProjectKeys(after, projectId) == Membership.Keys(desired)
  {
    var toAdd := Membership.Missing(desired, fetched);
    var staleIds := MemberIds(Membership.Missing(fetched, desired));
    StaleIdsStored(before, projectId, fetched, desired);
    Membership.MissingKeys(desired, fetched);
    forall k | k in ProjectKeys(after, projectId) ensures k in Membership.Keys(desired) {
      var b :| b in after && b.projectId == projectId && KeyOf(MemberOf(b)) == k;
      if b in before {
        StaleIdIff(before, projectId, fetched, desired, b);
      }
    }
    forall k | k in Membership.Keys(desired) ensures k in ProjectKeys(after, projectId) {
      if k in Membership.Keys(fetched) {
        var m :| m in fetched && KeyOf(m) == k;
        var b :| b in before && b.projectId == projectId && m == MemberOf(b);
        StaleIdIff(before, projectId, fetched, desired, b);
        assert b in after;
      } else {
        var d :| d in desired && KeyOf(d) == k;
        Membership.MissingIff(desired, fetched, d);
        Membership.HasKeyIffKeyIn(fetched, d);
        var b :| b in added && b.projectId == projectId && b.id !in Ids(before) && KeyOf(MemberOf(b)) == k;
        assert b.id !in staleIds;
        assert b in after;
      }
    }
  }

  /** A successful UpdateProject ends with its member phase, started from a state whose bindings
      are those it began with: the fetch, the PUT and the policy request change no binding. */
  lemma UpdateMemberPhase(st: RemoteState, net: Network, clusterId: string, projectId: string, p: Project)
    requires UpdateProject(st, net, clusterId, projectId, p).value.None?
    ensures GetProjectDetail(st, net, projectId).value.Ok?
    ensures var fetched := GetProjectDetail(st, net, projectId).value.value.members;
      exists s: RemoteState :: s.bindings == st.bindings && |st.log| <= |s.log| &&
        UpdateProject(st, net, clusterId, projectId, p).st ==
          DeleteAll(AddAll(s, net, projectId, Membership.Missing(p.members, fetched)), net, Membership.Missing(fetched, p.members))
  {
    var d := GetProjectDetail(st, net, projectId);
    ClientProps.DetailReadsOnly(st, net, projectId);
    var fetched := d.value.value;
    var put := Exchange(d.st, net, ReplaceProject(projectId, clusterId, FieldsOfProject(p)));
    var psp :=
      if fetched.podSecurityPolicyId != p.podSecurityPolicyId
      then SetProjectPsp(put.st, net, projectId, p.podSecurityPolicyId)
      else Run(None, put.st);
    assert psp.st.bindings == st.bindings && |st.log| <= |psp.st.log|;
    var toAdd, stale := Membership.Missing(p.members, fetched.members), Membership.Missing(fetched.members, p.members);
    assert UpdateProject(st, net, clusterId, projectId, p).st == DeleteAll(AddAll(psp.st, net, projectId, toAdd), net, stale);
  }

  /** UpdateProject reconciles: when its fetch sees the project's stored bindings (status 200),
      stored binding ids are unique, the server assigns unused ids and every binding create and
      delete succeeds, a successful update leaves the project bound to exactly the declared keys. */
  lemma UpdateConverges(st: RemoteState, net: Network, clusterId: string, projectId: string, p: Project)
    requires forall m :: m in p.members ==> Bindable(m)
    requires UniqueIds(st.bindings)
    requires net(|st.log| + 1, GetBindings(projectId)).Answered?
    requires net(|st.log| + 1, GetBindings(projectId)).code == StatusOK
    requires CreatesSucceed(net, |st.log|, Ids(st.bindings)) && DeletesSucceed(net, |st.log|)
    requires UpdateProject(st, net, clusterId, projectId, p).value.None?
    ensures ProjectKeys(UpdateProject(st, net, clusterId, projectId, p).st.bindings, projectId) == Membership.Keys(p.members)
  {
    UpdateMemberPhase(st, net, clusterId, projectId, p);
    FetchedMembers(st, net, projectId);
    var fetched := GetProjectDetail(st, net, projectId).value.value.members;
    var toAdd, stale := Membership.Missing(p.members, fetched), Membership.Missing(fetched, p.members);
    var s: RemoteState :| s.bindings == st.bindings && |st.log| <= |s.log| &&
      UpdateProject(st, net, clusterId, projectId, p).st == DeleteAll(AddAll(s, net, projectId, toAdd), net, stale);
    forall m | m in toAdd ensures Bindable(m) {
      Membership.MissingIff(p.members, fetched, m);
    }
    AddAllBinds(s, net, projectId, toAdd, Ids(st.bindings));
    var added := AddAll(s, net, projectId, toAdd);
    DeleteAllRemoves(added, net, stale);
    MemberPhaseKeys(st.bindings, added.bindings, DeleteAll(added, net, stale).bindings, projectId, fetched, p.members);
  }

  /** A project that is already reconciled is left alone: a successful update whose fetch sees the
      stored bindings sends no member request. */
  lemma ReconciledUpdateIsQuiet(st: RemoteState, net: Network, clusterId: string, projectId: string, p: Project)
    requires ProjectKeys(st.bindings, projectId) == Membership.Keys(p.members)
    requires net(|st.log| + 1, GetBindings(projectId)).Answered?
    requires net(|st.log| + 1, GetBindings(projectId)).code == StatusOK
    requires UpdateProject(st, net, clusterId, projectId, p).value.None?
    ensures var fetched := GetProjectDetail(st, net, projectId).value.value;
      UpdateProject(st, net, clusterId, projectId, p).st.log ==
        st.log + ClientProps.DetailRequests(projectId) + [ClientProps.PutRequest(clusterId, projectId, p)]
          + ClientProps.PspRequests(fetched, projectId, p)
  {
    ClientProps.UpdateRequests(st, net, clusterId, projectId, p);
    var fetched := GetProjectDetail(st, net, projectId).value.value;
    FetchedMembers(st, net, projectId);
    assert Membership.Keys(fetched.members) == ProjectKeys(st.bindings, projectId) by {
      forall k | k in Membership.Keys(fetched.members) ensures k in ProjectKeys(st.bindings, projectId) {
        var m :| m in fetched.members && KeyOf(m) == k;
      }
      forall k | k in ProjectKeys(st.bindings, projectId) ensures k in Membership.Keys(fetched.members) {
        var b :| b in st.bindings && b.projectId == projectId && KeyOf(MemberOf(b)) == k;
        assert MemberOf(b) in fetched.members;
      }
    }
    ClientProps.UpdateSameMembersNoMemberCalls(st, net, clusterId, projectId, p);
  }

  /** CreateProject binds every declared member: when the new project has no stored binding yet and
      every binding create succeeds, the created project is bound to exactly the declared keys. */
  lemma CreateBindsAll(st: RemoteState, net: Network, clusterId: string, p: Project)
    requires forall m :: m in p.members ==> Bindable(m)
    requires CreatesSucceed(net, |st.log|, {})
    requires var id := CreateProject(st, net, clusterId, p).value.projectId;
      id != "" && forall b :: b in st.bindings ==> b.projectId != id
    ensures var c := CreateProject(st, net, clusterId, p);
      ProjectKeys(c.st.bindings, c.value.projectId) == Membership.Keys(p.members)
  {
    var x := Exchange(st, net, PostProject(clusterId, FieldsOfProject(p)));
    var id := CreatedIdOf(x.value.body);
    AddAllBinds(x.st, net, id, p.members, {});
    var bound := AddAll(x.st, net, id, p.members);
    var c := CreateProject(st, net, clusterId, p);
    assert c.st.bindings == bound.bindings;
    forall k | k in ProjectKeys(c.st.bindings, id) ensures k in Membership.Keys(p.members) {
      var b :| b in bound.bindings && b.projectId == id && KeyOf(MemberOf(b)) == k;
    }
    forall k | k in Membership.Keys(p.members) ensures k in ProjectKeys(c.st.bindings, id) {
      var m :| m in p.members && KeyOf(m) == k;
      var b :| b in bound.bindings && b.projectId == id && b.id !in {} && KeyOf(MemberOf(b)) == KeyOf(m);
    }
  }
}
