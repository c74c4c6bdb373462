/** Properties of `project apply` and `project get`: what is checked before
    any request, how each declared project is dispatched, when the batch
    reports failure, and that `get` only reads. */
module ProjectProps {
  import opened Results
  import opened Types
  import opened Remote
  import opened ProjectCmd
  import S = ClientSpec
  import ClientProps
  import Membership

  lemma PrefixTrans<T>(a: seq<T>, b: seq<T>, c: seq<T>)
    requires a <= b && b <= c
    ensures a <= c
  {
    assert b == c[..|b|];
    assert a == b[..|a|];
    assert c[..|b|][..|a|] == c[..|a|];
  }

  /** An empty file name is refused before anything else happens. */
  lemma ApplyEmptyFilename(st: RemoteState, net: Network, clusterId: string,
                           readProjects: string -> Result<ProjectList, string>)
    ensures Apply(st, net, clusterId, "", readProjects) == Run(Some(MissingConfigFile), st)
  {
  }

  /** A configuration file that cannot be read is reported before any project is processed. */
  lemma ApplyReadFailure(st: RemoteState, net: Network, clusterId: string, filename: string,
                         readProjects: string -> Result<ProjectList, string>)
    requires filename != "" && readProjects(filename).Err?
    ensures Apply(st, net, clusterId, filename, readProjects) == Run(Some(ReadFailed(readProjects(filename).error)), st)
  {
  }

  /** The first request sent for a declared project: a fetch of the project it names when it
      has an id (the update path), the create POST when it has none. */
  function FirstRequest(clusterId: string, p: Project): Request {
    if p.id != "" then GetProject(p.id) else PostProject(clusterId, S.FieldsOfProject(p))
  }

  /** Everything UpdateProject sends comes after the requests of its detail fetch. */
  lemma UpdateExtendsDetail(st: RemoteState, net: Network, clusterId: string, projectId: string, p: Project)
    ensures S.GetProjectDetail(st, net, projectId).st.log <= S.UpdateProject(st, net, clusterId, projectId, p).st.log
  {
    var d := S.GetProjectDetail(st, net, projectId);
    if d.value.Ok? {
      var put := Exchange(d.st, net, ReplaceProject(projectId, clusterId, S.FieldsOfProject(p)));
      if put.value.Reply? {
        var fetched := d.value.value;
        var psp :=
          if fetched.podSecurityPolicyId != p.podSecurityPolicyId
          then S.SetProjectPsp(put.st, net, projectId, p.podSecurityPolicyId)
          else Run(None, put.st);
        PrefixTrans(d.st.log, put.st.log, psp.st.log);
        if psp.value.None? {
          var added := S.AddAll(psp.st, net, projectId, Membership.Missing(p.members, fetched.members));
          var r := S.DeleteAll(added, net, Membership.Missing(fetched.members, p.members));
          PrefixTrans(d.st.log, psp.st.log, added.log);
          PrefixTrans(d.st.log, added.log, r.log);
        }
      }
    }
  }

  /** Each declared project is dispatched on its id: update by that id, or create. */
  lemma ApplyOneDispatch(st: RemoteState, net: Network, clusterId: string, p: Project)
    ensures var r := ApplyOne(st, net, clusterId, p);
      |st.log| < |r.st.log| && r.st.log[|st.log|] == FirstRequest(clusterId, p)
  {
    var r := ApplyOne(st, net, clusterId, p);
    if p.id != "" {
      var d := S.GetProjectDetail(st, net, p.id);
      var q := S.GetProjectQuotas(st, net, p.id);
      assert q.st.log == st.log + [GetProject(p.id)];
      assert q.st.log <= d.st.log;
      UpdateExtendsDetail(st, net, clusterId, p.id, p);
      PrefixTrans(q.st.log, d.st.log, r.st.log);
      assert r.st.log[..|q.st.log|] == q.st.log;
    }
  }

  /** The state after a prefix of the batch is a prefix of the state after the whole batch. */
  lemma {:induction false} ApplyAllPrefix(st: RemoteState, net: Network, clusterId: string, ps: seq<Project>, k: nat)
    requires k <= |ps|
    ensures ApplyAll(st, net, clusterId, ps[..k]).st.log <= ApplyAll(st, net, clusterId, ps).st.log
    decreases |ps| - k
  {
    if k < |ps| {
      var init := ps[..|ps| - 1];
      assert ps[..k] == init[..k];
      ApplyAllPrefix(st, net, clusterId, init, k);
      PrefixTrans(ApplyAll(st, net, clusterId, init[..k]).st.log,
                  ApplyAll(st, net, clusterId, init).st.log,
                  ApplyAll(st, net, clusterId, ps).st.log);
    } else {
      assert ps[..k] == ps;
    }
  }

  /** Every declared project is attempted, in order, whatever happened to the earlier ones:
      the i-th project's first request follows the requests of the projects before it. */
  lemma ApplyAllAttemptsEach(st: RemoteState, net: Network, clusterId: string, ps: seq<Project>, i: nat)
    requires i < |ps|
    ensures var n := |ApplyAll(st, net, clusterId, ps[..i]).st.log|;
      var log := ApplyAll(st, net, clusterId, ps).st.log;
      n < |log| && log[n] == FirstRequest(clusterId, ps[i])
  {
    var before := ApplyAll(st, net, clusterId, ps[..i]).st;
    var upto := ApplyAll(st, net, clusterId, ps[..i + 1]).st;
    assert ps[..i + 1][..i] == ps[..i] && ps[..i + 1][i] == ps[i];
    ApplyOneDispatch(before, net, clusterId, ps[i]);
    ApplyAllPrefix(st, net, clusterId, ps, i + 1);
    assert upto.log == ApplyAll(st, net, clusterId, ps).st.log[..|upto.log|];
  }

  /** Whether the i-th declared project is a create that reports an error. */
  predicate CreateFailsAt(st: RemoteState, net: Network, clusterId: string, ps: seq<Project>, i: nat)
    requires i < |ps|
  {
    ps[i].id == "" && S.CreateProject(ApplyAll(st, net, clusterId, ps[..i]).st, net, clusterId, ps[i]).value.error.Some?
  }

  /** Whether a create fails at position i does not depend on the projects after it. */
  lemma CreateFailsAtInit(st: RemoteState, net: Network, clusterId: string, ps: seq<Project>, i: nat)
    requires i < |ps| - 1
    ensures CreateFailsAt(st, net, clusterId, ps[..|ps| - 1], i) == CreateFailsAt(st, net, clusterId, ps, i)
  {
    assert ps[..|ps| - 1][..i] == ps[..i] && ps[..|ps| - 1][i] == ps[i];
  }

  /** The batch fails exactly when some create fails; failed updates are only logged. */
  lemma {:induction false} ApplyAllFailsIff(st: RemoteState, net: Network, clusterId: string, ps: seq<Project>)
    ensures !ApplyAll(st, net, clusterId, ps).value <==> exists i :: 0 <= i < |ps| && CreateFailsAt(st, net, clusterId, ps, i)
  {
    if ps != [] {
      var init := ps[..|ps| - 1];
      var last := |ps| - 1;
      ApplyAllFailsIff(st, net, clusterId, init);
      assert ps[..last] == init;
      if !ApplyAll(st, net, clusterId, init).value {
        var i :| 0 <= i < |init| && CreateFailsAt(st, net, clusterId, init, i);
        CreateFailsAtInit(st, net, clusterId, ps, i);
      } else if !ApplyOne(ApplyAll(st, net, clusterId, init).st, net, clusterId, ps[last]).value {
        assert CreateFailsAt(st, net, clusterId, ps, last);
      } else {
        forall i | 0 <= i < |ps| ensures !CreateFailsAt(st, net, clusterId, ps, i) {
          if i < last {
            CreateFailsAtInit(st, net, clusterId, ps, i);
          }
        }
      }
    }
  }

  /** The whole command fails exactly when the file name is empty, the file cannot be read,
      or some create of the batch fails. */
  lemma ApplyFailsIff(st: RemoteState, net: Network, clusterId: string, filename: string,
                      readProjects: string -> Result<ProjectList, string>)
    ensures Apply(st, net, clusterId, filename, readProjects).value.Some? <==>
      filename == "" || readProjects(filename).Err? ||
      var ps := readProjects(filename).value.projects;
      exists i :: 0 <= i < |ps| && CreateFailsAt(st, net, clusterId, ps, i)
  {
    if filename != "" && readProjects(filename).Ok? {
      ApplyAllFailsIff(st, net, clusterId, readProjects(filename).value.projects);
    }
  }

  /** Collecting details only reads, and every collected project is one of the listed ones. */
  lemma {:induction false} CollectDetailsListed(st: RemoteState, net: Network, es: seq<Entity>)
    ensures var c := CollectDetails(st, net, es);
      c.st.projects == st.projects && c.st.bindings == st.bindings &&
      forall p :: p in c.value ==> exists i :: 0 <= i < |es| && es[i].id == p.id
  {
    if es != [] {
      var init := es[..|es| - 1];
      var prev := CollectDetails(st, net, init);
      CollectDetailsListed(st, net, init);
      ClientProps.DetailReadsOnly(prev.st, net, es[|es| - 1].id);
      var c := CollectDetails(st, net, es);
      forall p | p in c.value ensures exists i :: 0 <= i < |es| && es[i].id == p.id {
        if p in prev.value {
          var i :| 0 <= i < |init| && init[i].id == p.id;
          assert es[i] == init[i];
        } else {
          assert es[|es| - 1].id == p.id;
        }
      }
    }
  }

  /** The details collected for the first k listed projects, and their requests, are
      prefixes of those for the whole list. */
  lemma {:induction false} CollectDetailsPrefix(st: RemoteState, net: Network, es: seq<Entity>, k: nat)
    requires k <= |es|
    ensures var part, all := CollectDetails(st, net, es[..k]), CollectDetails(st, net, es);
      part.value <= all.value && part.st.log <= all.st.log
    decreases |es| - k
  {
    if k < |es| {
      var init := es[..|es| - 1];
      assert es[..k] == init[..k];
      CollectDetailsPrefix(st, net, init, k);
      var part, prev, all := CollectDetails(st, net, init[..k]), CollectDetails(st, net, init), CollectDetails(st, net, es);
      assert prev.value <= all.value;
      PrefixTrans(part.value, prev.value, all.value);
      PrefixTrans(part.st.log, prev.st.log, all.st.log);
    } else {
      assert es[..k] == es;
    }
  }

  /** Every listed project is fetched, in listing order, whatever happened to the earlier
      fetches: its detail GET follows the requests of the projects before it, and its
      detail, when the fetch succeeds, is collected right after theirs. */
  lemma CollectDetailsFetchesEach(st: RemoteState, net: Network, es: seq<Entity>, i: nat)
    requires i < |es|
    ensures var before := CollectDetails(st, net, es[..i]);
      var d := S.GetProjectDetail(before.st, net, es[i].id);
      var all := CollectDetails(st, net, es);
      |before.st.log| < |all.st.log| && all.st.log[|before.st.log|] == GetProject(es[i].id) &&
      before.value + (if d.value.Ok? then [d.value.value] else []) <= all.value &&
      (d.value.Ok? ==> d.value.value in all.value)
  {
    var before := CollectDetails(st, net, es[..i]);
    var d := S.GetProjectDetail(before.st, net, es[i].id);
    var upto := CollectDetails(st, net, es[..i + 1]);
    var all := CollectDetails(st, net, es);
    assert es[..i + 1][..i] == es[..i] && es[..i + 1][i] == es[i];
    var q := S.GetProjectQuotas(before.st, net, es[i].id);
    assert q.st.log == before.st.log + [GetProject(es[i].id)];
    assert q.st.log <= d.st.log;
    CollectDetailsPrefix(st, net, es, i + 1);
    PrefixTrans(q.st.log, upto.st.log, all.st.log);
    assert all.st.log[..|q.st.log|] == q.st.log;
    if d.value.Ok? {
      assert all.value[|before.value|] == d.value.value;
    }
  }

  /** `project get` never changes the remote store. */
  lemma GetOnlyReads(st: RemoteState, net: Network, clusterId: string, args: seq<string>)
    ensures var r := Get(st, net, clusterId, args);
      r.st.projects == st.projects && r.st.bindings == st.bindings
  {
    if args == [] {
      var listed := S.GetProjects(st, net, clusterId);
      if listed.value.Ok? {
        CollectDetailsListed(listed.st, net, listed.value.value);
      }
    } else {
      ClientProps.DetailReadsOnly(st, net, args[0]);
    }
  }

  /** `project get <id>` returns the project with that id, or the fetch's error. */
  lemma GetOne(st: RemoteState, net: Network, clusterId: string, args: seq<string>)
    requires args != []
    ensures var r := Get(st, net, clusterId, args);
      var d := S.GetProjectDetail(st, net, args[0]);
      (r.value.Ok? <==> d.value.Ok?) &&
      (r.value.Ok? ==> r.value.value == OneProject(d.value.value) && d.value.value.id == args[0]) &&
      (r.value.Err? ==> r.value.error == ClientFailed(d.value.error))
  {
  }
}
