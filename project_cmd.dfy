/** The `project apply` and `project get` commands: a batch that creates or
    updates each declared project, and the collection of project details. */
module ProjectCmd {
  import opened Results
  import opened Types
  import opened Remote
  import S = ClientSpec
  import Client

  datatype CmdError =
    | MissingConfigFile       // "config file argument not found"
    | ReadFailed(reason: string) // the error of reading the configuration file
    | CreateFailed            // "created projects failed"
    | ClientFailed(e: S.Error) // an error returned by a client call

  /** One project of the batch: updated when it has an id, created otherwise.
      The flag is false only for a create that reported an error. */
  function ApplyOne(st: RemoteState, net: Network, clusterId: string, p: Project): (r: Run<bool>)
    ensures st.log <= r.st.log
  {
    if p.id != "" then
      Run(true, S.UpdateProject(st, net, clusterId, p.id, p).st)
    else
      var c := S.CreateProject(st, net, clusterId, p);
      Run(c.value.error.None?, c.st)
  }

  /** The projects of the batch in order; the flag is the conjunction of their flags. */
  function ApplyAll(st: RemoteState, net: Network, clusterId: string, ps: seq<Project>): (r: Run<bool>)
    ensures st.log <= r.st.log
  {
    if ps == [] then Run(true, st)
    else
      var prev := ApplyAll(st, net, clusterId, ps[..|ps| - 1]);
      var one := ApplyOne(prev.st, net, clusterId, ps[|ps| - 1]);
      Run(prev.value && one.value, one.st)
  }

  /** projectApply, with the reading of the configuration file given as a function
      from file name to the projects it declares. */
  function Apply(st: RemoteState, net: Network, clusterId: string, filename: string,
                 readProjects: string -> Result<ProjectList, string>): Run<Option<CmdError>>
  {
    if filename == "" then Run(Some(MissingConfigFile), st)
    else
      match readProjects(filename)
      case Err(e) => Run(Some(ReadFailed(e)), st)
      case Ok(list) =>
        var all := ApplyAll(st, net, clusterId, list.projects);
        Run(if all.value then None else Some(CreateFailed), all.st)
  }

  method ProjectApply(api: Rancher, clusterId: string, filename: string,
                      readProjects: string -> Result<ProjectList, string>) returns (err: Option<CmdError>)
    modifies api
    ensures Run(err, api.State()) == Apply(old(api.State()), api.net, clusterId, filename, readProjects)
  {
    if filename == "" {
      return Some(MissingConfigFile);
    }
    var projectList := readProjects(filename);
    if projectList.Err? {
      return Some(ReadFailed(projectList.error));
    }
    var projects := projectList.value.projects;
    var success := true;
    for i := 0 to |projects|
      invariant Run(success, api.State()) == ApplyAll(old(api.State()), api.net, clusterId, projects[..i])
    {
      var prj := projects[i];
      if prj.id != "" {
        var updateErr := Client.UpdateProject(api, clusterId, prj.id, prj);
      } else {
        var prjId, createErr := Client.CreateProject(api, clusterId, prj);
        if createErr.Some? {
          success := false;
        }
      }
      assert projects[..i + 1][..i] == projects[..i];
    }
    assert projects[..|projects|] == projects;
    if !success {
      return Some(CreateFailed);
    }
    return None;
  }

  /** The details of the listed projects, in order, skipping those whose fetch fails. */
  function CollectDetails(st: RemoteState, net: Network, es: seq<Entity>): (r: Run<seq<Project>>)
    ensures st.log <= r.st.log
    ensures |r.value| <= |es|
  {
    if es == [] then Run([], st)
    else
      var prev := CollectDetails(st, net, es[..|es| - 1]);
      var d := S.GetProjectDetail(prev.st, net, es[|es| - 1].id);
      Run(prev.value + (if d.value.Ok? then [d.value.value] else []), d.st)
  }

  /** What `project get` shows: every project of the cluster, or the one named. */
  datatype Output = AllProjects(list: ProjectList) | OneProject(project: Project)

  /** projectGet, without the YAML printing. */
  function Get(st: RemoteState, net: Network, clusterId: string, args: seq<string>): Run<Result<Output, CmdError>> {
    if args == [] then
      var listed := S.GetProjects(st, net, clusterId);
      if listed.value.Err? then Run(Err(ClientFailed(listed.value.error)), listed.st)
      else
        var c := CollectDetails(listed.st, net, listed.value.value);
        Run(Ok(AllProjects(ProjectList(c.value))), c.st)
    else
      var d := S.GetProjectDetail(st, net, args[0]);
      if d.value.Err? then Run(Err(ClientFailed(d.value.error)), d.st)
      else Run(Ok(OneProject(d.value.value)), d.st)
  }

  /** The loop of projectGet over the listed projects: a failed fetch is logged and skipped. */
  method FetchDetails(api: Rancher, es: seq<Entity>) returns (projects: seq<Project>)
    modifies api
    ensures Run(projects, api.State()) == CollectDetails(old(api.State()), api.net, es)
  {
    projects := [];
    for i := 0 to |es|
      invariant Run(projects, api.State()) == CollectDetails(old(api.State()), api.net, es[..i])
    {
      var proj := Client.GetProjectDetail(api, es[i].id);
      if proj.Ok? {
        projects := projects + [proj.value];
      } else {
        assert projects == projects + [];
      }
      assert es[..i + 1][..i] == es[..i] && es[..i + 1][i] == es[i];
    }
    assert es[..|es|] == es;
  }

  method ProjectGet(api: Rancher, clusterId: string, args: seq<string>) returns (r: Result<Output, CmdError>)
    modifies api
    ensures Run(r, api.State()) == Get(old(api.State()), api.net, clusterId, args)
  {
    if |args| == 0 {
      var projectEntities := Client.GetProjects(api, clusterId);
      if projectEntities.Err? {
        return Err(ClientFailed(projectEntities.error));
      }
      var projects := FetchDetails(api, projectEntities.value);
      return Ok(AllProjects(ProjectList(projects)));
    }
    var project := Client.GetProjectDetail(api, args[0]);
    if project.Err? {
      return Err(ClientFailed(project.error));
    }
    return Ok(OneProject(project.value));
  }
}
