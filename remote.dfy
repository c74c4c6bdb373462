/** The Rancher v3 API as the client sees it: a store of projects and
    project role-template bindings behind a network that may fail. Each
    request the client sends is logged; the network decides whether it is
    answered and with which status code, and for creates which id the
    server assigns. A write takes effect only when answered with its
    success status. */
module Remote {
  import opened Results
  import opened Types
  import Seqs

  const StatusOK: int := 200
  const StatusCreated: int := 201

  /** The project fields a create (POST /v3/project) or a replace
      (PUT /v3/projects/<id>) request carries. */
  datatype Fields = Fields(name: string, description: string, podSecurityPolicyId: string, quotas: ProjectQuotas)

  /** What reading a missing JSON path gives: empty strings and empty maps. */
  const NoFields: Fields := Fields("", "", "", ProjectQuotas(map[], map[]))

  /** The body of POST /v3/projectroletemplatebinding. */
  datatype BindingPayload = BindingPayload(
    subjectKind: string,
    projectId: string,
    userPrincipalId: string,
    groupPrincipalId: string,
    roleTemplateId: string)

  /** A stored project role-template binding. */
  datatype Binding = Binding(
    id: string,
    projectId: string,
    userPrincipalId: string,
    groupPrincipalId: string,
    roleTemplateId: string)

  datatype ProjectRecord = ProjectRecord(id: string, clusterId: string, fields: Fields)

  datatype Request =
    | GetProject(projectId: string)                                  // GET /v3/projects/<id>
    | GetBindings(projectId: string)                                 // GET /v3/projects/<id>/projectroletemplatebindings
    | ListProjects(clusterId: string)                                // GET /v3/cluster/<id>/projects
    | PostProject(clusterId: string, fields: Fields)                 // POST /v3/project?_replace=true
    | ReplaceProject(projectId: string, clusterId: string, fields: Fields) // PUT /v3/projects/<id>?_replace=true
    | SetPsp(projectId: string, psp: string)                         // POST ...?action=setpodsecuritypolicytemplate
    | CreateBinding(payload: BindingPayload)                         // POST /v3/projectroletemplatebinding
    | DeleteBinding(bindingId: string)                               // DELETE /v3/projectRoleTemplateBindings/<id>

  /** How the server answers one request: not at all (the HTTP client reports
      an error), or with a status code and, for a create, the id it assigns. */
  datatype Answer = Unreachable | Answered(code: int, assignedId: string)

  /** The network and server behaviour: the answer to the n-th request sent. */
  type Network = (nat, Request) -> Answer

  /** A decoded response body. */
  datatype Body =
    | NoBody
    | ProjectBody(fields: Fields)
    | BindingsBody(items: seq<Binding>)
    | EntitiesBody(entities: seq<Entity>)
    | CreatedBody(id: string)

  datatype Response = TransportError | Reply(code: int, body: Body)

  datatype RemoteState = RemoteState(projects: seq<ProjectRecord>, bindings: seq<Binding>, log: seq<Request>)

  /** A value computed against the remote, with the remote state afterwards. */
  datatype Run<T> = Run(value: T, st: RemoteState)

  /** The first stored project with the given id, if any. */
  function Find(projects: seq<ProjectRecord>, id: string): (r: Option<ProjectRecord>)
    ensures r.Some? ==> r.value in projects && r.value.id == id
    ensures r.None? ==> forall p :: p in projects ==> p.id != id
  {
    if projects == [] then None
    else if projects[0].id == id then Some(projects[0])
    else Find(projects[1..], id)
  }

  /** The brief entries of the projects of one cluster, in store order. */
  function EntitiesIn(projects: seq<ProjectRecord>, clusterId: string): (es: seq<Entity>)
    ensures |es| <= |projects|
  {
    if projects == [] then []
    else
      var p := projects[|projects| - 1];
      EntitiesIn(projects[..|projects| - 1], clusterId)
        + (if p.clusterId == clusterId then [Entity(p.id, p.fields.name)] else [])
  }

  predicate InProject(projectId: string, b: Binding) {
    b.projectId == projectId
  }

  predicate NotId(bindingId: string, b: Binding) {
    b.id != bindingId
  }

  /** The response body the server sends for an answered request. */
  function BodyOf(st: RemoteState, req: Request, code: int, assignedId: string): Body {
    match req
    case GetProject(pid) =>
      var p := Find(st.projects, pid);
      if code == StatusOK && p.Some? then ProjectBody(p.value.fields) else NoBody
    case GetBindings(pid) =>
      if code == StatusOK then BindingsBody(Seqs.Filter(st.bindings, b => InProject(pid, b))) else NoBody
    case ListProjects(cid) =>
      if code == StatusOK then EntitiesBody(EntitiesIn(st.projects, cid)) else NoBody
    case PostProject(_, _) =>
      if code == StatusCreated then CreatedBody(assignedId) else NoBody
    case _ => NoBody
  }

  /** The stored projects with the given id replaced by `f`. */
  function UpdateFields(projects: seq<ProjectRecord>, id: string, clusterId: string, f: Fields): (r: seq<ProjectRecord>)
    ensures |r| == |projects|
  {
    seq(|projects|, i requires 0 <= i < |projects| =>
      if projects[i].id == id then ProjectRecord(id, clusterId, f) else projects[i])
  }

  /** The stored projects with the given id moved to another pod security policy template. */
  function UpdatePsp(projects: seq<ProjectRecord>, id: string, psp: string): (r: seq<ProjectRecord>)
    ensures |r| == |projects|
  {
    seq(|projects|, i requires 0 <= i < |projects| =>
      if projects[i].id == id then projects[i].(fields := projects[i].fields.(podSecurityPolicyId := psp))
      else projects[i])
  }

  /** What an answered request does to the store: writes take effect on their success status only. */
  function Effect(st: RemoteState, req: Request, code: int, assignedId: string): (r: RemoteState)
    ensures r.log == st.log
  {
    match req
    case PostProject(cid, f) =>
      if code == StatusCreated then st.(projects := st.projects + [ProjectRecord(assignedId, cid, f)]) else st
    case ReplaceProject(pid, cid, f) =>
      if code == StatusOK then st.(projects := UpdateFields(st.projects, pid, cid, f)) else st
    case SetPsp(pid, psp) =>
      if code == StatusOK then st.(projects := UpdatePsp(st.projects, pid, psp)) else st
    case CreateBinding(pl) =>
      if code == StatusCreated then
        st.(bindings := st.bindings + [Binding(assignedId, pl.projectId, pl.userPrincipalId, pl.groupPrincipalId, pl.roleTemplateId)])
      else st
    case DeleteBinding(id) =>
      if code == StatusOK then st.(bindings := Seqs.Filter(st.bindings, b => NotId(id, b))) else st
    case _ => st
  }

  /** Reads never change the store. */
  predicate IsRead(req: Request) {
    req.GetProject? || req.GetBindings? || req.ListProjects?
  }

  /** One request/response exchange: the request is logged whether or not it is answered. */
  function Exchange(st: RemoteState, net: Network, req: Request): (r: Run<Response>)
    ensures r.st.log == st.log + [req]
    ensures r.value.TransportError? ==> r.st.projects == st.projects && r.st.bindings == st.bindings
    ensures IsRead(req) ==> r.st.projects == st.projects && r.st.bindings == st.bindings
  {
    var a := net(|st.log|, req);
    var logged := st.(log := st.log + [req]);
    if a.Unreachable? then Run(TransportError, logged)
    else Run(Reply(a.code, BodyOf(st, req, a.code, a.assignedId)), Effect(logged, req, a.code, a.assignedId))
  }

  /** The remote API: its store, the log of requests received and the network in front of it. */
  class Rancher {
    var projects: seq<ProjectRecord>
    var bindings: seq<Binding>
    var log: seq<Request>
    const net: Network

    function State(): RemoteState
      reads this
    {
      RemoteState(projects, bindings, log)
    }

    constructor (net: Network, projects: seq<ProjectRecord>, bindings: seq<Binding>)
      ensures this.net == net
      ensures State() == RemoteState(projects, bindings, [])
    {
      this.net := net;
      this.projects := projects;
      this.bindings := bindings;
      this.log := [];
    }

    /** Sends one request and receives the response. */
    method Send(req: Request) returns (resp: Response)
      modifies this
      ensures Run(resp, State()) == Exchange(old(State()), net, req)
    {
      var a := net(|log|, req);
      if a.Unreachable? {
        log := log + [req];
        return TransportError;
      }
      resp := Reply(a.code, BodyOf(State(), req, a.code, a.assignedId));
      var after := Effect(State(), req, a.code, a.assignedId);
      projects, bindings := after.projects, after.bindings;
      log := log + [req];
    }
  }
}
