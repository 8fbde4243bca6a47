/** The project handlers (backend/controllers/project.js): creation inside a
    workspace, and the two read handlers with their membership gate. */
module Projects {
  import opened Base
  import opened Strings
  import opened Schema
  import opened Tasks

  /** A workspace as these handlers use it: its member roster and the ids of its
      projects, in insertion order. */
  datatype Workspace = Workspace(members: seq<Membership>, projects: seq<ProjectId>)

  /** The three collections the handlers read and write. */
  datatype Db = Db(workspaces: seq<Workspace>, projects: seq<Project>, tasks: seq<Task>)

  /** The body of a create request; `None` is a field the client left out. */
  datatype ProjectRequest = ProjectRequest(
    title: Option<string>,
    description: Option<string>,
    status: Option<string>,
    tags: Option<string>)

  /** `tags ? tags.split(",") : []`: no trimming, empty pieces kept. */
  function ParseTags(tags: Option<string>): (r: seq<string>)
    ensures tags.None? || tags.value == "" ==> r == []
    ensures tags.Some? && tags.value != "" ==>
      && |r| == Count(tags.value, ',') + 1
      && (forall k :: 0 <= k < |r| ==> ',' !in r[k])
  {
    if tags.None? || tags.value == "" then [] else Split(tags.value, ',')
  }

  /** Joining the tags with commas gives back the string the client sent. */
  lemma TagsRoundTrip(tags: string)
    requires tags != ""
    ensures Join(ParseTags(Some(tags)), ',') == tags
  {
    JoinSplit(tags, ',');
  }

  datatype CreateReply = CreateReply(code: nat, message: string, db: Db, project: Option<ProjectId>)

  /** The fields `createProject` hands to `Project.create`. */
  function CreateFields(ws: Workspace, wsId: WorkspaceId, caller: UserId, req: ProjectRequest): ProjectFields
  {
    ProjectFields(req.title, req.description, req.status, None, Some(wsId),
                  ws.members, ParseTags(req.tags), Some(caller))
  }

  /** `Project.create` followed by `workspace.projects.push(id)` and
      `workspace.save()`: the project is stored under the next id, and only its
      workspace's project list grows. */
  function AddProject(db: Db, wsId: WorkspaceId, p: Project): (d: Db)
    requires wsId < |db.workspaces|
    ensures |d.projects| == |db.projects| + 1
    ensures d.projects[..|db.projects|] == db.projects && d.projects[|db.projects|] == p
    ensures |d.workspaces| == |db.workspaces|
    ensures var ws := db.workspaces[wsId]; d.workspaces[wsId] == ws.(projects := ws.projects + [|db.projects|])
    ensures forall w :: 0 <= w < |db.workspaces| && w != wsId ==> d.workspaces[w] == db.workspaces[w]
    ensures d.tasks == db.tasks
  {
    var id := |db.projects|;
    var ws := db.workspaces[wsId];
    var projects := db.projects + [p];
    assert projects[..id] == db.projects;
    Db(db.workspaces[wsId := ws.(projects := ws.projects + [id])], projects, db.tasks)
  }

  /** `createProject`. `caller` is `req.user._id` as set by the authentication
      middleware. A schema validation failure is thrown by `Project.create` and
      answered 500 by the catch-all. */
  function CreateProject(db: Db, caller: UserId, wsId: WorkspaceId, req: ProjectRequest): (r: CreateReply)
    ensures wsId >= |db.workspaces| ==> r.code == 404 && r.db == db
    ensures wsId < |db.workspaces| && !HasMember(db.workspaces[wsId].members, caller)
            ==> r.code == 403 && r.db == db
    ensures wsId < |db.workspaces| && HasMember(db.workspaces[wsId].members, caller)
            && NewProject(CreateFields(db.workspaces[wsId], wsId, caller, req)).None?
            ==> r.code == 500
    ensures r.code != 201 ==> r.db == db && r.project.None?
    ensures r.code == 201 <==>
      && wsId < |db.workspaces|
      && HasMember(db.workspaces[wsId].members, caller)
      && req.title.Some? && Trim(req.title.value) != ""
      && (req.status.Some? ==> req.status.value in StatusLabels)
    ensures r.code == 201 ==>
      var id := |db.projects|;
      var ws := db.workspaces[wsId];
      && r.project == Some(id)
      && |r.db.projects| == id + 1
      && Some(r.db.projects[id]) == NewProject(CreateFields(ws, wsId, caller, req))
      && r.db.projects[..id] == db.projects
      && Conforms(r.db.projects[id])
      && r.db.projects[id].members == ws.members
      && r.db.projects[id].workspace == wsId
      && r.db.projects[id].createdBy == caller
      && r.db.projects[id].tags == ParseTags(req.tags)
      && r.db.projects[id].progress == DefaultProgress
      && !r.db.projects[id].isArchived
      && |r.db.workspaces| == |db.workspaces|
      && r.db.workspaces[wsId] == ws.(projects := ws.projects + [id])
      && (forall w :: 0 <= w < |db.workspaces| && w != wsId ==> r.db.workspaces[w] == db.workspaces[w])
      && r.db.tasks == db.tasks
  {
    if wsId >= |db.workspaces| then CreateReply(404, "Workspace not found", db, None)
    else
      var ws := db.workspaces[wsId];
      if !HasMember(ws.members, caller) then
        CreateReply(403, "You are not a member of this workspace", db, None)
      else match NewProject(CreateFields(ws, wsId, caller, req))
        case None => CreateReply(500, "Internal server error", db, None)
        case Some(p) =>
          var d := AddProject(db, wsId, p);
          assert d.projects[|db.projects|] == p;
          CreateReply(201, "Created", d, Some(|db.projects|))
  }

  /** What a read handler answers, with the project and task list on success. */
  datatype ReadReply = ReadReply(code: nat, message: string, project: Option<Project>, tasks: seq<Task>)

  /** The gate both read handlers apply before anything else. */
  function ReadGate(db: Db, caller: UserId, pid: ProjectId): (r: Option<ReadReply>)
    ensures r.None? <==> pid < |db.projects| && HasMember(db.projects[pid].members, caller)
    ensures r.Some? ==> r.value.project.None? && r.value.tasks == []
    ensures r.Some? ==> (r.value.code == 404 <==> pid >= |db.projects|)
    ensures r.Some? ==> r.value.code == 404 || r.value.code == 403
  {
    if pid >= |db.projects| then Some(ReadReply(404, "Project not found", None, []))
    else if !HasMember(db.projects[pid].members, caller) then
      Some(ReadReply(403, "You are not a member of this project", None, []))
    else None
  }

  /** `getProjectDetails`. */
  function GetProjectDetails(db: Db, caller: UserId, pid: ProjectId): (r: ReadReply)
    ensures r.code == 200 <==> pid < |db.projects| && HasMember(db.projects[pid].members, caller)
    ensures r.code != 200 ==> r == ReadGate(db, caller, pid).value
    ensures r.code == 200 ==> r.project == Some(db.projects[pid])
  {
    match ReadGate(db, caller, pid)
    case Some(denied) => denied
    case None => ReadReply(200, "OK", Some(db.projects[pid]), [])
  }

  /** `getProjectTasks`: after the same gate, the project's non-archived tasks,
      newest first. */
  function GetProjectTasks(db: Db, caller: UserId, pid: ProjectId): (r: ReadReply)
    ensures r.code == 200 <==> pid < |db.projects| && HasMember(db.projects[pid].members, caller)
    ensures r.code != 200 ==> r == ReadGate(db, caller, pid).value
    ensures r.code == 200 ==>
      && r.project == Some(db.projects[pid])
      && NewestFirst(r.tasks)
      && forall t :: multiset(r.tasks)[t] == if IsLive(t, pid) then multiset(db.tasks)[t] else 0
  {
    match ReadGate(db, caller, pid)
    case Some(denied) => denied
    case None =>
      LiveMultiset(db.tasks, pid);
      ReadReply(200, "OK", Some(db.projects[pid]), SortNewestFirst(Live(db.tasks, pid)))
  }

  /** A new project's readers are exactly the members of its workspace at
      creation time, the creator among them. */
  lemma CreatedProjectReaders(db: Db, caller: UserId, wsId: WorkspaceId, req: ProjectRequest, u: UserId)
    requires wsId < |db.workspaces| && HasMember(db.workspaces[wsId].members, caller)
    requires req.title.Some? && Trim(req.title.value) != ""
    requires req.status.Some? ==> req.status.value in StatusLabels
    ensures var r := CreateProject(db, caller, wsId, req);
            && (GetProjectDetails(r.db, u, r.project.value).code == 200
                <==> HasMember(db.workspaces[wsId].members, u))
            && GetProjectDetails(r.db, caller, r.project.value).code == 200
  {
  }
}
