/** The project document (backend/models/project.js): its status and role
    enumerations, defaults, bounds, and what `Project.create` does to the fields it
    is given before storing them (trim setters, defaults, required and enum
    validators). */
module Schema {
  import opened Base
  import opened Strings

  /** The project status enumeration: the strings the `status` validator accepts. */
  const StatusLabels: set<string> := {"Planning", "In Progress", "On Hold", "Completed", "Cancelled"}
  const DefaultStatus: string := "In Progress"

  /** The role enumeration of a project member. */
  datatype Role = Owner | Member | Admin | Viewer
  {
    function Label(): string
    {
      match this
      case Owner => "owner"
      case Member => "member"
      case Admin => "admin"
      case Viewer => "viewer"
    }
  }

  const RoleLabels: set<string> := {"owner", "member", "admin", "viewer"}
  const DefaultRole: Role := Member

  /** The role a stored member gets from a raw role value: the default when it is
      absent, the enum value when it is one of the labels, a validation failure
      otherwise. */
  function CastRole(raw: Option<string>): (r: Option<Role>)
    ensures raw.None? ==> r == Some(DefaultRole)
    ensures raw.Some? ==> (r.Some? <==> raw.value in RoleLabels)
    ensures raw.Some? && r.Some? ==> r.value.Label() == raw.value
  {
    match raw
    case None => Some(DefaultRole)
    case Some(s) =>
      if s == "owner" then Some(Owner)
      else if s == "member" then Some(Member)
      else if s == "admin" then Some(Admin)
      else if s == "viewer" then Some(Viewer)
      else None
  }

  /** One entry of a member list: a user and their role. */
  datatype Membership = Membership(user: UserId, role: Role)

  /** `members.some(m => m.user == u)`. */
  predicate HasMember(members: seq<Membership>, u: UserId)
  {
    exists k :: 0 <= k < |members| && members[k].user == u
  }

  const MinProgress: int := 0
  const MaxProgress: int := 100
  const DefaultProgress: int := 0

  /** A stored project. `status` is kept as the raw string that was written:
      `Project.create` validates it against the enum, but a later
      `findByIdAndUpdate` does not run validators. */
  datatype Project = Project(
    title: string,
    description: Option<string>,
    workspace: WorkspaceId,
    status: string,
    progress: int,
    members: seq<Membership>,
    tags: seq<string>,
    createdBy: UserId,
    isArchived: bool)

  /** What the validators check when a document is saved: `title` present and
      non-empty, `status` in the enumeration, `progress` within bounds. The
      ids and member roles are present and in range by construction. */
  predicate Validates(p: Project)
  {
    && p.title != ""
    && p.status in StatusLabels
    && MinProgress <= p.progress <= MaxProgress
  }

  /** A document as `Project.create` stores it: validated, with the trim setters
      applied. */
  predicate Conforms(p: Project)
  {
    && Validates(p)
    && Trimmed(p.title)
    && (p.description.Some? ==> Trimmed(p.description.value))
  }

  /** The fields handed to `Project.create`; `None` is a field left undefined. */
  datatype ProjectFields = ProjectFields(
    title: Option<string>,
    description: Option<string>,
    status: Option<string>,
    progress: Option<int>,
    workspace: Option<WorkspaceId>,
    members: seq<Membership>,
    tags: seq<string>,
    createdBy: Option<UserId>)

  /** Document construction by the schema: trim setters, then defaults, then the
      required, enum and min/max validators. `None` is a validation error. */
  function NewProject(f: ProjectFields): (r: Option<Project>)
    ensures r.Some? <==>
      && f.title.Some? && Trim(f.title.value) != ""
      && (f.status.Some? ==> f.status.value in StatusLabels)
      && (f.progress.Some? ==> MinProgress <= f.progress.value <= MaxProgress)
      && f.workspace.Some? && f.createdBy.Some?
    ensures r.Some? ==> Conforms(r.value)
    ensures r.Some? ==>
      && r.value.title == Trim(f.title.value)
      && r.value.description == (if f.description.Some? then Some(Trim(f.description.value)) else None)
      && r.value.status == (if f.status.Some? then f.status.value else DefaultStatus)
      && r.value.progress == (if f.progress.Some? then f.progress.value else DefaultProgress)
      && r.value.workspace == f.workspace.value
      && r.value.createdBy == f.createdBy.value
      && r.value.members == f.members
      && r.value.tags == f.tags
      && !r.value.isArchived
  {
    if f.title.None? || f.workspace.None? || f.createdBy.None? then None
    else
      var title := Trim(f.title.value);
      var description := if f.description.Some? then Some(Trim(f.description.value)) else None;
      var status := if f.status.Some? then f.status.value else DefaultStatus;
      var progress := if f.progress.Some? then f.progress.value else DefaultProgress;
      if title == "" || status !in StatusLabels || !(MinProgress <= progress <= MaxProgress) then None
      else
        Some(Project(title, description, f.workspace.value, status, progress,
                     f.members, f.tags, f.createdBy.value, false))
  }
}
