/**
 * The project collection of a workspace: listing and creation, both open
 * only to members of the workspace.
 */
module ProjectsRoute {
  import opened Common
  import opened Store

  /** The projects of a workspace, as the listing query selects them. */
  function InWorkspace(workspaceId: string): Row<Project> -> bool {
    (p: Row<Project>) => p.data.workspaceId == workspaceId
  }

  /** GET /api/projects?workspaceId=…: the workspace's projects, newest
      first, for a member of the workspace. */
  function ListProjects(t: Tables, caller: Option<string>, workspaceId: Option<string>): (r: Reply<seq<Row<Project>>>)
    requires WellFormed(t)
    ensures caller.None? ==> r == Unauthorized()
    ensures caller.Some? && !Given(workspaceId) ==> r == Err(400, "Workspace ID required")
    ensures caller.Some? && Given(workspaceId) && !IsMember(t, caller.value, workspaceId.value) ==> r == AccessDenied()
    ensures r.Ok? <==> caller.Some? && Given(workspaceId) && IsMember(t, caller.value, workspaceId.value)
    ensures r.Ok? ==> r.status == 200 && Descending(r.value)
    ensures r.Ok? ==> forall p :: p in r.value <==> p in t.projects && p.data.workspaceId == workspaceId.value
  {
    if caller.None? then Unauthorized()
    else if !Given(workspaceId) then Err(400, "Workspace ID required")
    else if !IsMember(t, caller.value, workspaceId.value) then AccessDenied()
    else Ok(200, FindMany(t.projects, InWorkspace(workspaceId.value)))
  }

  /** The creation schema: a name of at least two characters, an optional
      description and a workspace id. */
  predicate ProjectValid(name: Field, description: Field, workspaceId: Field) {
    name.Str? && |name.s| >= 2 && OptionalString(description) && workspaceId.Str?
  }

  /** POST /api/projects. An invalid body is answered 500, a caller outside
      the workspace 403; otherwise the project is stored with the caller
      as its creator and answered 201. */
  method CreateProject(db: Database, caller: Option<string>, name: Field, description: Field, workspaceId: Field)
    returns (r: Reply<Row<Project>>)
    requires db.Valid()
    modifies db
    ensures db.Valid()
    ensures r.Err? ==> db.State() == old(db.State())
    ensures caller.None? ==> r == Unauthorized()
    ensures caller.Some? && !ProjectValid(name, description, workspaceId) ==> r == Err(500, "Failed to create project")
    ensures caller.Some? && ProjectValid(name, description, workspaceId) && !IsMember(old(db.State()), caller.value, workspaceId.s) ==>
              r == AccessDenied()
    ensures caller.Some? && ProjectValid(name, description, workspaceId) && IsMember(old(db.State()), caller.value, workspaceId.s) ==>
              && r == Ok(201, NewRow(old(db.clock), Project(name.s, StringOrNone(description), workspaceId.s, caller.value)))
              && db.State() == old(db.State()).(projects := old(db.projects) + [r.value], clock := old(db.clock) + 1)
    ensures r.Ok? ==> workspaceId.Str? && ListProjects(db.State(), caller, Some(workspaceId.s)) ==
                        Ok(200, [r.value] + FindMany(old(db.projects), InWorkspace(workspaceId.s)))
  {
    if caller.None? {
      return Unauthorized();
    }
    if !ProjectValid(name, description, workspaceId) {
      return Err(500, "Failed to create project");
    }
    if !IsMember(db.State(), caller.value, workspaceId.s) {
      return AccessDenied();
    }
    var p := Project(name.s, StringOrNone(description), workspaceId.s, caller.value);
    MemberLinks(db.State(), caller.value, workspaceId.s);
    ProjectListedFirst(db.State(), caller.value, p);
    var row := db.InsertProject(p);
    r := Ok(201, row.value);
  }

  /** For a member, the listing is the workspace's projects, newest first.
      A proof step only: it unfolds the handler once, apart from the
      lemma that uses it, to keep that proof small. */
  lemma MemberProjects(t: Tables, caller: string, workspaceId: string)
    requires WellFormed(t) && IsMember(t, caller, workspaceId)
    ensures ListProjects(t, Some(caller), Some(workspaceId)) == Ok(200, FindMany(t.projects, InWorkspace(workspaceId)))
  {
  }

  /** A project stored by a member is listed first in its workspace, ahead
      of the workspace's earlier projects. */
  lemma ProjectListedFirst(t: Tables, caller: string, p: Project)
    requires WellFormed(t) && IsMember(t, caller, p.workspaceId)
    ensures var t' := t.(projects := t.projects + [NewRow(t.clock, p)], clock := t.clock + 1);
            WellFormed(t') &&
            ListProjects(t', Some(caller), Some(p.workspaceId)) ==
              Ok(200, [NewRow(t.clock, p)] + FindMany(t.projects, InWorkspace(p.workspaceId)))
  {
    var t' := t.(projects := t.projects + [NewRow(t.clock, p)], clock := t.clock + 1);
    AddProjectKeepsWellFormed(t, p);
    assert IsMember(t', caller, p.workspaceId) by {
      assert t'.members == t.members;
    }
    MemberProjects(t', caller, p.workspaceId);
    FindManyAppend(t.projects, NewRow(t.clock, p), InWorkspace(p.workspaceId));
  }
}
