/**
 * The collection of tasks: a listing filtered by whichever of project, status
 * and assignee the query gives (any signed-in caller may list any
 * project's tasks), and creation under a project of a workspace the
 * caller belongs to, with the schema's defaults for status and priority.
 */
module TasksRoute {
  import opened Common
  import opened Store

  function StatusName(s: Status): string {
    match s
    case TODO => "TODO"
    case IN_PROGRESS => "IN_PROGRESS"
    case DONE => "DONE"
  }

  function PriorityName(p: Priority): string {
    match p
    case LOW => "LOW"
    case MEDIUM => "MEDIUM"
    case HIGH => "HIGH"
    case URGENT => "URGENT"
  }

  /** The status a string names, if any. */
  function ParseStatus(s: string): (r: Option<Status>)
    ensures r.Some? <==> exists st :: StatusName(st) == s
    ensures r.Some? ==> StatusName(r.value) == s
  {
    assert StatusName(TODO) == "TODO" && StatusName(IN_PROGRESS) == "IN_PROGRESS" && StatusName(DONE) == "DONE";
    if s == "TODO" then Some(TODO)
    else if s == "IN_PROGRESS" then Some(IN_PROGRESS)
    else if s == "DONE" then Some(DONE)
    else None
  }

  /** The priority a string names, if any. */
  function ParsePriority(s: string): (r: Option<Priority>)
    ensures r.Some? <==> exists p :: PriorityName(p) == s
    ensures r.Some? ==> PriorityName(r.value) == s
  {
    assert PriorityName(LOW) == "LOW" && PriorityName(MEDIUM) == "MEDIUM" && PriorityName(HIGH) == "HIGH"
      && PriorityName(URGENT) == "URGENT";
    if s == "LOW" then Some(LOW)
    else if s == "MEDIUM" then Some(MEDIUM)
    else if s == "HIGH" then Some(HIGH)
    else if s == "URGENT" then Some(URGENT)
    else None
  }

  // ---------------------------------------------------------------------
  // GET
  // ---------------------------------------------------------------------

  /** The `where` object the listing builds: one condition per given
      parameter, all of them required. */
  predicate TaskMatches(task: Row<Task>, projectId: Option<string>, status: Option<string>, assigneeId: Option<string>) {
    && (Given(projectId) ==> task.data.projectId == projectId.value)
    && (Given(status) ==> StatusName(task.data.status) == status.value)
    && (Given(assigneeId) ==> task.data.assigneeId == Some(assigneeId.value))
  }

  /** GET /api/tasks?projectId=…&status=…&assigneeId=…: every task matching
      all given filters, newest first. A status naming no status makes the
      query fail, which is answered 500. Membership is not consulted: the
      answer is the same for every signed-in caller. */
  function ListTasks(t: Tables, caller: Option<string>, projectId: Option<string>, status: Option<string>,
                     assigneeId: Option<string>): (r: Reply<seq<Row<Task>>>)
    requires WellFormed(t)
    ensures caller.None? ==> r == Unauthorized()
    ensures caller.Some? && Given(status) && ParseStatus(status.value).None? ==> r == Err(500, "Failed to fetch tasks")
    ensures r.Ok? <==> caller.Some? && (Given(status) ==> ParseStatus(status.value).Some?)
    ensures r.Ok? ==> r.status == 200 && Descending(r.value)
    ensures r.Ok? ==> forall x :: x in r.value <==> x in t.tasks && TaskMatches(x, projectId, status, assigneeId)
  {
    if caller.None? then Unauthorized()
    else if Given(status) && ParseStatus(status.value).None? then Err(500, "Failed to fetch tasks")
    else Ok(200, FindMany(t.tasks, (x: Row<Task>) => TaskMatches(x, projectId, status, assigneeId)))
  }

  // ---------------------------------------------------------------------
  // POST
  // ---------------------------------------------------------------------

  datatype TaskBody = TaskBody(title: Field, description: Field, status: Field, priority: Field,
                               dueDate: Field, projectId: Field, assigneeId: Field)

  /** `z.enum([...]).default(d)`: missing gives the default, a string must
      name a member, anything else fails. */
  function StatusField(f: Field): (r: Option<Status>)
    ensures f.Absent? ==> r == Some(TODO)
    ensures f.Str? ==> (r.Some? <==> exists st :: StatusName(st) == f.s)
    ensures f.Str? && r.Some? ==> StatusName(r.value) == f.s
    ensures f.Other? ==> r.None?
  {
    match f
    case Absent => Some(TODO)
    case Str(s) => ParseStatus(s)
    case Other(_) => None
  }

  function PriorityField(f: Field): (r: Option<Priority>)
    ensures f.Absent? ==> r == Some(MEDIUM)
    ensures f.Str? ==> (r.Some? <==> exists p :: PriorityName(p) == f.s)
    ensures f.Str? && r.Some? ==> PriorityName(r.value) == f.s
    ensures f.Other? ==> r.None?
  {
    match f
    case Absent => Some(MEDIUM)
    case Str(s) => ParsePriority(s)
    case Other(_) => None
  }

  /** The creation schema: a non-empty title, optional description, due
      date and assignee, an enumerated status and priority, a project id. */
  predicate TaskValid(b: TaskBody) {
    && b.title.Str? && |b.title.s| >= 1
    && OptionalString(b.description)
    && StatusField(b.status).Some?
    && PriorityField(b.priority).Some?
    && OptionalString(b.dueDate)
    && b.projectId.Str?
    && OptionalString(b.assigneeId)
  }

  /** The row the handler writes for a valid body: the parsed fields,
      no due date unless a non-empty one is given, the caller as creator. */
  function NewTask(b: TaskBody, caller: string): (task: Task)
    requires TaskValid(b)
    ensures task.createdById == caller && task.projectId == b.projectId.s && task.title == b.title.s
    ensures task.dueDate.None? <==> !Truthy(b.dueDate)
    ensures task.dueDate.Some? ==> task.dueDate.value == b.dueDate.s
    ensures task.description == StringOrNone(b.description) && task.assigneeId == StringOrNone(b.assigneeId)
    ensures b.status.Absent? ==> task.status == TODO
    ensures b.priority.Absent? ==> task.priority == MEDIUM
    ensures b.status.Str? ==> StatusName(task.status) == b.status.s
    ensures b.priority.Str? ==> PriorityName(task.priority) == b.priority.s
  {
    Task(b.title.s, StringOrNone(b.description), StatusField(b.status).value, PriorityField(b.priority).value,
         if Truthy(b.dueDate) then Some(b.dueDate.s) else None,
         b.projectId.s, caller, StringOrNone(b.assigneeId))
  }

  /** The workspace of the project with this id, if the project exists. */
  function ProjectWorkspace(t: Tables, projectId: string): (r: Option<string>)
    ensures r.Some? <==> projectId in Ids(t.projects)
    ensures r.Some? ==> exists p :: p in t.projects && p.id == projectId && r.value == p.data.workspaceId
  {
    match FindById(t.projects, projectId)
    case None => None
    case Some(p) => Some(p.data.workspaceId)
  }

  /** POST /api/tasks. An invalid body is answered 500; an unknown project
      404, before membership is looked at; a caller outside the project's
      workspace 403; an assignee that is not a user makes the insert fail,
      answered 500. Otherwise the new task row is stored and answered 201. */
  method CreateTask(db: Database, caller: Option<string>, b: TaskBody) returns (r: Reply<Row<Task>>)
    requires db.Valid()
    modifies db
    ensures db.Valid()
    ensures r.Err? ==> db.State() == old(db.State())
    ensures caller.None? ==> r == Unauthorized()
    ensures caller.Some? && !TaskValid(b) ==> r == Err(500, "Failed to create task")
    ensures caller.Some? && TaskValid(b) && ProjectWorkspace(old(db.State()), b.projectId.s).None? ==>
              r == Err(404, "Project not found")
    ensures caller.Some? && TaskValid(b) && ProjectWorkspace(old(db.State()), b.projectId.s).Some? ==>
              var ws := ProjectWorkspace(old(db.State()), b.projectId.s).value;
              var task := NewTask(b, caller.value);
              if !IsMember(old(db.State()), caller.value, ws) then r == AccessDenied()
              else if !OptionalRef(task.assigneeId, Ids(old(db.users))) then r == Err(500, "Failed to create task")
              else
                && r == Ok(201, NewRow(old(db.clock), task))
                && db.State() == old(db.State()).(tasks := old(db.tasks) + [r.value], clock := old(db.clock) + 1)
  {
    if caller.None? {
      return Unauthorized();
    }
    if !TaskValid(b) {
      return Err(500, "Failed to create task");
    }
    var ws := ProjectWorkspace(db.State(), b.projectId.s);
    if ws.None? {
      return Err(404, "Project not found");
    }
    if !IsMember(db.State(), caller.value, ws.value) {
      return AccessDenied();
    }
    MemberLinks(db.State(), caller.value, ws.value);
    var row := db.InsertTask(NewTask(b, caller.value));
    if row.None? {
      return Err(500, "Failed to create task");
    }
    r := Ok(201, row.value);
  }

  /** A stored task is listed first by the listing filtered on its project
      (and on its status and assignee), for any signed-in caller. */
  lemma NewTaskListedFirst(t: Tables, caller: string, task: Task)
    requires WellFormed(t)
    ensures var t' := t.(tasks := t.tasks + [NewRow(t.clock, task)], clock := t.clock + 1);
            var matches := (x: Row<Task>) => TaskMatches(x, Some(task.projectId), Some(StatusName(task.status)), task.assigneeId);
            WellFormed(t') &&
            ListTasks(t', Some(caller), Some(task.projectId), Some(StatusName(task.status)), task.assigneeId) ==
              Ok(200, [NewRow(t.clock, task)] + FindMany(t.tasks, matches))
  {
    var status := Some(StatusName(task.status));
    AddTaskKeepsWellFormed(t, task);
    assert ParseStatus(StatusName(task.status)).Some?;
    FindManyAppend(t.tasks, NewRow(t.clock, task), (x: Row<Task>) => TaskMatches(x, Some(task.projectId), status, task.assigneeId));
  }
}
