/**
 * The relational store behind every route handler, held in memory: one
 * table per model, each a sequence of stamped rows in creation order, and a
 * clock that stands for `createdAt` and for the generated ids. The
 * constraints the database enforces (unique email, unique workspace slug,
 * foreign keys) are checked by the insert operations, which fail instead of
 * inserting, exactly where the database would throw.
 */
module Store {
  import opened Common

  datatype Role = OWNER | ADMIN | MEMBER
  datatype Status = TODO | IN_PROGRESS | DONE
  datatype Priority = LOW | MEDIUM | HIGH | URGENT

  datatype User = User(name: Option<string>, email: string, password: Option<string>, image: Option<string>)
  datatype Workspace = Workspace(name: string, slug: string)
  datatype Member = Member(userId: string, workspaceId: string, role: Role)
  datatype Project = Project(name: string, description: Option<string>, workspaceId: string, createdById: string)
  datatype Task = Task(title: string, description: Option<string>, status: Status, priority: Priority,
                       dueDate: Option<string>, projectId: string, createdById: string, assigneeId: Option<string>)
  datatype Note = Note(title: string, content: string, projectId: string, createdById: string)
  datatype Comment = Comment(body: string, taskId: Option<string>, noteId: Option<string>, authorId: string)
  datatype Notification = Notification(userId: string, title: string, message: Option<string>, kind: string, read: bool)
  /** The JSON `metadata` column of an activity log: `{}` or a given value. */
  datatype Metadata = EmptyObject | Value(json: Field)
  datatype ActivityLog = ActivityLog(workspaceId: string, userId: string, action: string, entityType: string,
                                     entityId: string, metadata: Metadata)

  /** A snapshot of every table, and the clock that stamps the next row. */
  datatype Tables = Tables(
    users: seq<Row<User>>,
    workspaces: seq<Row<Workspace>>,
    members: seq<Row<Member>>,
    projects: seq<Row<Project>>,
    tasks: seq<Row<Task>>,
    notes: seq<Row<Note>>,
    comments: seq<Row<Comment>>,
    notifications: seq<Row<Notification>>,
    activity: seq<Row<ActivityLog>>,
    clock: nat)

  predicate UniqueEmails(users: seq<Row<User>>) {
    forall i, j :: 0 <= i < j < |users| ==> users[i].data.email != users[j].data.email
  }

  predicate UniqueSlugs(workspaces: seq<Row<Workspace>>) {
    forall i, j :: 0 <= i < j < |workspaces| ==> workspaces[i].data.slug != workspaces[j].data.slug
  }

  /** Every membership links an existing user to an existing workspace. */
  predicate MembersLinked(t: Tables) {
    forall m :: m in t.members ==> m.data.userId in Ids(t.users) && m.data.workspaceId in Ids(t.workspaces)
  }

  predicate WellFormed(t: Tables) {
    && Stamped(t.users, t.clock) && Stamped(t.workspaces, t.clock) && Stamped(t.members, t.clock)
    && Stamped(t.projects, t.clock) && Stamped(t.tasks, t.clock) && Stamped(t.notes, t.clock)
    && Stamped(t.comments, t.clock) && Stamped(t.notifications, t.clock) && Stamped(t.activity, t.clock)
    && UniqueEmails(t.users) && UniqueSlugs(t.workspaces)
    && MembersLinked(t)
  }

  // ---------------------------------------------------------------------
  // Lookups shared by the handlers
  // ---------------------------------------------------------------------

  predicate EmailTaken(t: Tables, email: string) {
    exists u :: u in t.users && u.data.email == email
  }

  predicate SlugTaken(t: Tables, slug: string) {
    exists w :: w in t.workspaces && w.data.slug == slug
  }

  /** `workspaceMember.findFirst({ where: { workspaceId, userId } })` finds a row. */
  predicate IsMember(t: Tables, userId: string, workspaceId: string) {
    exists m :: m in t.members && m.data.userId == userId && m.data.workspaceId == workspaceId
  }

  /** The caller's memberships, in table order. */
  function MembershipsOf(t: Tables, userId: string): (r: seq<Row<Member>>)
    ensures forall m :: m in r <==> m in t.members && m.data.userId == userId
  {
    Select(t.members, OfUser(userId))
  }

  /** The `where: { userId }` filter on memberships. */
  function OfUser(userId: string): Row<Member> -> bool {
    (m: Row<Member>) => m.data.userId == userId
  }

  /** A membership added to the table is listed last among its user's. */
  lemma MembershipsAppend(t: Tables, m: Row<Member>, userId: string)
    ensures MembershipsOf(t.(members := t.members + [m]), userId) ==
              MembershipsOf(t, userId) + (if m.data.userId == userId then [m] else [])
  {
    SelectAppend(t.members, m, OfUser(userId));
  }

  /** `user.findUnique({ where: { email } })`. */
  function FindUserByEmail(users: seq<Row<User>>, email: string): (r: Option<Row<User>>)
    ensures r.Some? <==> exists u :: u in users && u.data.email == email
    ensures r.Some? ==> r.value in users && r.value.data.email == email
  {
    if users == [] then None
    else if users[0].data.email == email then Some(users[0])
    else
      var r := FindUserByEmail(users[1..], email);
      assert forall u :: u in users <==> u == users[0] || u in users[1..];
      r
  }

  /** With unique emails, the row found by email is the only one. */
  lemma FoundUserIsUnique(users: seq<Row<User>>, email: string, u: Row<User>)
    requires UniqueEmails(users)
    requires u in users && u.data.email == email
    ensures FindUserByEmail(users, email) == Some(u)
  {
    var f := FindUserByEmail(users, email).value;
    var i :| 0 <= i < |users| && users[i] == u;
    var j :| 0 <= j < |users| && users[j] == f;
    assert i == j;
  }

  /** A member's user and workspace both exist. */
  lemma MemberLinks(t: Tables, userId: string, workspaceId: string)
    requires WellFormed(t) && IsMember(t, userId, workspaceId)
    ensures userId in Ids(t.users) && workspaceId in Ids(t.workspaces)
  {
  }

  // ---------------------------------------------------------------------
  // Foreign keys checked on insert
  // ---------------------------------------------------------------------

  predicate OptionalRef(ref: Option<string>, ids: set<string>) {
    ref.None? || ref.value in ids
  }

  predicate MemberRefsOk(t: Tables, m: Member) {
    m.userId in Ids(t.users) && m.workspaceId in Ids(t.workspaces)
  }

  predicate ProjectRefsOk(t: Tables, p: Project) {
    p.workspaceId in Ids(t.workspaces) && p.createdById in Ids(t.users)
  }

  predicate TaskRefsOk(t: Tables, task: Task) {
    task.projectId in Ids(t.projects) && task.createdById in Ids(t.users) && OptionalRef(task.assigneeId, Ids(t.users))
  }

  predicate NoteRefsOk(t: Tables, n: Note) {
    n.projectId in Ids(t.projects) && n.createdById in Ids(t.users)
  }

  predicate CommentRefsOk(t: Tables, c: Comment) {
    OptionalRef(c.taskId, Ids(t.tasks)) && OptionalRef(c.noteId, Ids(t.notes)) && c.authorId in Ids(t.users)
  }

  predicate ActivityRefsOk(t: Tables, a: ActivityLog) {
    a.workspaceId in Ids(t.workspaces) && a.userId in Ids(t.users)
  }

  /** The row the store creates at tick `clock`. */
  function NewRow<T>(clock: nat, data: T): Row<T> {
    Row(IdFor(clock), clock, data)
  }

  /** A later clock keeps every table stamped. A proof step only: it lets
      the insert proofs unfold the well-formedness predicate once. */
  lemma Later(t: Tables)
    requires WellFormed(t)
    ensures WellFormed(t.(clock := t.clock + 1))
  {
  }

  /** Tables other than `members` stay stamped when the clock advances. */
  lemma Tick(t: Tables, t': Tables)
    requires WellFormed(t) && t'.clock == t.clock + 1
    requires t'.users == t.users && t'.workspaces == t.workspaces && t'.projects == t.projects && t'.tasks == t.tasks
    requires t'.notes == t.notes && t'.comments == t.comments && t'.notifications == t.notifications && t'.activity == t.activity
    ensures Stamped(t'.users, t'.clock) && Stamped(t'.workspaces, t'.clock) && Stamped(t'.projects, t'.clock)
    ensures Stamped(t'.tasks, t'.clock) && Stamped(t'.notes, t'.clock) && Stamped(t'.comments, t'.clock)
    ensures Stamped(t'.notifications, t'.clock) && Stamped(t'.activity, t'.clock)
    ensures UniqueEmails(t'.users) && UniqueSlugs(t'.workspaces)
  {
  }

  /** Adding a user with a fresh email keeps the store well formed. */
  lemma AddUserKeepsWellFormed(t: Tables, u: User)
    requires WellFormed(t) && !EmailTaken(t, u.email)
    ensures WellFormed(t.(users := t.users + [NewRow(t.clock, u)], clock := t.clock + 1))
  {
    Later(t);
    StampedAppend(t.users, t.clock, u);
    var users := t.users + [NewRow(t.clock, u)];
    forall i, j | 0 <= i < j < |users| ensures users[i].data.email != users[j].data.email {
      if j == |t.users| {
        assert t.users[i] in t.users;
      }
    }
  }

  /** Adding a workspace with a fresh slug keeps the store well formed. */
  lemma AddWorkspaceKeepsWellFormed(t: Tables, w: Workspace)
    requires WellFormed(t) && !SlugTaken(t, w.slug)
    ensures WellFormed(t.(workspaces := t.workspaces + [NewRow(t.clock, w)], clock := t.clock + 1))
  {
    Later(t);
    StampedAppend(t.workspaces, t.clock, w);
    var ws := t.workspaces + [NewRow(t.clock, w)];
    forall i, j | 0 <= i < j < |ws| ensures ws[i].data.slug != ws[j].data.slug {
      if j == |t.workspaces| {
        assert t.workspaces[i] in t.workspaces;
      }
    }
  }

  /** Adding a membership whose user and workspace exist keeps the store well formed. */
  lemma AddMemberKeepsWellFormed(t: Tables, m: Member)
    requires WellFormed(t) && MemberRefsOk(t, m)
    ensures WellFormed(t.(members := t.members + [NewRow(t.clock, m)], clock := t.clock + 1))
  {
    var t' := t.(members := t.members + [NewRow(t.clock, m)], clock := t.clock + 1);
    StampedAppend(t.members, t.clock, m);
    LinkedAppend(t, m, t');
    Tick(t, t');
  }

  lemma LinkedAppend(t: Tables, m: Member, t': Tables)
    requires MembersLinked(t) && MemberRefsOk(t, m)
    requires t'.members == t.members + [NewRow(t.clock, m)] && t'.users == t.users && t'.workspaces == t.workspaces
    ensures MembersLinked(t')
  {
    forall x | x in t'.members ensures x.data.userId in Ids(t.users) && x.data.workspaceId in Ids(t.workspaces) {
      if x != NewRow(t.clock, m) {
        assert x in t.members;
      }
    }
  }

  /** Appending a task keeps the store well formed. */
  lemma AddTaskKeepsWellFormed(t: Tables, task: Task)
    requires WellFormed(t)
    ensures WellFormed(t.(tasks := t.tasks + [NewRow(t.clock, task)], clock := t.clock + 1))
  {
    Later(t);
    StampedAppend(t.tasks, t.clock, task);
  }

  /** Appending a project keeps the store well formed. */
  lemma AddProjectKeepsWellFormed(t: Tables, p: Project)
    requires WellFormed(t)
    ensures WellFormed(t.(projects := t.projects + [NewRow(t.clock, p)], clock := t.clock + 1))
  {
    Later(t);
    StampedAppend(t.projects, t.clock, p);
  }

  /** Appending a note keeps the store well formed. */
  lemma AddNoteKeepsWellFormed(t: Tables, n: Note)
    requires WellFormed(t)
    ensures WellFormed(t.(notes := t.notes + [NewRow(t.clock, n)], clock := t.clock + 1))
  {
    Later(t);
    StampedAppend(t.notes, t.clock, n);
  }

  /** Appending a comment keeps the store well formed. */
  lemma AddCommentKeepsWellFormed(t: Tables, c: Comment)
    requires WellFormed(t)
    ensures WellFormed(t.(comments := t.comments + [NewRow(t.clock, c)], clock := t.clock + 1))
  {
    Later(t);
    StampedAppend(t.comments, t.clock, c);
  }

  /** Appending an activity row keeps the store well formed. */
  lemma AddActivityKeepsWellFormed(t: Tables, a: ActivityLog)
    requires WellFormed(t)
    ensures WellFormed(t.(activity := t.activity + [NewRow(t.clock, a)], clock := t.clock + 1))
  {
    Later(t);
    StampedAppend(t.activity, t.clock, a);
  }

  /** The database: one mutable table per model. */
  class Database {
    var users: seq<Row<User>>
    var workspaces: seq<Row<Workspace>>
    var members: seq<Row<Member>>
    var projects: seq<Row<Project>>
    var tasks: seq<Row<Task>>
    var notes: seq<Row<Note>>
    var comments: seq<Row<Comment>>
    var notifications: seq<Row<Notification>>
    var activity: seq<Row<ActivityLog>>
    var clock: nat

    function State(): Tables
      reads this
    {
      Tables(users, workspaces, members, projects, tasks, notes, comments, notifications, activity, clock)
    }

    predicate Valid()
      reads this
    {
      WellFormed(State())
    }

    /** A database holding the given well-formed contents. */
    constructor (init: Tables)
      requires WellFormed(init)
      ensures Valid() && State() == init
    {
      users, workspaces, members := init.users, init.workspaces, init.members;
      projects, tasks, notes, comments := init.projects, init.tasks, init.notes, init.comments;
      notifications, activity, clock := init.notifications, init.activity, init.clock;
    }

    /** `user.create`; fails on a taken email (unique constraint). */
    method InsertUser(u: User) returns (row: Option<Row<User>>)
      requires Valid()
      modifies this
      ensures Valid()
      ensures row.Some? <==> !EmailTaken(old(State()), u.email)
      ensures row.None? ==> State() == old(State())
      ensures row.Some? ==> row.value == NewRow(old(clock), u)
      ensures row.Some? ==> State() == old(State()).(users := old(users) + [row.value], clock := old(clock) + 1)
    {
      if EmailTaken(State(), u.email) {
        return None;
      }
      var t := State();
      AddUserKeepsWellFormed(t, u);
      var r := NewRow(clock, u);
      users, clock := users + [r], clock + 1;
      assert State() == t.(users := t.users + [r], clock := t.clock + 1);
      row := Some(r);
    }

    /** `workspace.create`; fails on a taken slug (unique constraint). */
    method InsertWorkspace(w: Workspace) returns (row: Option<Row<Workspace>>)
      requires Valid()
      modifies this
      ensures Valid()
      ensures row.Some? <==> !SlugTaken(old(State()), w.slug)
      ensures row.None? ==> State() == old(State())
      ensures row.Some? ==> row.value == NewRow(old(clock), w)
      ensures row.Some? ==> State() == old(State()).(workspaces := old(workspaces) + [row.value], clock := old(clock) + 1)
    {
      if SlugTaken(State(), w.slug) {
        return None;
      }
      var t := State();
      AddWorkspaceKeepsWellFormed(t, w);
      var r := NewRow(clock, w);
      workspaces, clock := workspaces + [r], clock + 1;
      assert State() == t.(workspaces := t.workspaces + [r], clock := t.clock + 1);
      row := Some(r);
    }

    /** `workspaceMember.create`; fails on a dangling user or workspace. */
    method InsertMember(m: Member) returns (row: Option<Row<Member>>)
      requires Valid()
      modifies this
      ensures Valid()
      ensures row.Some? <==> MemberRefsOk(old(State()), m)
      ensures row.None? ==> State() == old(State())
      ensures row.Some? ==> row.value == NewRow(old(clock), m)
      ensures row.Some? ==> State() == old(State()).(members := old(members) + [row.value], clock := old(clock) + 1)
    {
      if !MemberRefsOk(State(), m) {
        return None;
      }
      var t := State();
      AddMemberKeepsWellFormed(t, m);
      var r := NewRow(clock, m);
      members, clock := members + [r], clock + 1;
      assert State() == t.(members := t.members + [r], clock := t.clock + 1);
      row := Some(r);
    }

    /** `project.create`; fails on a dangling workspace or creator. */
    method InsertProject(p: Project) returns (row: Option<Row<Project>>)
      requires Valid()
      modifies this
      ensures Valid()
      ensures row.Some? <==> ProjectRefsOk(old(State()), p)
      ensures row.None? ==> State() == old(State())
      ensures row.Some? ==> row.value == NewRow(old(clock), p)
      ensures row.Some? ==> State() == old(State()).(projects := old(projects) + [row.value], clock := old(clock) + 1)
    {
      if !ProjectRefsOk(State(), p) {
        return None;
      }
      var t := State();
      AddProjectKeepsWellFormed(t, p);
      var r := NewRow(clock, p);
      projects, clock := projects + [r], clock + 1;
      assert State() == t.(projects := t.projects + [r], clock := t.clock + 1);
      row := Some(r);
    }

    /** `task.create`; fails on a dangling project, creator or assignee. */
    method InsertTask(task: Task) returns (row: Option<Row<Task>>)
      requires Valid()
      modifies this
      ensures Valid()
      ensures row.Some? <==> TaskRefsOk(old(State()), task)
      ensures row.None? ==> State() == old(State())
      ensures row.Some? ==> row.value == NewRow(old(clock), task)
      ensures row.Some? ==> State() == old(State()).(tasks := old(tasks) + [row.value], clock := old(clock) + 1)
    {
      if !TaskRefsOk(State(), task) {
        return None;
      }
      var t := State();
      AddTaskKeepsWellFormed(t, task);
      var r := NewRow(clock, task);
      tasks, clock := tasks + [r], clock + 1;
      assert State() == t.(tasks := t.tasks + [r], clock := t.clock + 1);
      row := Some(r);
    }

    /** `note.create`; fails on a dangling project or creator. */
    method InsertNote(n: Note) returns (row: Option<Row<Note>>)
      requires Valid()
      modifies this
      ensures Valid()
      ensures row.Some? <==> NoteRefsOk(old(State()), n)
      ensures row.None? ==> State() == old(State())
      ensures row.Some? ==> row.value == NewRow(old(clock), n)
      ensures row.Some? ==> State() == old(State()).(notes := old(notes) + [row.value], clock := old(clock) + 1)
    {
      if !NoteRefsOk(State(), n) {
        return None;
      }
      var t := State();
      AddNoteKeepsWellFormed(t, n);
      var r := NewRow(clock, n);
      notes, clock := notes + [r], clock + 1;
      assert State() == t.(notes := t.notes + [r], clock := t.clock + 1);
      row := Some(r);
    }

    /** `comment.create`; fails on a dangling task, note or author. */
    method InsertComment(c: Comment) returns (row: Option<Row<Comment>>)
      requires Valid()
      modifies this
      ensures Valid()
      ensures row.Some? <==> CommentRefsOk(old(State()), c)
      ensures row.None? ==> State() == old(State())
      ensures row.Some? ==> row.value == NewRow(old(clock), c)
      ensures row.Some? ==> State() == old(State()).(comments := old(comments) + [row.value], clock := old(clock) + 1)
    {
      if !CommentRefsOk(State(), c) {
        return None;
      }
      var t := State();
      AddCommentKeepsWellFormed(t, c);
      var r := NewRow(clock, c);
      comments, clock := comments + [r], clock + 1;
      assert State() == t.(comments := t.comments + [r], clock := t.clock + 1);
      row := Some(r);
    }

    /** `activityLog.create`; fails on a dangling workspace or actor. */
    method InsertActivity(a: ActivityLog) returns (row: Option<Row<ActivityLog>>)
      requires Valid()
      modifies this
      ensures Valid()
      ensures row.Some? <==> ActivityRefsOk(old(State()), a)
      ensures row.None? ==> State() == old(State())
      ensures row.Some? ==> row.value == NewRow(old(clock), a)
      ensures row.Some? ==> State() == old(State()).(activity := old(activity) + [row.value], clock := old(clock) + 1)
    {
      if !ActivityRefsOk(State(), a) {
        return None;
      }
      var t := State();
      AddActivityKeepsWellFormed(t, a);
      var r := NewRow(clock, a);
      activity, clock := activity + [r], clock + 1;
      assert State() == t.(activity := t.activity + [r], clock := t.clock + 1);
      row := Some(r);
    }

    /** `user.update({ where: { id }, data })`: sets the name, and the image
        when one is given; fails when no user has that id. */
    method UpdateUser(id: string, name: string, image: Option<string>) returns (row: Option<Row<User>>)
      requires Valid()
      modifies this
      ensures Valid()
      ensures row.Some? <==> id in Ids(old(users))
      ensures row.None? ==> State() == old(State())
      ensures row.Some? ==> State() == old(State()).(users := Renamed(old(users), id, name, image))
      ensures row.Some? ==> row == FindById(users, id)
    {
      if id !in Ids(users) {
        return None;
      }
      var t := State();
      RenamedKeepsWellFormed(t, id, name, image);
      users := Renamed(users, id, name, image);
      assert State() == t.(users := Renamed(t.users, id, name, image));
      row := FindById(users, id);
    }

    /** `notification.update({ where: { id, userId }, data: { read: true } })`:
        fails when no notification has that id and belongs to that user. */
    method MarkNotificationRead(id: string, userId: string) returns (found: bool)
      requires Valid()
      modifies this
      ensures Valid()
      ensures found <==> exists n :: n in old(notifications) && n.id == id && n.data.userId == userId
      ensures !found ==> State() == old(State())
      ensures found ==> State() == old(State()).(notifications := MarkRead(old(notifications), id, userId))
    {
      found := exists n :: n in notifications && n.id == id && n.data.userId == userId;
      if found {
        var t := State();
        MarkReadKeepsWellFormed(t, id, userId);
        notifications := MarkRead(notifications, id, userId);
        assert State() == t.(notifications := MarkRead(t.notifications, id, userId));
      }
    }

    /** `notification.updateMany({ where: { userId, read: false }, data: { read: true } })`. */
    method MarkAllNotificationsRead(userId: string)
      requires Valid()
      modifies this
      ensures Valid()
      ensures State() == old(State()).(notifications := MarkAllRead(old(notifications), userId))
    {
      var t := State();
      MarkAllReadKeepsWellFormed(t, userId);
      notifications := MarkAllRead(notifications, userId);
      assert State() == t.(notifications := MarkAllRead(t.notifications, userId));
    }
  }

  /** The columns `user.update` writes: the name always, the image only
      when one is given; e-mail and password stay. */
  function UserWith(u: User, name: string, image: Option<string>): (r: User)
    ensures r.name == Some(name) && r.email == u.email && r.password == u.password
    ensures r.image == if image.Some? then image else u.image
  {
    u.(name := Some(name), image := if image.Some? then image else u.image)
  }

  /** The user table after `user.update` of the row with this id: that
      row's columns become `UserWith`, and every other row, every id and
      the order stay as they were. */
  function Renamed(users: seq<Row<User>>, id: string, name: string, image: Option<string>): (r: seq<Row<User>>)
    ensures |r| == |users|
    ensures forall i :: 0 <= i < |users| ==>
              r[i] == if users[i].id == id then users[i].(data := UserWith(users[i].data, name, image)) else users[i]
  {
    UpdateMany(users, (u: Row<User>) => u.id == id, (u: User) => UserWith(u, name, image))
  }

  /** Renaming a user keeps the store well formed: ids, ticks and e-mails
      stay. */
  lemma RenamedKeepsWellFormed(t: Tables, id: string, name: string, image: Option<string>)
    requires WellFormed(t)
    ensures WellFormed(t.(users := Renamed(t.users, id, name, image)))
  {
    StampedUpdate(t.users, t.clock, (u: Row<User>) => u.id == id, (u: User) => UserWith(u, name, image));
    var users := Renamed(t.users, id, name, image);
    assert forall i :: 0 <= i < |users| ==> users[i].data.email == t.users[i].data.email;
  }

  /** The row the update answers with is the row that was found before it,
      with its columns replaced as `UserWith` says; a missing id stays
      missing. */
  lemma {:induction false} FindRenamed(users: seq<Row<User>>, id: string, name: string, image: Option<string>)
    ensures FindById(Renamed(users, id, name, image), id) ==
              if FindById(users, id).Some?
              then Some(FindById(users, id).value.(data := UserWith(FindById(users, id).value.data, name, image)))
              else None
  {
    if users != [] {
      var r := Renamed(users, id, name, image);
      assert r[1..] == Renamed(users[1..], id, name, image);
      if users[0].id != id {
        FindRenamed(users[1..], id, name, image);
      }
    }
  }

  function SetRead(n: Notification): Notification {
    n.(read := true)
  }

  /** The notification table after marking the one with this id and owner
      read: that row's `read` flag is set, and every other row, every other
      column and the order stay as they were. */
  function MarkRead(rows: seq<Row<Notification>>, id: string, userId: string): (r: seq<Row<Notification>>)
    ensures |r| == |rows|
    ensures forall i :: 0 <= i < |rows| ==> r[i] == if rows[i].id == id && rows[i].data.userId == userId
                                                   then rows[i].(data := rows[i].data.(read := true)) else rows[i]
  {
    UpdateMany(rows, (n: Row<Notification>) => n.id == id && n.data.userId == userId, SetRead)
  }

  /** The notification table after marking every unread one of this user
      read: those rows' `read` flags are set, every other row, every other
      column and the order stay as they were. */
  function MarkAllRead(rows: seq<Row<Notification>>, userId: string): (r: seq<Row<Notification>>)
    ensures |r| == |rows|
    ensures forall i :: 0 <= i < |rows| ==> r[i] == if rows[i].data.userId == userId
                                                   then rows[i].(data := rows[i].data.(read := true)) else rows[i]
  {
    UpdateMany(rows, (n: Row<Notification>) => n.data.userId == userId && !n.data.read, SetRead)
  }

  /** Marking one notification read keeps the store well formed. */
  lemma MarkReadKeepsWellFormed(t: Tables, id: string, userId: string)
    requires WellFormed(t)
    ensures WellFormed(t.(notifications := MarkRead(t.notifications, id, userId)))
  {
    StampedUpdate(t.notifications, t.clock, (n: Row<Notification>) => n.id == id && n.data.userId == userId, SetRead);
  }

  /** Marking all of a user's notifications read keeps the store well formed. */
  lemma MarkAllReadKeepsWellFormed(t: Tables, userId: string)
    requires WellFormed(t)
    ensures WellFormed(t.(notifications := MarkAllRead(t.notifications, userId)))
  {
    StampedUpdate(t.notifications, t.clock, (n: Row<Notification>) => n.data.userId == userId && !n.data.read, SetRead);
  }
}
