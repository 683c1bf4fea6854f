/**
 * The note collection: a listing filtered by project and by the
 * workspace of the note's project, and creation under a project. Neither
 * consults membership, and creation does not look the project up first:
 * a project id that names no project makes the insert itself fail.
 */
module NotesRoute {
  import opened Common
  import opened Store

  /** The note's project belongs to the workspace. */
  predicate InProjectOf(t: Tables, n: Row<Note>, workspaceId: string) {
    exists p :: p in t.projects && p.id == n.data.projectId && p.data.workspaceId == workspaceId
  }

  /** The `where` object the listing builds from the given parameters. */
  predicate NoteMatches(t: Tables, n: Row<Note>, projectId: Option<string>, workspaceId: Option<string>) {
    && (Given(projectId) ==> n.data.projectId == projectId.value)
    && (Given(workspaceId) ==> InProjectOf(t, n, workspaceId.value))
  }

  /** GET /api/notes?projectId=…&workspaceId=…: every note matching all
      given filters (every note when none is given), newest first, whoever
      the signed-in caller is. */
  function ListNotes(t: Tables, caller: Option<string>, projectId: Option<string>, workspaceId: Option<string>)
    : (r: Reply<seq<Row<Note>>>)
    requires WellFormed(t)
    ensures caller.None? <==> r == Unauthorized()
    ensures r.Ok? <==> caller.Some?
    ensures r.Ok? ==> r.status == 200 && Descending(r.value)
    ensures r.Ok? ==> forall n :: n in r.value <==> n in t.notes && NoteMatches(t, n, projectId, workspaceId)
    ensures r.Ok? && !Given(projectId) && !Given(workspaceId) ==> forall n :: n in r.value <==> n in t.notes
  {
    if caller.None? then Unauthorized()
    else Ok(200, FindMany(t.notes, (n: Row<Note>) => NoteMatches(t, n, projectId, workspaceId)))
  }

  /** The creation schema: a non-empty title, a content string and a
      project id. */
  predicate NoteValid(title: Field, content: Field, projectId: Field) {
    title.Str? && |title.s| >= 1 && content.Str? && projectId.Str?
  }

  /** POST /api/notes. An invalid body is answered 500, and so is a
      project id naming no project (the insert fails); otherwise the note
      is stored with the caller as creator and answered 201. */
  method CreateNote(db: Database, caller: Option<string>, title: Field, content: Field, projectId: Field)
    returns (r: Reply<Row<Note>>)
    requires db.Valid()
    modifies db
    ensures db.Valid()
    ensures r.Err? ==> db.State() == old(db.State())
    ensures caller.None? ==> r == Unauthorized()
    ensures caller.Some? && !NoteValid(title, content, projectId) ==> r == Err(500, "Failed to create note")
    ensures caller.Some? && NoteValid(title, content, projectId) ==>
              var n := Note(title.s, content.s, projectId.s, caller.value);
              if NoteRefsOk(old(db.State()), n) then
                && r == Ok(201, NewRow(old(db.clock), n))
                && db.State() == old(db.State()).(notes := old(db.notes) + [r.value], clock := old(db.clock) + 1)
              else
                r == Err(500, "Failed to create note")
  {
    if caller.None? {
      return Unauthorized();
    }
    if !NoteValid(title, content, projectId) {
      return Err(500, "Failed to create note");
    }
    var row := db.InsertNote(Note(title.s, content.s, projectId.s, caller.value));
    if row.None? {
      return Err(500, "Failed to create note");
    }
    r := Ok(201, row.value);
  }

}
