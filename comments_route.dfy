/**
 * The comment collection: creation on a task or a note (at least one of
 * the two must be named; naming both is accepted) and a listing filtered
 * by task and note. Neither consults membership.
 */
module CommentsRoute {
  import opened Common
  import opened Store

  /** The creation schema: a non-empty body, optional task and note ids. */
  predicate CommentValid(body: Field, taskId: Field, noteId: Field) {
    body.Str? && |body.s| >= 1 && OptionalString(taskId) && OptionalString(noteId)
  }

  /** POST /api/comments. An invalid body is answered 500; a comment on
      neither a task nor a note (empty ids count as none) 400; a task or
      note id naming no row makes the insert fail, answered 500. Otherwise
      the comment is stored with the caller as author and answered 201. */
  method CreateComment(db: Database, caller: Option<string>, body: Field, taskId: Field, noteId: Field)
    returns (r: Reply<Row<Comment>>)
    requires db.Valid()
    modifies db
    ensures db.Valid()
    ensures r.Err? ==> db.State() == old(db.State())
    ensures caller.None? ==> r == Unauthorized()
    ensures caller.Some? && !CommentValid(body, taskId, noteId) ==> r == Err(500, "Failed to create comment")
    ensures caller.Some? && CommentValid(body, taskId, noteId) && !Truthy(taskId) && !Truthy(noteId) ==>
              r == Err(400, "Either taskId or noteId is required")
    ensures caller.Some? && CommentValid(body, taskId, noteId) && (Truthy(taskId) || Truthy(noteId)) ==>
              var c := Comment(body.s, StringOrNone(taskId), StringOrNone(noteId), caller.value);
              if CommentRefsOk(old(db.State()), c) then
                && r == Ok(201, NewRow(old(db.clock), c))
                && db.State() == old(db.State()).(comments := old(db.comments) + [r.value], clock := old(db.clock) + 1)
              else
                r == Err(500, "Failed to create comment")
    ensures r.Ok? ==> r.value.data.taskId.Some? || r.value.data.noteId.Some?
  {
    if caller.None? {
      return Unauthorized();
    }
    if !CommentValid(body, taskId, noteId) {
      return Err(500, "Failed to create comment");
    }
    if !Truthy(taskId) && !Truthy(noteId) {
      return Err(400, "Either taskId or noteId is required");
    }
    var row := db.InsertComment(Comment(body.s, StringOrNone(taskId), StringOrNone(noteId), caller.value));
    if row.None? {
      return Err(500, "Failed to create comment");
    }
    r := Ok(201, row.value);
  }

  /** The `where` object the listing builds from the given parameters. */
  predicate CommentMatches(c: Row<Comment>, taskId: Option<string>, noteId: Option<string>) {
    && (Given(taskId) ==> c.data.taskId == Some(taskId.value))
    && (Given(noteId) ==> c.data.noteId == Some(noteId.value))
  }

  /** GET /api/comments?taskId=…&noteId=…: every comment matching all given
      filters (every comment when none is given), newest first. */
  function ListComments(t: Tables, caller: Option<string>, taskId: Option<string>, noteId: Option<string>)
    : (r: Reply<seq<Row<Comment>>>)
    requires WellFormed(t)
    ensures caller.None? <==> r == Unauthorized()
    ensures r.Ok? <==> caller.Some?
    ensures r.Ok? ==> r.status == 200 && Descending(r.value)
    ensures r.Ok? ==> forall c :: c in r.value <==> c in t.comments && CommentMatches(c, taskId, noteId)
    ensures r.Ok? && !Given(taskId) && !Given(noteId) ==> forall c :: c in r.value <==> c in t.comments
  {
    if caller.None? then Unauthorized()
    else Ok(200, FindMany(t.comments, (c: Row<Comment>) => CommentMatches(c, taskId, noteId)))
  }
}
