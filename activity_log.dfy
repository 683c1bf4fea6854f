/**
 * The activity logger every mutating handler may call: it appends one log
 * row and never fails its caller; a row the store refuses is dropped.
 */
module ActivityLogger {
  import opened Common
  import opened Store

  /** `metadata || {}`: a falsy or missing value is stored as `{}`. */
  function MetadataOf(metadata: Field): (m: Metadata)
    ensures m.EmptyObject? <==> !Truthy(metadata)
    ensures m.Value? ==> m.json == metadata
  {
    if Truthy(metadata) then Value(metadata) else EmptyObject
  }

  /** The log row for one action. */
  function LogEntry(workspaceId: string, userId: string, action: string, entityType: string, entityId: string,
                    metadata: Field): (a: ActivityLog)
    ensures a.workspaceId == workspaceId && a.userId == userId
    ensures a.action == action && a.entityType == entityType && a.entityId == entityId
    ensures a.metadata.EmptyObject? <==> !Truthy(metadata)
  {
    ActivityLog(workspaceId, userId, action, entityType, entityId, MetadataOf(metadata))
  }

  /** The tables after `a` is logged: one row appended, nothing else. */
  function Logged(t: Tables, a: ActivityLog): Tables {
    t.(activity := t.activity + [NewRow(t.clock, a)], clock := t.clock + 1)
  }

  /** Logging a row keeps the store well formed, and the new row is the
      newest of the log. */
  lemma LoggedKeepsWellFormed(t: Tables, a: ActivityLog)
    requires WellFormed(t)
    ensures WellFormed(Logged(t, a))
    ensures Ascending(Logged(t, a).activity)
    ensures forall x :: x in t.activity ==> x.createdAt < NewRow(t.clock, a).createdAt
  {
    AddActivityKeepsWellFormed(t, a);
    StampedAppend(t.activity, t.clock, a);
  }

  /** `logActivity`: appends the row, or, when the store refuses it (an
      unknown workspace or actor), leaves everything as it was. It has no
      result: a failure is never reported. */
  method LogActivity(db: Database, workspaceId: string, userId: string, action: string, entityType: string,
                     entityId: string, metadata: Field)
    requires db.Valid()
    modifies db
    ensures db.Valid()
    ensures var a := LogEntry(workspaceId, userId, action, entityType, entityId, metadata);
            if ActivityRefsOk(old(db.State()), a) then
              db.State() == Logged(old(db.State()), a)
            else
              db.State() == old(db.State())
  {
    var row := db.InsertActivity(LogEntry(workspaceId, userId, action, entityType, entityId, metadata));
  }
}
