/**
 * The activity feed: the 20 newest log rows of one workspace the caller
 * belongs to, or of all the caller's workspaces.
 */
module ActivityRoute {
  import opened Common
  import opened Store
  import opened ActivityLogger

  /** The ids of the caller's workspaces (`workspaceId: { in: ... }`). */
  function WorkspaceIdsOf(t: Tables, userId: string): (ids: set<string>)
    ensures forall w :: w in ids <==> IsMember(t, userId, w)
  {
    set m | m in MembershipsOf(t, userId) :: m.data.workspaceId
  }

  /** The rows of one workspace. */
  function InWorkspace(workspaceId: string): Row<ActivityLog> -> bool {
    (a: Row<ActivityLog>) => a.data.workspaceId == workspaceId
  }

  /** The rows of a set of workspaces. */
  function InWorkspaces(ids: set<string>): Row<ActivityLog> -> bool {
    (a: Row<ActivityLog>) => a.data.workspaceId in ids
  }

  /** GET /api/activity?workspaceId=…: with a workspace, the caller must
      belong to it and gets its rows; without one, the caller gets the rows
      of every workspace it belongs to (none without memberships). At most
      20 rows, newest first. */
  function ListActivity(t: Tables, caller: Option<string>, workspaceId: Option<string>)
    : (r: Reply<seq<Row<ActivityLog>>>)
    requires WellFormed(t)
    ensures caller.None? ==> r == Unauthorized()
    ensures caller.Some? && Given(workspaceId) && !IsMember(t, caller.value, workspaceId.value) ==> r == AccessDenied()
    ensures r.Ok? <==> caller.Some? && (Given(workspaceId) ==> IsMember(t, caller.value, workspaceId.value))
    ensures r.Ok? ==> r.status == 200 && |r.value| <= 20 && Descending(r.value)
    ensures r.Ok? ==> forall a :: a in r.value ==> a in t.activity && IsMember(t, caller.value, a.data.workspaceId)
    ensures r.Ok? && Given(workspaceId) ==> forall a :: a in r.value ==> a.data.workspaceId == workspaceId.value
    ensures r.Ok? && MembershipsOf(t, caller.value) == [] ==> r.value == []
    ensures r.Ok? ==>
              forall a :: a in t.activity && a !in r.value &&
                          (if Given(workspaceId) then a.data.workspaceId == workspaceId.value
                           else IsMember(t, caller.value, a.data.workspaceId)) ==>
                |r.value| == 20 && forall b :: b in r.value ==> b.createdAt > a.createdAt
  {
    if caller.None? then Unauthorized()
    else if Given(workspaceId) then
      if !IsMember(t, caller.value, workspaceId.value) then AccessDenied()
      else
        FeedKeepsNewest(t, InWorkspace(workspaceId.value));
        Ok(200, FindManyTake(t.activity, InWorkspace(workspaceId.value), 20))
    else
      var ids := WorkspaceIdsOf(t, caller.value);
      var r := FindManyTake(t.activity, InWorkspaces(ids), 20);
      FeedKeepsNewest(t, InWorkspaces(ids));
      assert MembershipsOf(t, caller.value) == [] ==> r == [] by {
        if MembershipsOf(t, caller.value) == [] {
          assert ids == {};
          FindManyTakeNone(t.activity, InWorkspaces(ids), 20);
        }
      }
      Ok(200, r)
  }

  /** A matching row left off a page of the feed means the page is full
      of 20 newer rows: `take: 20` after `orderBy: createdAt desc` keeps
      the newest. */
  lemma FeedKeepsNewest(t: Tables, where: Row<ActivityLog> -> bool)
    requires Ascending(t.activity)
    ensures var page := FindManyTake(t.activity, where, 20);
            forall a :: a in t.activity && where(a) && a !in page ==>
              |page| == 20 && forall b :: b in page ==> b.createdAt > a.createdAt
  {
    var page := FindManyTake(t.activity, where, 20);
    forall a | a in t.activity && where(a) && a !in page
      ensures |page| == 20 && forall b :: b in page ==> b.createdAt > a.createdAt
    {
      TakeKeepsNewest(t.activity, where, 20, a);
    }
  }

  /** For a member, the feed of one workspace is that workspace's newest
      20 rows. A proof step only: it unfolds the handler once, apart from
      the lemma that uses it, to keep that proof small. */
  lemma MemberFeed(t: Tables, caller: string, workspaceId: string)
    requires WellFormed(t) && IsMember(t, caller, workspaceId)
    ensures ListActivity(t, Some(caller), Some(workspaceId)) == Ok(200, FindManyTake(t.activity, InWorkspace(workspaceId), 20))
  {
  }

  /** A row logged for a workspace the caller belongs to heads the
      caller's feed of that workspace. */
  lemma LoggedRowHeadsFeed(t: Tables, caller: string, a: ActivityLog)
    requires WellFormed(t) && IsMember(t, caller, a.workspaceId)
    ensures WellFormed(Logged(t, a))
    ensures var r := ListActivity(Logged(t, a), Some(caller), Some(a.workspaceId));
            r.Ok? && |r.value| >= 1 && r.value[0] == NewRow(t.clock, a)
  {
    var t' := Logged(t, a);
    var x := NewRow(t.clock, a);
    LoggedKeepsWellFormed(t, a);
    assert t'.activity == t.activity + [x];
    assert IsMember(t', caller, a.workspaceId) by {
      assert t'.members == t.members;
    }
    MemberFeed(t', caller, a.workspaceId);
    FindManyTakeAppend(t.activity, x, InWorkspace(a.workspaceId), 20);
  }
}
