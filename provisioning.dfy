/**
 * The default workspace every new account gets: credential registration
 * and a first Google sign-in both create a workspace named after the user,
 * with a slug built from the user's id, and make the user its OWNER.
 */
module Provisioning {
  import opened Common
  import opened Store

  /** `${name}` of a nullable name: a missing name renders as "null". */
  function TemplateText(name: Option<string>): (r: string)
    ensures name.Some? ==> r == name.value
  {
    if name.Some? then name.value else "null"
  }

  /** "<name>'s Workspace". */
  function DefaultWorkspaceName(name: Option<string>): (r: string)
    ensures |r| == |TemplateText(name)| + 12
    ensures r[..|TemplateText(name)|] == TemplateText(name)
    ensures r[|TemplateText(name)|..] == "'s Workspace"
  {
    TemplateText(name) + "'s Workspace"
  }

  /** "<userId>-workspace". */
  function DefaultWorkspaceSlug(userId: string): (r: string)
    ensures |r| == |userId| + 10
    ensures r[..|userId|] == userId && r[|userId|..] == "-workspace"
    ensures r[|r| - 1] == 'e'
  {
    userId + "-workspace"
  }

  /** Distinct users get distinct default slugs, and a default name gives
      back the user's name. */
  lemma DefaultsDetermineUser(a: string, b: string)
    ensures DefaultWorkspaceSlug(a) == DefaultWorkspaceSlug(b) ==> a == b
    ensures DefaultWorkspaceName(Some(a)) == DefaultWorkspaceName(Some(b)) ==> a == b
  {
    if DefaultWorkspaceSlug(a) == DefaultWorkspaceSlug(b) {
      assert |a| == |b|;
      assert a == DefaultWorkspaceSlug(a)[..|a|];
      assert b == DefaultWorkspaceSlug(b)[..|b|];
    }
    if DefaultWorkspaceName(Some(a)) == DefaultWorkspaceName(Some(b)) {
      assert |a| == |b|;
      assert a == DefaultWorkspaceName(Some(a))[..|a|];
      assert b == DefaultWorkspaceName(Some(b))[..|b|];
    }
  }

  /** The tables after the default workspace of `userId` is provisioned:
      the workspace at the current tick, the OWNER membership at the next. */
  function Provisioned(t: Tables, userId: string, userName: Option<string>): (r: Tables)
    ensures r.(workspaces := t.workspaces, members := t.members, clock := t.clock) == t
    ensures r.clock == t.clock + 2
  {
    t.(workspaces := t.workspaces + [NewRow(t.clock, Workspace(DefaultWorkspaceName(userName), DefaultWorkspaceSlug(userId)))],
       members := t.members + [NewRow(t.clock + 1, Member(userId, IdFor(t.clock), OWNER))],
       clock := t.clock + 2)
  }

  /** After provisioning, the user's default workspace exists under the
      default name and slug, and the user is its OWNER. */
  lemma ProvisionedOwnsDefault(t: Tables, userId: string, userName: Option<string>)
    ensures var r := Provisioned(t, userId, userName);
            && (exists w :: w in r.workspaces && w.id == IdFor(t.clock) &&
                  w.data == Workspace(DefaultWorkspaceName(userName), DefaultWorkspaceSlug(userId)))
            && (exists m :: m in r.members && m.data == Member(userId, IdFor(t.clock), OWNER))
  {
    var r := Provisioned(t, userId, userName);
    assert r.workspaces[|t.workspaces|].id == IdFor(t.clock);
    assert r.members[|t.members|].data == Member(userId, IdFor(t.clock), OWNER);
  }

  /** The two inserts that give a user a default workspace: the workspace,
      then the OWNER membership linking the user to it. Not atomic: the
      first insert is the only one that can fail (on a taken slug), and
      then nothing is written. */
  method ProvisionDefaultWorkspace(db: Database, userId: string, userName: Option<string>)
    returns (ws: Option<Row<Workspace>>)
    requires db.Valid()
    requires userId in Ids(db.users)
    modifies db
    ensures db.Valid()
    ensures ws.None? <==> SlugTaken(old(db.State()), DefaultWorkspaceSlug(userId))
    ensures ws.None? ==> db.State() == old(db.State())
    ensures ws.Some? ==> ws.value == NewRow(old(db.clock), Workspace(DefaultWorkspaceName(userName), DefaultWorkspaceSlug(userId)))
    ensures ws.Some? ==> db.State() == Provisioned(old(db.State()), userId, userName)
  {
    var t := db.State();
    var w := Workspace(DefaultWorkspaceName(userName), DefaultWorkspaceSlug(userId));
    ws := db.InsertWorkspace(w);
    if ws.Some? {
      var t1 := db.State();
      assert t1 == t.(workspaces := t.workspaces + [NewRow(t.clock, w)], clock := t.clock + 1);
      assert ws.value in t1.workspaces;
      var m := db.InsertMember(Member(userId, ws.value.id, OWNER));
      assert m.Some?;
      assert db.State() == t1.(members := t1.members + [NewRow(t1.clock, Member(userId, IdFor(t.clock), OWNER))],
                               clock := t1.clock + 1);
    }
  }
}
