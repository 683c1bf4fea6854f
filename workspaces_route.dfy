/**
 * The workspace collection: listing the caller's workspaces through their
 * memberships, and creating a workspace whose slug is derived from its
 * name and the creation time, with the caller as its OWNER.
 */
module WorkspacesRoute {
  import opened Common
  import opened Store
  import opened Provisioning

  // ---------------------------------------------------------------------
  // The slug
  // ---------------------------------------------------------------------

  /** A character the regular-expression class `\s` matches. */
  predicate IsSpace(c: char) {
    var n := c as int;
    || 9 <= n <= 13 || n == 32 || n == 0xA0 || n == 0x1680 || 0x2000 <= n <= 0x200A
    || n == 0x2028 || n == 0x2029 || n == 0x202F || n == 0x205F || n == 0x3000 || n == 0xFEFF
  }

  predicate IsUpper(c: char) {
    'A' <= c <= 'Z'
  }

  function LowerChar(c: char): (d: char)
    ensures !IsUpper(d)
  {
    if IsUpper(c) then (c as int - 'A' as int + 'a' as int) as char else c
  }

  /** `toLowerCase()` on ASCII letters. */
  function Lower(s: string): (r: string)
    ensures |r| == |s|
    ensures forall i :: 0 <= i < |s| ==> r[i] == LowerChar(s[i])
  {
    if s == [] then [] else [LowerChar(s[0])] + Lower(s[1..])
  }

  /** The text after a leading whitespace run. */
  function DropSpaces(s: string): (r: string)
    ensures |r| <= |s|
    ensures r == [] || !IsSpace(r[0])
  {
    if s != [] && IsSpace(s[0]) then DropSpaces(s[1..]) else s
  }

  /** `toLowerCase().replace(/\s+/g, "-")`: lower-cased, with each maximal
      whitespace run replaced by a single '-'. */
  function Slugify(s: string): (r: string)
    ensures forall i :: 0 <= i < |r| ==> !IsSpace(r[i]) && !IsUpper(r[i])
    decreases |s|
  {
    if s == [] then []
    else if IsSpace(s[0]) then "-" + Slugify(DropSpaces(s[1..]))
    else [LowerChar(s[0])] + Slugify(s[1..])
  }

  predicate NoSpace(s: string) {
    forall i :: 0 <= i < |s| ==> !IsSpace(s[i])
  }

  predicate AllSpace(s: string) {
    forall i :: 0 <= i < |s| ==> IsSpace(s[i])
  }

  /** A word without whitespace is only lower-cased. */
  lemma {:induction false} SlugifyWord(w: string)
    requires NoSpace(w)
    ensures Slugify(w) == Lower(w)
  {
    if w != [] {
      assert NoSpace(w[1..]) by {
        forall i | 0 <= i < |w[1..]| ensures !IsSpace(w[1..][i]) {
          assert w[1..][i] == w[i + 1];
        }
      }
      SlugifyWord(w[1..]);
    }
  }

  /** A whitespace run, however long, is dropped whole. */
  lemma {:induction false} DropSpacesRun(run: string, v: string)
    requires AllSpace(run)
    requires v == [] || !IsSpace(v[0])
    ensures DropSpaces(run + v) == v
  {
    if run == [] {
      assert run + v == v;
    } else {
      assert (run + v)[1..] == run[1..] + v;
      assert AllSpace(run[1..]) by {
        forall i | 0 <= i < |run[1..]| ensures IsSpace(run[1..][i]) {
          assert run[1..][i] == run[i + 1];
        }
      }
      DropSpacesRun(run[1..], v);
    }
  }

  /** A word, then a whitespace run, then text starting with a
      non-whitespace character: the word lower-cased, one '-', and the slug
      of the rest. */
  lemma {:induction false} SlugifyRun(w: string, run: string, v: string)
    requires NoSpace(w)
    requires run != [] && AllSpace(run)
    requires v == [] || !IsSpace(v[0])
    ensures Slugify(w + run + v) == Lower(w) + "-" + Slugify(v)
  {
    if w == [] {
      assert w + run + v == run + v;
      assert (run + v)[1..] == run[1..] + v;
      assert AllSpace(run[1..]) by {
        forall i | 0 <= i < |run[1..]| ensures IsSpace(run[1..][i]) {
          assert run[1..][i] == run[i + 1];
        }
      }
      DropSpacesRun(run[1..], v);
    } else {
      assert (w + run + v)[1..] == w[1..] + run + v;
      assert NoSpace(w[1..]) by {
        forall i | 0 <= i < |w[1..]| ensures !IsSpace(w[1..][i]) {
          assert w[1..][i] == w[i + 1];
        }
      }
      SlugifyRun(w[1..], run, v);
    }
  }

  /** The slug of a workspace created at time `now` (milliseconds). */
  function WorkspaceSlug(name: string, now: nat): (r: string)
    ensures |r| > |Digits(now)| && r[|r| - |Digits(now)| - 1..] == "-" + Digits(now)
    ensures forall i :: 0 <= i < |r| ==> !IsSpace(r[i]) && !IsUpper(r[i])
  {
    var slug, digits := Slugify(name), Digits(now);
    var r := slug + "-" + digits;
    assert r[|slug|..] == "-" + digits;
    assert forall i :: 0 <= i < |r| ==> r[i] == if i < |slug| then slug[i] else if i == |slug| then '-' else digits[i - |slug| - 1];
    r
  }

  /** A created workspace's slug ends in a digit, a default workspace's in
      'e', so the two kinds never collide. */
  lemma CreatedSlugIsNeverDefault(name: string, now: nat, userId: string)
    ensures WorkspaceSlug(name, now) != DefaultWorkspaceSlug(userId)
  {
    var s := WorkspaceSlug(name, now);
    assert s[|s| - 1] == DigitChar(now % 10);
    assert DefaultWorkspaceSlug(userId)[|DefaultWorkspaceSlug(userId)| - 1] == 'e';
  }

  // ---------------------------------------------------------------------
  // GET
  // ---------------------------------------------------------------------

  /** One listed workspace: its id, name and slug, and the caller's role. */
  datatype Entry = Entry(id: string, name: string, slug: string, role: Role)

  function EntryOf(t: Tables, m: Row<Member>): Entry
    requires m.data.workspaceId in Ids(t.workspaces)
  {
    var w := FindById(t.workspaces, m.data.workspaceId).value;
    Entry(w.id, w.data.name, w.data.slug, m.data.role)
  }

  /** A workspace the user belongs to, with the role of that membership. */
  predicate Listed(t: Tables, userId: string, e: Entry) {
    exists m, w :: m in t.members && w in t.workspaces && m.data.userId == userId &&
                   w.id == m.data.workspaceId && e == Entry(w.id, w.data.name, w.data.slug, m.data.role)
  }

  /** GET /api/workspaces: one entry per membership of the caller. */
  function List(t: Tables, caller: Option<string>): (r: Reply<seq<Entry>>)
    requires WellFormed(t)
    ensures caller.None? ==> r == Unauthorized()
    ensures caller.Some? ==> r.Ok? && r.status == 200 && |r.value| == |MembershipsOf(t, caller.value)|
    ensures caller.Some? ==> forall e :: e in r.value <==> Listed(t, caller.value, e)
  {
    if caller.None? then Unauthorized()
    else
      var ms := MembershipsOf(t, caller.value);
      var entries := seq(|ms|, i requires 0 <= i < |ms| => EntryOf(t, ms[i]));
      ListedExactly(t, caller.value, ms, entries);
      Ok(200, entries)
  }

  lemma ListedExactly(t: Tables, userId: string, ms: seq<Row<Member>>, entries: seq<Entry>)
    requires Stamped(t.workspaces, t.clock)
    requires ms == MembershipsOf(t, userId)
    requires |entries| == |ms|
    requires forall i :: 0 <= i < |ms| ==> ms[i].data.workspaceId in Ids(t.workspaces) && entries[i] == EntryOf(t, ms[i])
    ensures forall e :: e in entries <==> Listed(t, userId, e)
  {
    forall e | e in entries ensures Listed(t, userId, e) {
      var i :| 0 <= i < |entries| && entries[i] == e;
      EntryIsListed(t, userId, ms, i);
    }
    forall e | Listed(t, userId, e) ensures e in entries {
      var m, w :| m in t.members && w in t.workspaces && m.data.userId == userId &&
                  w.id == m.data.workspaceId && e == Entry(w.id, w.data.name, w.data.slug, m.data.role);
      ListedIsEntry(t, userId, ms, entries, m, w);
    }
  }

  lemma EntryIsListed(t: Tables, userId: string, ms: seq<Row<Member>>, i: nat)
    requires ms == MembershipsOf(t, userId)
    requires i < |ms| && ms[i].data.workspaceId in Ids(t.workspaces)
    ensures Listed(t, userId, EntryOf(t, ms[i]))
  {
    assert ms[i] in ms;
    var w := FindById(t.workspaces, ms[i].data.workspaceId).value;
    assert ms[i] in t.members && w in t.workspaces;
  }

  lemma ListedIsEntry(t: Tables, userId: string, ms: seq<Row<Member>>, entries: seq<Entry>, m: Row<Member>, w: Row<Workspace>)
    requires Stamped(t.workspaces, t.clock)
    requires ms == MembershipsOf(t, userId)
    requires |entries| == |ms|
    requires forall i :: 0 <= i < |ms| ==> ms[i].data.workspaceId in Ids(t.workspaces) && entries[i] == EntryOf(t, ms[i])
    requires m in t.members && w in t.workspaces && m.data.userId == userId && w.id == m.data.workspaceId
    ensures Entry(w.id, w.data.name, w.data.slug, m.data.role) in entries
  {
    assert m in ms;
    var i :| 0 <= i < |ms| && ms[i] == m;
    FindByIdStamped(t.workspaces, t.clock, w);
    assert entries[i] == EntryOf(t, m);
  }

  // ---------------------------------------------------------------------
  // POST
  // ---------------------------------------------------------------------

  /** The created workspace as the POST answers it: id, name and slug. */
  datatype Summary = Summary(id: string, name: string, slug: string)

  /** The creation schema: a name of at least two characters. */
  predicate CreateValid(name: Field) {
    name.Str? && |name.s| >= 2
  }

  /** POST /api/workspaces at time `now`. An invalid body, a slug already
      taken and a membership that cannot be stored all throw and are
      answered 500; in the last case the workspace stays without members. */
  method Create(db: Database, caller: Option<string>, name: Field, now: nat) returns (r: Reply<Summary>)
    requires db.Valid()
    modifies db
    ensures db.Valid()
    ensures caller.None? ==> r == Unauthorized() && db.State() == old(db.State())
    ensures caller.Some? && !CreateValid(name) ==>
              r == Err(500, "Failed to create workspace") && db.State() == old(db.State())
    ensures caller.Some? && CreateValid(name) && SlugTaken(old(db.State()), WorkspaceSlug(name.s, now)) ==>
              r == Err(500, "Failed to create workspace") && db.State() == old(db.State())
    ensures caller.Some? && CreateValid(name) && !SlugTaken(old(db.State()), WorkspaceSlug(name.s, now)) ==>
              var w := NewRow(old(db.clock), Workspace(name.s, WorkspaceSlug(name.s, now)));
              var t := old(db.State()).(workspaces := old(db.workspaces) + [w], clock := old(db.clock) + 1);
              if caller.value in Ids(old(db.users)) then
                && r == Ok(201, Summary(w.id, name.s, WorkspaceSlug(name.s, now)))
                && db.State() == t.(members := t.members + [NewRow(t.clock, Member(caller.value, w.id, OWNER))],
                                    clock := t.clock + 1)
              else
                r == Err(500, "Failed to create workspace") && db.State() == t
    ensures r.Ok? ==> Entry(r.value.id, r.value.name, r.value.slug, OWNER) in List(db.State(), caller).value
  {
    if caller.None? {
      return Unauthorized();
    }
    if !CreateValid(name) {
      return Err(500, "Failed to create workspace");
    }
    var slug := WorkspaceSlug(name.s, now);
    var w := db.InsertWorkspace(Workspace(name.s, slug));
    if w.None? {
      return Err(500, "Failed to create workspace");
    }
    var m := db.InsertMember(Member(caller.value, w.value.id, OWNER));
    if m.None? {
      return Err(500, "Failed to create workspace");
    }
    r := Ok(201, Summary(w.value.id, name.s, slug));
    assert m.value in db.members && w.value in db.workspaces;
    assert Listed(db.State(), caller.value, Entry(w.value.id, name.s, slug, OWNER));
  }
}
