/**
 * Credential registration: the request body is validated, an e-mail that
 * is already registered is refused, and otherwise the user is stored with
 * a hashed password and given a default workspace it owns. The three
 * inserts run one after the other, not as one transaction.
 */
module RegisterRoute {
  import opened Common
  import opened Store
  import opened Provisioning
  import opened Auth

  /** The registration schema: a name of at least two characters, an
      e-mail address and a password of at least six characters. */
  predicate RegisterValid(name: Field, email: Field, password: Field) {
    name.Str? && |name.s| >= 2 && LoginValid(email, password)
  }

  /** The user row registration stores: no image, the password hashed. */
  function NewUser(name: string, email: string, password: string): (u: User)
    ensures u.name == Some(name) && u.email == email && u.image.None?
    ensures u.password.Some? && Matches(password, u.password.value)
    ensures forall q :: |q| <= HASH_INPUT_LIMIT && |password| <= HASH_INPUT_LIMIT && Matches(q, u.password.value) ==> q == password
  {
    HashProperties(password, password);
    forall q | |q| <= HASH_INPUT_LIMIT && |password| <= HASH_INPUT_LIMIT && Matches(q, Hash(password)) ensures q == password {
      HashProperties(password, q);
    }
    User(Some(name), email, Some(Hash(password)), None)
  }

  /** The tables after the user is stored at the current tick. */
  function WithUser(t: Tables, u: User): Tables {
    t.(users := t.users + [NewRow(t.clock, u)], clock := t.clock + 1)
  }

  /** POST /api/auth/register. A body failing the schema throws, which the
      handler answers with 500; a taken e-mail is 400; success is 201 with
      the new user's id. A taken default slug makes the workspace insert
      throw after the user is stored: 500, and the user row stays. */
  method Register(db: Database, name: Field, email: Field, password: Field) returns (r: Reply<string>)
    requires db.Valid()
    modifies db
    ensures db.Valid()
    ensures !RegisterValid(name, email, password) ==>
              r == Err(500, "Failed to create account") && db.State() == old(db.State())
    ensures RegisterValid(name, email, password) && EmailTaken(old(db.State()), email.s) ==>
              r == Err(400, "Email already registered") && db.State() == old(db.State())
    ensures RegisterValid(name, email, password) && !EmailTaken(old(db.State()), email.s) ==>
              var t := WithUser(old(db.State()), NewUser(name.s, email.s, password.s));
              var id := IdFor(old(db.clock));
              if SlugTaken(t, DefaultWorkspaceSlug(id)) then
                r == Err(500, "Failed to create account") && db.State() == t
              else
                r == Ok(201, id) && db.State() == Provisioned(t, id, Some(name.s))
    ensures r.Ok? ==>
              Authorize(db.State(), email, password) == Some(AuthUser(r.value, email.s, Some(name.s), None))
  {
    if !RegisterValid(name, email, password) {
      return Err(500, "Failed to create account");
    }
    if FindUserByEmail(db.users, email.s).Some? {
      return Err(400, "Email already registered");
    }
    ghost var t := WithUser(old(db.State()), NewUser(name.s, email.s, password.s));
    var user := db.InsertUser(NewUser(name.s, email.s, password.s));
    assert user.Some? && db.State() == t;
    var ws := ProvisionDefaultWorkspace(db, user.value.id, Some(name.s));
    if ws.None? {
      return Err(500, "Failed to create account");
    }
    r := Ok(201, user.value.id);
    RegisteredUserCanLogIn(old(db.State()), name.s, email, password);
  }

  /** The e-mail and password just registered log the new user in. */
  lemma RegisteredUserCanLogIn(t: Tables, name: string, email: Field, password: Field)
    requires WellFormed(t) && LoginValid(email, password) && !EmailTaken(t, email.s)
    ensures var t1 := WithUser(t, NewUser(name, email.s, password.s));
            && Authorize(t1, email, password) == Some(AuthUser(IdFor(t.clock), email.s, Some(name), None))
            && Authorize(Provisioned(t1, IdFor(t.clock), Some(name)), email, password) == Authorize(t1, email, password)
  {
    var t1 := WithUser(t, NewUser(name, email.s, password.s));
    AddUserKeepsWellFormed(t, NewUser(name, email.s, password.s));
    var u := NewRow(t.clock, NewUser(name, email.s, password.s));
    assert u in t1.users;
    HashProperties(password.s, password.s);
    AuthorizeFindsTheUser(t1, u, password.s);
  }

  /** A successful registration leaves the new user with exactly one
      membership: OWNER of the workspace created with it. */
  lemma RegisteredUserOwnsOneWorkspace(t: Tables, name: string, email: string, password: string)
    requires WellFormed(t) && !EmailTaken(t, email)
    requires !SlugTaken(WithUser(t, NewUser(name, email, password)), DefaultWorkspaceSlug(IdFor(t.clock)))
    ensures var t' := Provisioned(WithUser(t, NewUser(name, email, password)), IdFor(t.clock), Some(name));
            && MembershipsOf(t', IdFor(t.clock)) == [NewRow(t.clock + 2, Member(IdFor(t.clock), IdFor(t.clock + 1), OWNER))]
            && t'.workspaces == t.workspaces + [NewRow(t.clock + 1, Workspace(DefaultWorkspaceName(Some(name)), DefaultWorkspaceSlug(IdFor(t.clock))))]
  {
    var id := IdFor(t.clock);
    var m := NewRow(t.clock + 2, Member(id, IdFor(t.clock + 1), OWNER));
    var t1 := WithUser(t, NewUser(name, email, password));
    FreshId(t.users, t.clock);
    assert MembershipsOf(t1, id) == [] by {
      assert t1.members == t.members;
      forall x | x in t.members ensures !OfUser(id)(x) {
        assert x.data.userId in Ids(t.users);
      }
      SelectNone(t.members, OfUser(id));
    }
    var t' := Provisioned(t1, id, Some(name));
    MembershipsAppend(t1, m, id);
    assert MembershipsOf(t', id) == MembershipsOf(t1.(members := t1.members + [m]), id) by {
      assert t'.members == t1.members + [m];
    }
  }
}
