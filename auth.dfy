/**
 * The authentication configuration: the credential check behind the login
 * form, the sign-in callback that gives a first-time Google user a default
 * workspace, and the two callbacks that carry the user's id, name and
 * picture from the sign-in into the token and from the token into the
 * session. Password hashing and the e-mail grammar are stand-ins.
 */
module Auth {
  import opened Common
  import opened Store
  import opened Provisioning

  // ---------------------------------------------------------------------
  // Stand-ins for the hashing library and the e-mail validator
  // ---------------------------------------------------------------------

  /** The number of leading bytes of a password the hashing library reads;
      anything after them has no effect on the hash or on a comparison. */
  const HASH_INPUT_LIMIT: nat := 72

  /** The part of a password the hashing library reads. */
  function HashInput(password: string): (r: string)
    ensures |r| <= HASH_INPUT_LIMIT
    ensures r <= password
    ensures |password| <= HASH_INPUT_LIMIT ==> r == password
  {
    if |password| <= HASH_INPUT_LIMIT then password else password[..HASH_INPUT_LIMIT]
  }

  /** The stored form of a password (the hashing library, cost 10): the
      algorithm-and-cost prefix followed by a digest of the bytes read. The
      salt is not modelled, so the digest stands for the bytes themselves. */
  function Hash(password: string): string {
    "$2a$10$" + HashInput(password)
  }

  /** The hashing library's comparison of a password with a stored hash. */
  predicate Matches(password: string, hash: string) {
    hash == Hash(password)
  }

  /** A hash matches the password it was made from, and exactly the
      passwords that agree with it on the bytes the library reads; up to
      that length, no other password. A hash is never the empty string. */
  lemma HashProperties(p: string, q: string)
    ensures Matches(p, Hash(p))
    ensures Matches(q, Hash(p)) <==> HashInput(q) == HashInput(p)
    ensures |p| <= HASH_INPUT_LIMIT && |q| <= HASH_INPUT_LIMIT ==> (Matches(q, Hash(p)) <==> q == p)
    ensures Hash(p) != ""
  {
    if Matches(q, Hash(p)) {
      assert HashInput(p) == Hash(p)[7..];
      assert HashInput(q) == Hash(q)[7..];
    }
  }

  function IndexOf(s: string, c: char): (i: nat)
    ensures i <= |s|
    ensures i < |s| ==> s[i] == c
    ensures forall k :: 0 <= k < i ==> s[k] != c
  {
    if s == [] then 0
    else if s[0] == c then 0
    else 1 + IndexOf(s[1..], c)
  }

  /** `z.string().email()`, approximated: one '@' with a non-empty part on
      each side, a '.' in the domain part, and no space. */
  predicate IsEmail(s: string)
    ensures IsEmail(s) <==>
              exists at :: 0 < at < |s| - 1 && s[at] == '@' &&
                           (forall k :: 0 <= k < |s| && k != at ==> s[k] != '@') &&
                           '.' in s[at + 1..] && ' ' !in s
  {
    var at := IndexOf(s, '@');
    && 0 < at < |s| - 1
    && '@' !in s[at + 1..]
    && '.' in s[at + 1..]
    && ' ' !in s
  }

  /** The login form's schema: an e-mail address and a password of at
      least six characters. */
  predicate LoginValid(email: Field, password: Field) {
    email.Str? && IsEmail(email.s) && password.Str? && |password.s| >= 6
  }

  // ---------------------------------------------------------------------
  // authorize
  // ---------------------------------------------------------------------

  /** The user object a successful credential check hands to the sign-in. */
  datatype AuthUser = AuthUser(id: string, email: string, name: Option<string>, image: Option<string>)

  function AuthUserOf(u: Row<User>): AuthUser {
    AuthUser(u.id, u.data.email, u.data.name, u.data.image)
  }

  /** The user has a stored password (a truthy one) that the given
      password matches. */
  predicate PasswordAccepted(u: Row<User>, password: string)
    ensures PasswordAccepted(u, password) <==> u.data.password == Some(Hash(password))
  {
    u.data.password.Some? && u.data.password.value != "" && Matches(password, u.data.password.value)
  }

  /** The credential check: `null` for input failing the schema, for an
      unknown e-mail, for a user without a password, and for a wrong
      password; otherwise the stored user's id, e-mail, name and image. */
  function Authorize(t: Tables, email: Field, password: Field): (r: Option<AuthUser>)
    requires UniqueEmails(t.users)
    ensures r.Some? <==>
              LoginValid(email, password) &&
              exists u :: u in t.users && u.data.email == email.s && PasswordAccepted(u, password.s)
    ensures r.Some? ==>
              exists u :: u in t.users && u.data.email == email.s && r.value == AuthUserOf(u)
  {
    if !LoginValid(email, password) then None
    else
      match FindUserByEmail(t.users, email.s)
      case None => None
      case Some(u) =>
        assert forall v :: v in t.users && v.data.email == email.s ==> v == u by {
          forall v | v in t.users && v.data.email == email.s ensures v == u {
            FoundUserIsUnique(t.users, email.s, v);
          }
        }
        if !PasswordAccepted(u, password.s) then None
        else Some(AuthUserOf(u))
  }

  /** With unique e-mails, a stored user whose password matches is exactly
      the one the credential check returns, and a password that is not the
      stored one's is refused. */
  lemma AuthorizeFindsTheUser(t: Tables, u: Row<User>, password: string)
    requires WellFormed(t)
    requires u in t.users
    requires LoginValid(Str(u.data.email), Str(password))
    ensures PasswordAccepted(u, password) ==> Authorize(t, Str(u.data.email), Str(password)) == Some(AuthUserOf(u))
    ensures !PasswordAccepted(u, password) ==> Authorize(t, Str(u.data.email), Str(password)) == None
  {
    FoundUserIsUnique(t.users, u.data.email, u);
  }

  // ---------------------------------------------------------------------
  // signIn
  // ---------------------------------------------------------------------

  /** The sign-in callback. For a Google sign-in of a user that exists and
      belongs to no workspace yet, it provisions the default workspace;
      it then allows the sign-in. The result is `None` when the callback
      throws (the default slug is already taken), `Some(true)` otherwise. */
  method SignIn(db: Database, provider: Option<string>, userId: string, userName: Option<string>)
    returns (allowed: Option<bool>)
    requires db.Valid()
    modifies db
    ensures db.Valid()
    ensures allowed.Some? ==> allowed.value
    ensures FirstGoogleSignIn(old(db.State()), provider, userId) ==>
              (allowed.None? <==> SlugTaken(old(db.State()), DefaultWorkspaceSlug(userId)))
    ensures !FirstGoogleSignIn(old(db.State()), provider, userId) ==>
              allowed == Some(true) && db.State() == old(db.State())
    ensures FirstGoogleSignIn(old(db.State()), provider, userId) && allowed.Some? ==>
              db.State() == Provisioned(old(db.State()), userId, userName)
    ensures allowed.None? ==> db.State() == old(db.State())
  {
    if provider == Some("google") {
      var existing := FindById(db.users, userId);
      if existing.Some? && |MembershipsOf(db.State(), userId)| == 0 {
        var ws := ProvisionDefaultWorkspace(db, userId, userName);
        if ws.None? {
          return None;
        }
      }
    }
    return Some(true);
  }

  /** A Google sign-in of an existing user with no membership. */
  predicate FirstGoogleSignIn(t: Tables, provider: Option<string>, userId: string) {
    provider == Some("google") && userId in Ids(t.users) && |MembershipsOf(t, userId)| == 0
  }

  /** After a first Google sign-in that went through, the user owns exactly
      one workspace, so a second sign-in is no longer a first one and
      provisions nothing. */
  lemma SecondGoogleSignInProvisionsNothing(t: Tables, userId: string, userName: Option<string>)
    requires WellFormed(t)
    requires FirstGoogleSignIn(t, Some("google"), userId)
    requires !SlugTaken(t, DefaultWorkspaceSlug(userId))
    ensures !FirstGoogleSignIn(Provisioned(t, userId, userName), Some("google"), userId)
    ensures MembershipsOf(Provisioned(t, userId, userName), userId) ==
              [NewRow(t.clock + 1, Member(userId, IdFor(t.clock), OWNER))]
  {
    var t' := Provisioned(t, userId, userName);
    var m := NewRow(t.clock + 1, Member(userId, IdFor(t.clock), OWNER));
    MembershipsAppend(t.(workspaces := t'.workspaces), m, userId);
  }

  // ---------------------------------------------------------------------
  // jwt and session callbacks
  // ---------------------------------------------------------------------

  /** The signed token's claims the callbacks touch: `sub` (the subject,
      section 4.1.2 of RFC 7519), `name` and `picture`. */
  class Token {
    var sub: Option<string>
    var name: Option<string>
    var picture: Option<string>

    constructor (sub: Option<string>, name: Option<string>, picture: Option<string>)
      ensures this.sub == sub && this.name == name && this.picture == picture
    {
      this.sub, this.name, this.picture := sub, name, picture;
    }
  }

  /** The `session` argument of an `update` call: the new name and image. */
  datatype SessionUpdate = SessionUpdate(name: Option<string>, image: Option<string>)

  /** The jwt callback: a user present at sign-in sets the subject to the
      user's id; an `update` trigger carrying a session copies its name and
      image into the token. Nothing else changes. */
  method Jwt(token: Token, user: Option<string>, trigger: Option<string>, session: Option<SessionUpdate>)
    modifies token
    ensures token.sub == if user.Some? then user else old(token.sub)
    ensures trigger == Some("update") && session.Some? ==>
              token.name == session.value.name && token.picture == session.value.image
    ensures !(trigger == Some("update") && session.Some?) ==>
              token.name == old(token.name) && token.picture == old(token.picture)
  {
    if user.Some? {
      token.sub := user;
    }
    if trigger == Some("update") && session.Some? {
      token.name := session.value.name;
      token.picture := session.value.image;
    }
  }

  /** The `user` object of a session. */
  class SessionUser {
    var id: Option<string>
    var name: Option<string>
    var image: Option<string>

    constructor (id: Option<string>, name: Option<string>, image: Option<string>)
      ensures this.id == id && this.name == name && this.image == image
    {
      this.id, this.name, this.image := id, name, image;
    }
  }

  class Session {
    var user: SessionUser?

    constructor (user: SessionUser?)
      ensures this.user == user
    {
      this.user := user;
    }
  }

  /** The session callback: when the session has a user, its id becomes
      the token's subject (when the token has one, and a non-empty one),
      and its name and image become the token's name and picture. A
      session without a user is returned untouched. */
  method SessionCallback(session: Session, token: Token)
    modifies session.user
    ensures session.user != null ==>
              && session.user.id == (if Given(token.sub) then token.sub else old(session.user.id))
              && session.user.name == token.name
              && session.user.image == token.picture
  {
    if session.user != null {
      if Given(token.sub) {
        session.user.id := token.sub;
      }
      session.user.name := token.name;
      session.user.image := token.picture;
    }
  }
}
