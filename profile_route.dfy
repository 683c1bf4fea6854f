/**
 * The profile update: the caller's own user row gets a new name and,
 * when a non-empty one is given, a new image.
 */
module ProfileRoute {
  import opened Common
  import opened Store

  /** The columns the update answers with. */
  datatype UserView = UserView(id: string, name: Option<string>, email: string, image: Option<string>)

  /** The update schema: a name of at least two characters, an optional
      image. */
  predicate ProfileValid(name: Field, image: Field) {
    name.Str? && |name.s| >= 2 && OptionalString(image)
  }

  /** The image column the update writes: only a non-empty one. */
  function NewImage(image: Field): (r: Option<string>)
    ensures r.Some? <==> Truthy(image) && image.Str?
    ensures r.Some? ==> r.value == image.s
  {
    if image.Str? && image.s != "" then Some(image.s) else None
  }

  /** PUT /api/users/profile. An invalid body is answered 500, and so is a
      caller with no user row (the update finds nothing). Otherwise only
      the caller's row changes: its name, and its image when a non-empty
      one is given; e-mail and password stay. */
  method UpdateProfile(db: Database, caller: Option<string>, name: Field, image: Field) returns (r: Reply<UserView>)
    requires db.Valid()
    modifies db
    ensures db.Valid()
    ensures r.Err? ==> db.State() == old(db.State())
    ensures caller.None? ==> r == Unauthorized()
    ensures caller.Some? && !ProfileValid(name, image) ==> r == Err(500, "Failed to update profile")
    ensures caller.Some? && ProfileValid(name, image) ==> (r.Ok? <==> caller.value in Ids(old(db.users)))
    ensures r.Ok? ==> r.status == 200 && r.value.id == caller.value && r.value.name == Some(name.s)
    ensures r.Ok? ==> FindById(old(db.users), caller.value).Some? &&
                      r.value.email == FindById(old(db.users), caller.value).value.data.email &&
                      r.value.image == UserWith(FindById(old(db.users), caller.value).value.data, name.s, NewImage(image)).image
    ensures r.Ok? ==> db.State() == old(db.State()).(users := Renamed(old(db.users), caller.value, name.s, NewImage(image)))
  {
    if caller.None? {
      return Unauthorized();
    }
    if !ProfileValid(name, image) {
      return Err(500, "Failed to update profile");
    }
    FindRenamed(db.users, caller.value, name.s, NewImage(image));
    var row := db.UpdateUser(caller.value, name.s, NewImage(image));
    if row.None? {
      return Err(500, "Failed to update profile");
    }
    var u := row.value;
    r := Ok(200, UserView(u.id, u.data.name, u.data.email, u.data.image));
  }
}
