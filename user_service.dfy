/** `UserService`: lookups on the `users` table and the one update a user may make, a new name. */
module Users {
  import opened Errors
  import opened Tables
  import opened Repository

  const USER_NOT_FOUND := "User not found"

  class UserService {
    const db: Database

    constructor (db: Database)
      ensures this.db == db
    {
      this.db := db;
    }

    /** `findByEmail`: the user with that email, or none when no user has it. */
    method FindByEmail(email: string) returns (r: Option<User>)
      requires db.Valid()
      ensures r.Some? ==> r.value in db.users && r.value.email == email
      ensures r.None? <==> forall u :: u in db.users ==> u.email != email
    {
      r := UserByEmail(db.users, email);
    }

    /** `findById`: the user with that id, or none when no user has it. */
    method FindById(id: UserId) returns (r: Option<User>)
      requires db.Valid()
      ensures r.Some? ==> r.value in db.users && r.value.id == id
      ensures r.None? <==> forall u :: u in db.users ==> u.id != id
    {
      r := UserById(db.users, id);
    }

    /** `getProfile`: id, name, email and creation time of the stored user; never the password. */
    method GetProfile(userId: UserId) returns (r: Result<Profile>)
      requires db.Valid()
      ensures r.Err? <==> forall u :: u in db.users ==> u.id != userId
      ensures r.Err? ==> r == Err(PlainError(USER_NOT_FOUND))
      ensures r.Ok? ==>
        exists u :: u in db.users && u.id == userId && r.value == Profile(u.id, u.name, u.email, u.createdAt)
    {
      var found := UserById(db.users, userId);
      if found.None? {
        return Err(PlainError(USER_NOT_FOUND));
      }
      var user := found.value;
      r := Ok(ProfileOf(user));
    }

    /** `updateName`: set the stored user's name and return the updated profile. */
    method UpdateName(userId: UserId, name: string) returns (r: Result<Profile>)
      requires db.Valid()
      modifies db
      ensures db.Valid() && db.refreshTokens == old(db.refreshTokens)
      ensures match UserById(old(db.users), userId)
        case None =>
          r == Err(PlainError(USER_NOT_FOUND)) && db.users == old(db.users)
        case Some(u) =>
          && r == Ok(Profile(u.id, name, u.email, u.createdAt))
          && db.users == RenameUser(old(db.users), userId, name)
    {
      var found := UserById(db.users, userId);
      if found.None? {
        return Err(PlainError(USER_NOT_FOUND));
      }
      var user := found.value.(name := name);
      RenameKeepsConstraints(db.users, db.refreshTokens, userId, name);
      db.users := RenameUser(db.users, userId, name);
      r := Ok(ProfileOf(user));
    }
  }

  /** After a rename, looking the user up by id yields the new name. */
  lemma RenameThenFind(us: seq<User>, id: UserId, name: string)
    requires UniqueIds(us) && UserById(us, id).Some?
    ensures UserById(RenameUser(us, id, name), id) == Some(UserById(us, id).value.(name := name))
  {
    var u := UserById(us, id).value;
    var r := RenameUser(us, id, name);
    var i :| 0 <= i < |us| && us[i] == u;
    assert r[i] == u.(name := name);
    forall j, k | 0 <= j < k < |r| ensures r[j].id != r[k].id {
      assert r[j].id == us[j].id && r[k].id == us[k].id;
    }
    UserByIdFinds(r, r[i]);
  }
}
