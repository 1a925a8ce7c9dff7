/** The database both services share: the two tables and the constraints the schema enforces. */
module Repository {
  import opened Tables

  class Database {
    var users: seq<User>
    var refreshTokens: seq<RefreshToken>

    /** Primary key and unique email on `users`, unique token and owner foreign key on `refresh_tokens`. */
    ghost predicate Valid()
      reads this
    {
      && UniqueIds(users)
      && UniqueEmails(users)
      && UniqueTokens(refreshTokens)
      && OwnersExist(refreshTokens, users)
    }

    /** A freshly migrated, empty database. */
    constructor ()
      ensures Valid() && users == [] && refreshTokens == []
    {
      users := [];
      refreshTokens := [];
    }
  }
}
