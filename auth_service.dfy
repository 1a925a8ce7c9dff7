/**
 * `AuthService`: registration, login, access-token refresh and refresh-token revocation over
 * the shared database. Each operation is modelled as one atomic step over the tables.
 *
 * Foreign calls are parameters: `compare` stands for `bcrypt.compare(plain, hash)`, `hash` for
 * `bcrypt.hash(plain, 10)` (`None` when it throws), `freshToken` for
 * `randomBytes(64).toString('hex')`, `freshId` for the uuid the database assigns, and `now`
 * for `new Date()`.
 */
module Auth {
  import opened Errors
  import opened Tables
  import opened Ledger
  import opened Repository

  const USER_NOT_FOUND := "User not found"
  const INVALID_PASSWORD := "Invalid password"
  const EMAIL_EXISTS := "Email already exists"
  const REGISTER_FAILED := "Failed to register user"
  const REGISTERED := "User registered successfully"

  /** What `randomBytes(64).toString('hex')` yields: 128 lower-case hexadecimal digits. */
  predicate IsRandomTokenText(s: string) {
    |s| == 128 && forall i :: 0 <= i < |s| ==> s[i] in "0123456789abcdef"
  }

  datatype LoginResult = LoginResult(accessToken: AccessToken, refreshToken: string, user: Profile)
  datatype RefreshResult = RefreshResult(accessToken: AccessToken, user: Profile)
  datatype Registration = Registration(message: string, user: Profile)

  class AuthService {
    const db: Database

    constructor (db: Database)
      ensures this.db == db
    {
      this.db := db;
    }

    /** `login`: look the user up by email, check the password, then issue both tokens. */
    method Login(email: string, password: string, compare: (string, string) -> bool, freshToken: string, now: nat)
      returns (r: Result<LoginResult>)
      requires db.Valid()
      requires IsRandomTokenText(freshToken)
      requires forall t :: t in db.refreshTokens ==> t.token != freshToken
      modifies db
      ensures db.Valid() && db.users == old(db.users)
      ensures match UserByEmail(db.users, email)
        case None =>
          r == Err(NotFound(USER_NOT_FOUND)) && db.refreshTokens == old(db.refreshTokens)
        case Some(u) =>
          if !compare(password, u.password) then
            r == Err(Unauthorized(INVALID_PASSWORD)) && db.refreshTokens == old(db.refreshTokens)
          else
            && r == Ok(LoginResult(IssueAccessToken(u, now), freshToken, ProfileOf(u)))
            && db.refreshTokens == old(db.refreshTokens) + [IssuedRow(freshToken, u.id, now)]
    {
      var found := UserByEmail(db.users, email);
      if found.None? {
        return Err(NotFound(USER_NOT_FOUND));
      }
      var user := found.value;
      if !compare(password, user.password) {
        return Err(Unauthorized(INVALID_PASSWORD));
      }
      var accessToken := IssueAccessToken(user, now);
      var refreshToken := GenerateRefreshToken(user, freshToken, now);
      r := Ok(LoginResult(accessToken, refreshToken, ProfileOf(user)));
    }

    /** `generateRefreshToken`: save a new, unrevoked row expiring seven days from now. */
    method GenerateRefreshToken(user: User, freshToken: string, now: nat) returns (token: string)
      requires db.Valid() && user in db.users
      requires forall t :: t in db.refreshTokens ==> t.token != freshToken
      modifies db
      ensures db.Valid() && db.users == old(db.users)
      ensures token == freshToken
      ensures db.refreshTokens == old(db.refreshTokens) + [IssuedRow(freshToken, user.id, now)]
    {
      var row := IssuedRow(freshToken, user.id, now);
      AppendTokenKeepsConstraints(db.refreshTokens, db.users, row);
      db.refreshTokens := db.refreshTokens + [row];
      token := freshToken;
    }

    /**
     * `refreshAccessToken`: mint a new access token for the owner of a live refresh token.
     * An expired row is deleted on the way out; nothing else is ever written, and the
     * refresh token itself is not rotated.
     */
    method RefreshAccessToken(refreshToken: string, now: nat) returns (r: Result<RefreshResult>)
      requires db.Valid()
      modifies db
      ensures db.Valid() && db.users == old(db.users)
      ensures match CheckRefreshToken(old(db.refreshTokens), refreshToken, now)
        case Usable(row) =>
          && db.refreshTokens == old(db.refreshTokens)
          && UserById(db.users, row.userId).Some?
          && var owner := UserById(db.users, row.userId).value;
             r == Ok(RefreshResult(IssueAccessToken(owner, now), ProfileOf(owner)))
        case ExpiredToken =>
          && r == Err(RefreshFailure(ExpiredToken))
          && db.refreshTokens == DeleteToken(old(db.refreshTokens), refreshToken)
          && |db.refreshTokens| == |old(db.refreshTokens)| - 1
        case other =>
          r == Err(RefreshFailure(other)) && db.refreshTokens == old(db.refreshTokens)
    {
      var check := CheckRefreshToken(db.refreshTokens, refreshToken, now);
      match check {
        case Usable(row) =>
          assert HasUser(db.users, row.userId);
          var u :| u in db.users && u.id == row.userId;
          UserByIdFinds(db.users, u);
          var accessToken := IssueAccessToken(u, now);
          r := Ok(RefreshResult(accessToken, ProfileOf(u)));
        case ExpiredToken =>
          DeleteOneToken(db.refreshTokens, refreshToken);
          db.refreshTokens := DeleteToken(db.refreshTokens, refreshToken);
          r := Err(RefreshFailure(check));
        case _ =>
          r := Err(RefreshFailure(check));
      }
    }

    /** `logout`: an empty token is ignored; otherwise the token's row is revoked. */
    method Logout(refreshToken: string)
      requires db.Valid()
      modifies db
      ensures db.Valid() && db.users == old(db.users)
      ensures db.refreshTokens == if refreshToken == "" then old(db.refreshTokens)
                                  else RevokeByToken(old(db.refreshTokens), refreshToken)
    {
      if refreshToken == "" {
        return;
      }
      RevokeByTokenKeepsConstraints(db.refreshTokens, db.users, refreshToken);
      db.refreshTokens := RevokeByToken(db.refreshTokens, refreshToken);
    }

    /** `cleanupExpiredTokens`: delete every row whose expiry lies strictly before `now`. */
    method CleanupExpiredTokens(now: nat)
      requires db.Valid()
      modifies db
      ensures db.Valid() && db.users == old(db.users)
      ensures db.refreshTokens == DeleteExpired(old(db.refreshTokens), now)
    {
      db.refreshTokens := DeleteExpired(db.refreshTokens, now);
    }

    /** `revokeAllUserTokens`: revoke every still-active row of `userId`. */
    method RevokeAllUserTokens(userId: UserId)
      requires db.Valid()
      modifies db
      ensures db.Valid() && db.users == old(db.users)
      ensures db.refreshTokens == RevokeActiveOf(old(db.refreshTokens), userId)
    {
      RevokeActiveOfKeepsConstraints(db.refreshTokens, db.users, userId);
      db.refreshTokens := RevokeActiveOf(db.refreshTokens, userId);
    }

    /** `revokeToken`: revoke the row with that token, with no check on the argument. */
    method RevokeToken(token: string)
      requires db.Valid()
      modifies db
      ensures db.Valid() && db.users == old(db.users)
      ensures db.refreshTokens == RevokeByToken(old(db.refreshTokens), token)
    {
      RevokeByTokenKeepsConstraints(db.refreshTokens, db.users, token);
      db.refreshTokens := RevokeByToken(db.refreshTokens, token);
    }

    /** `validateUser`: the stored user with that id, or `Unauthorized`. */
    method ValidateUser(userId: UserId) returns (r: Result<User>)
      requires db.Valid()
      ensures r.Ok? <==> exists u :: u in db.users && u.id == userId
      ensures r.Ok? ==> r.value in db.users && r.value.id == userId
      ensures r.Err? ==> r == Err(Unauthorized(USER_NOT_FOUND))
    {
      var found := UserById(db.users, userId);
      if found.None? {
        return Err(Unauthorized(USER_NOT_FOUND));
      }
      r := Ok(found.value);
    }

    /**
     * `register`: refuse a taken email; otherwise store the user with the hashed password and
     * return its profile. No tokens are issued.
     */
    method Register(name: string, email: string, password: string, hash: string -> Option<string>, freshId: UserId, now: nat)
      returns (r: Result<Registration>)
      requires db.Valid()
      requires forall u :: u in db.users ==> u.id != freshId
      modifies db
      ensures db.Valid() && db.refreshTokens == old(db.refreshTokens)
      ensures UserByEmail(old(db.users), email).Some? ==>
        r == Err(Conflict(EMAIL_EXISTS)) && db.users == old(db.users)
      ensures UserByEmail(old(db.users), email).None? && hash(password).None? ==>
        r == Err(InternalServerError(REGISTER_FAILED)) && db.users == old(db.users)
      ensures UserByEmail(old(db.users), email).None? && hash(password).Some? ==>
        var u := User(freshId, name, email, hash(password).value, now);
        && db.users == old(db.users) + [u]
        && r == Ok(Registration(REGISTERED, ProfileOf(u)))
    {
      var existing := UserByEmail(db.users, email);
      if existing.Some? {
        return Err(Conflict(EMAIL_EXISTS));
      }
      var hashed := hash(password);
      if hashed.None? {
        return Err(InternalServerError(REGISTER_FAILED));
      }
      var user := User(freshId, name, email, hashed.value, now);
      AppendUserKeepsConstraints(db.users, db.refreshTokens, user);
      db.users := db.users + [user];
      r := Ok(Registration(REGISTERED, ProfileOf(user)));
    }

    /**
     * The life of one account: register, log in at `now`, try to refresh more than seven days
     * later (refused as expired, and the stale row is gone), then log in again.
     */
    method ExpiredSessionScenario(
      name: string, email: string, password: string,
      hash: string -> Option<string>, compare: (string, string) -> bool,
      freshId: UserId, firstToken: string, secondToken: string, now: nat, later: nat)
      returns (registered: Result<Registration>, first: Result<LoginResult>,
               refreshed: Result<RefreshResult>, again: Result<LoginResult>)
      requires db.Valid()
      requires UserByEmail(db.users, email).None? && forall u :: u in db.users ==> u.id != freshId
      requires hash(password).Some? && compare(password, hash(password).value)
      requires IsRandomTokenText(firstToken) && IsRandomTokenText(secondToken) && firstToken != secondToken
      requires forall t :: t in db.refreshTokens ==> t.token != firstToken && t.token != secondToken
      requires now + SEVEN_DAYS < later
      modifies db
      ensures db.Valid()
      ensures registered.Ok? && first.Ok? && again.Ok?
      ensures first.value.refreshToken == firstToken && again.value.refreshToken == secondToken
      ensures refreshed == Err(Unauthorized("Refresh token expired"))
      ensures forall t :: t in db.refreshTokens ==> t.token != firstToken
    {
      registered := Register(name, email, password, hash, freshId, now);
      var u := User(freshId, name, email, hash(password).value, now);
      assert u in db.users;
      UserByEmailFinds(db.users, u);
      first := Login(email, password, compare, firstToken, now);
      ghost var before := db.refreshTokens;
      IssuedTokenLifetime(old(db.refreshTokens), firstToken, u.id, now, later);
      refreshed := RefreshAccessToken(firstToken, later);
      assert forall t :: t in db.refreshTokens ==> t in before && t.token != firstToken;
      again := Login(email, password, compare, secondToken, later);
    }
  }
}
