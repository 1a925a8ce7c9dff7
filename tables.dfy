/**
 * The two persisted tables, `users` and `refresh_tokens`, as sequences of rows, with the
 * queries and bulk updates the services issue against them and the schema's uniqueness
 * and foreign-key constraints.
 */
module Tables {
  import opened Errors

  type UserId = string

  /** A row of `users`; `password` holds the bcrypt hash, never the plain password. */
  datatype User = User(id: UserId, name: string, email: string, password: string, createdAt: nat)

  /** The public view of a user that every service returns: no password. */
  datatype Profile = Profile(id: UserId, name: string, email: string, createdAt: nat)

  /** A row of `refresh_tokens`. */
  datatype RefreshToken = RefreshToken(token: string, userId: UserId, expiresAt: nat, revoked: bool, createdAt: nat)

  function ProfileOf(u: User): (p: Profile) {
    Profile(u.id, u.name, u.email, u.createdAt)
  }

  // ---------------------------------------------------------------------------------------
  // Schema constraints
  // ---------------------------------------------------------------------------------------

  /** The primary key of `users`. */
  ghost predicate UniqueIds(us: seq<User>) {
    forall i, j :: 0 <= i < j < |us| ==> us[i].id != us[j].id
  }

  /** `UQ_users_email`. */
  ghost predicate UniqueEmails(us: seq<User>) {
    forall i, j :: 0 <= i < j < |us| ==> us[i].email != us[j].email
  }

  /** `UQ_refresh_tokens_token`. */
  ghost predicate UniqueTokens(ts: seq<RefreshToken>) {
    forall i, j :: 0 <= i < j < |ts| ==> ts[i].token != ts[j].token
  }

  ghost predicate HasUser(us: seq<User>, id: UserId) {
    exists u :: u in us && u.id == id
  }

  /** `FK_refresh_tokens_userId`: every token belongs to an existing user. */
  ghost predicate OwnersExist(ts: seq<RefreshToken>, us: seq<User>) {
    forall t :: t in ts ==> HasUser(us, t.userId)
  }

  // ---------------------------------------------------------------------------------------
  // Queries (`findOne({ where: ... })`)
  // ---------------------------------------------------------------------------------------

  /** `findOne({ where: { <column>: k } })`: the first row whose `key` column holds `k`. */
  function FindFirst<T, K(==)>(rows: seq<T>, key: T -> K, k: K): (r: Option<T>)
    ensures r.Some? ==> r.value in rows && key(r.value) == k
    ensures r.None? ==> forall x :: x in rows ==> key(x) != k
  {
    if rows == [] then None
    else if key(rows[0]) == k then Some(rows[0])
    else FindFirst(rows[1..], key, k)
  }

  /** No two rows share a value of the `key` column. */
  ghost predicate UniqueKeys<T, K>(rows: seq<T>, key: T -> K) {
    forall i, j :: 0 <= i < j < |rows| ==> key(rows[i]) != key(rows[j])
  }

  /** Under a uniqueness constraint on `key`, the lookup finds the one row with that key. */
  lemma {:induction false} FindFirstFinds<T, K>(rows: seq<T>, key: T -> K, x: T)
    requires UniqueKeys(rows, key) && x in rows
    ensures FindFirst(rows, key, key(x)) == Some(x)
  {
    if rows[0] != x {
      assert key(rows[0]) != key(x) by {
        var k :| 0 <= k < |rows| && rows[k] == x;
        assert k != 0;
      }
      assert x in rows[1..];
      FindFirstFinds(rows[1..], key, x);
    }
  }

  /** The key columns the services look rows up by. */
  function EmailOf(u: User): string { u.email }
  function IdOf(u: User): UserId { u.id }
  function TokenOf(t: RefreshToken): string { t.token }

  function UserByEmail(us: seq<User>, email: string): (r: Option<User>)
    ensures r.Some? ==> r.value in us && r.value.email == email
    ensures r.None? ==> forall u :: u in us ==> u.email != email
  {
    FindFirst(us, EmailOf, email)
  }

  function UserById(us: seq<User>, id: UserId): (r: Option<User>)
    ensures r.Some? ==> r.value in us && r.value.id == id
    ensures r.None? ==> forall u :: u in us ==> u.id != id
  {
    FindFirst(us, IdOf, id)
  }

  function TokenByValue(ts: seq<RefreshToken>, token: string): (r: Option<RefreshToken>)
    ensures r.Some? ==> r.value in ts && r.value.token == token
    ensures r.None? ==> forall t :: t in ts ==> t.token != token
  {
    FindFirst(ts, TokenOf, token)
  }

  /** Under the unique-email constraint the lookup finds the one user with that email. */
  lemma UserByEmailFinds(us: seq<User>, u: User)
    requires UniqueEmails(us) && u in us
    ensures UserByEmail(us, u.email) == Some(u)
  {
    FindFirstFinds(us, EmailOf, u);
  }

  /** Under the primary-key constraint the lookup finds the one user with that id. */
  lemma UserByIdFinds(us: seq<User>, u: User)
    requires UniqueIds(us) && u in us
    ensures UserById(us, u.id) == Some(u)
  {
    FindFirstFinds(us, IdOf, u);
  }

  /** Under the unique-token constraint the lookup finds the one row with that token. */
  lemma TokenByValueFinds(ts: seq<RefreshToken>, t: RefreshToken)
    requires UniqueTokens(ts) && t in ts
    ensures TokenByValue(ts, t.token) == Some(t)
  {
    FindFirstFinds(ts, TokenOf, t);
  }

  // ---------------------------------------------------------------------------------------
  // Updates and deletes
  // ---------------------------------------------------------------------------------------

  /** `update({ token }, { revoked: true })`. */
  function RevokeByToken(ts: seq<RefreshToken>, token: string): (r: seq<RefreshToken>)
    ensures |r| == |ts|
    ensures forall i :: 0 <= i < |ts| ==>
      r[i] == if ts[i].token == token then ts[i].(revoked := true) else ts[i]
  {
    if ts == [] then []
    else [if ts[0].token == token then ts[0].(revoked := true) else ts[0]] + RevokeByToken(ts[1..], token)
  }

  /** `update({ userId, revoked: false }, { revoked: true })`. */
  function RevokeActiveOf(ts: seq<RefreshToken>, userId: UserId): (r: seq<RefreshToken>)
    ensures |r| == |ts|
    ensures forall i :: 0 <= i < |ts| ==>
      r[i] == if ts[i].userId == userId && !ts[i].revoked then ts[i].(revoked := true) else ts[i]
  {
    if ts == [] then []
    else
      var head := if ts[0].userId == userId && !ts[0].revoked then ts[0].(revoked := true) else ts[0];
      [head] + RevokeActiveOf(ts[1..], userId)
  }

  /** `remove(storedToken)`: the row is deleted by primary key; tokens are unique, so by token. */
  function DeleteToken(ts: seq<RefreshToken>, token: string): (r: seq<RefreshToken>)
    ensures forall t :: t in r <==> t in ts && t.token != token
    ensures UniqueTokens(ts) ==> UniqueTokens(r)
  {
    if ts == [] then []
    else if ts[0].token == token then DeleteToken(ts[1..], token)
    else
      var rest := DeleteToken(ts[1..], token);
      assert UniqueTokens(ts) ==> forall t :: t in rest ==> t.token != ts[0].token;
      [ts[0]] + rest
  }

  /** Deleting a token that is present in a table of unique tokens removes exactly one row. */
  lemma {:induction false} DeleteOneToken(ts: seq<RefreshToken>, token: string)
    requires UniqueTokens(ts) && exists t :: t in ts && t.token == token
    ensures |DeleteToken(ts, token)| == |ts| - 1
  {
    if ts[0].token == token {
      assert forall t :: t in ts[1..] ==> t.token != token by {
        forall t | t in ts[1..] ensures t.token != token {
          var k :| 0 <= k < |ts[1..]| && ts[1..][k] == t;
          assert ts[k + 1] == t;
        }
      }
      DeleteAbsentKeepsAll(ts[1..], token);
    } else {
      var t :| t in ts && t.token == token;
      assert t in ts[1..];
      DeleteOneToken(ts[1..], token);
    }
  }

  /** Deleting a token no row holds leaves the table as it was. */
  lemma {:induction false} DeleteAbsentKeepsAll(ts: seq<RefreshToken>, token: string)
    requires forall t :: t in ts ==> t.token != token
    ensures DeleteToken(ts, token) == ts
  {
    if ts != [] {
      assert ts[0] in ts;
      assert forall t :: t in ts[1..] ==> t in ts;
      DeleteAbsentKeepsAll(ts[1..], token);
    }
  }

  /** `delete({ expiresAt: LessThan(now) })`. */
  function DeleteExpired(ts: seq<RefreshToken>, now: nat): (r: seq<RefreshToken>)
    ensures forall t :: t in r <==> t in ts && now <= t.expiresAt
    ensures UniqueTokens(ts) ==> UniqueTokens(r)
  {
    if ts == [] then []
    else if ts[0].expiresAt < now then DeleteExpired(ts[1..], now)
    else
      var rest := DeleteExpired(ts[1..], now);
      assert UniqueTokens(ts) ==> forall t :: t in rest ==> t.token != ts[0].token;
      [ts[0]] + rest
  }

  /** `user.name = name; save(user)` on the row with that id. */
  function RenameUser(us: seq<User>, id: UserId, name: string): (r: seq<User>)
    ensures |r| == |us|
    ensures forall i :: 0 <= i < |us| ==> r[i] == if us[i].id == id then us[i].(name := name) else us[i]
  {
    if us == [] then []
    else [if us[0].id == id then us[0].(name := name) else us[0]] + RenameUser(us[1..], id, name)
  }

  // ---------------------------------------------------------------------------------------
  // The constraints survive every write
  // ---------------------------------------------------------------------------------------

  /** Revoking by token rewrites only `revoked`, so tokens stay unique and owners stay valid. */
  lemma RevokeByTokenKeepsConstraints(ts: seq<RefreshToken>, us: seq<User>, token: string)
    requires UniqueTokens(ts) && OwnersExist(ts, us)
    ensures UniqueTokens(RevokeByToken(ts, token)) && OwnersExist(RevokeByToken(ts, token), us)
  {
    var r := RevokeByToken(ts, token);
    assert forall i :: 0 <= i < |r| ==> r[i].token == ts[i].token && r[i].userId == ts[i].userId;
    forall t | t in r ensures HasUser(us, t.userId) {
      var i :| 0 <= i < |r| && r[i] == t;
      assert ts[i] in ts;
    }
  }

  /** Revoking a user's tokens rewrites only `revoked`, so the constraints are kept. */
  lemma RevokeActiveOfKeepsConstraints(ts: seq<RefreshToken>, us: seq<User>, userId: UserId)
    requires UniqueTokens(ts) && OwnersExist(ts, us)
    ensures UniqueTokens(RevokeActiveOf(ts, userId)) && OwnersExist(RevokeActiveOf(ts, userId), us)
  {
    var r := RevokeActiveOf(ts, userId);
    assert forall i :: 0 <= i < |r| ==> r[i].token == ts[i].token && r[i].userId == ts[i].userId;
    forall t | t in r ensures HasUser(us, t.userId) {
      var i :| 0 <= i < |r| && r[i] == t;
      assert ts[i] in ts;
    }
  }

  /** Renaming rewrites only `name`, so ids and emails stay unique and tokens keep their owners. */
  lemma RenameKeepsConstraints(us: seq<User>, ts: seq<RefreshToken>, id: UserId, name: string)
    requires UniqueIds(us) && UniqueEmails(us) && OwnersExist(ts, us)
    ensures var r := RenameUser(us, id, name);
      UniqueIds(r) && UniqueEmails(r) && OwnersExist(ts, r)
  {
    var r := RenameUser(us, id, name);
    forall t | t in ts ensures HasUser(r, t.userId) {
      var u :| u in us && u.id == t.userId;
      var i :| 0 <= i < |us| && us[i] == u;
      assert r[i] in r && r[i].id == u.id;
    }
  }

  /** Appending a row with a fresh token for an existing user keeps both constraints. */
  lemma AppendTokenKeepsConstraints(ts: seq<RefreshToken>, us: seq<User>, row: RefreshToken)
    requires UniqueTokens(ts) && OwnersExist(ts, us)
    requires forall t :: t in ts ==> t.token != row.token
    requires HasUser(us, row.userId)
    ensures UniqueTokens(ts + [row]) && OwnersExist(ts + [row], us)
  {
    var r := ts + [row];
    forall i, j | 0 <= i < j < |r| ensures r[i].token != r[j].token {
      if j == |ts| { assert r[i] in ts; }
    }
  }

  /** Appending a user with a fresh id and a fresh email keeps every constraint. */
  lemma AppendUserKeepsConstraints(us: seq<User>, ts: seq<RefreshToken>, u: User)
    requires UniqueIds(us) && UniqueEmails(us) && OwnersExist(ts, us)
    requires forall x :: x in us ==> x.id != u.id && x.email != u.email
    ensures UniqueIds(us + [u]) && UniqueEmails(us + [u]) && OwnersExist(ts, us + [u])
  {
    var r := us + [u];
    forall i, j | 0 <= i < j < |r| ensures r[i].id != r[j].id && r[i].email != r[j].email {
      if j == |us| { assert r[i] in us; }
    }
    forall t | t in ts ensures HasUser(r, t.userId) {
      var x :| x in us && x.id == t.userId;
      assert x in r;
    }
  }
}
