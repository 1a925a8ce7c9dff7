/**
 * Access-token claims and the refresh-token checks `refreshAccessToken` performs, as pure
 * functions of the token table and the clock, with the lifetimes they imply and the way the
 * ledger's writes (issue, revoke, revoke-all, sweep) change their outcome.
 *
 * The clock is a JavaScript `Date` value: milliseconds since the epoch.
 */
module Ledger {
  import opened Errors
  import opened Tables

  /** `expiresIn: '15m'`, in the seconds JWT claims are written in. */
  const ACCESS_TOKEN_TTL_SECONDS: nat := 15 * 60

  /** `setDate(getDate() + 7)`, as milliseconds. */
  const SEVEN_DAYS: nat := 7 * 24 * 60 * 60 * 1000

  /** The payload of the signed access token, with the registered claims the signer adds. */
  datatype AccessToken = AccessToken(sub: UserId, email: string, iat: nat, exp: nat)

  /** `generateAccessToken`: `{ sub: user.id, email: user.email }`, issued at `now`, 15 minutes of validity. */
  function IssueAccessToken(u: User, now: nat): (t: AccessToken)
    ensures t.sub == u.id && t.email == u.email
    ensures t.iat * 1000 <= now < t.iat * 1000 + 1000
    ensures t.exp == t.iat + ACCESS_TOKEN_TTL_SECONDS
  {
    AccessToken(u.id, u.email, now / 1000, now / 1000 + ACCESS_TOKEN_TTL_SECONDS)
  }

  /** The expiry test a JWT verifier applies: the token is expired once the current second reaches `exp`. */
  predicate AccessTokenUnexpired(t: AccessToken, now: nat) {
    now / 1000 < t.exp
  }

  /** A freshly issued access token is accepted for at least 899 and at most 900 seconds. */
  lemma AccessTokenLifetime(u: User, issuedAt: nat, later: nat)
    requires issuedAt <= later
    ensures later < issuedAt + 899_001 ==> AccessTokenUnexpired(IssueAccessToken(u, issuedAt), later)
    ensures issuedAt + 900_000 <= later ==> !AccessTokenUnexpired(IssueAccessToken(u, issuedAt), later)
  {
    var t := IssueAccessToken(u, issuedAt);
    if later < issuedAt + 899_001 {
      assert later < t.iat * 1000 + 900_000;
    }
    if issuedAt + 900_000 <= later {
      assert t.exp * 1000 <= later;
    }
  }

  /** What the refresh endpoint finds for a presented token, in the order it checks. */
  datatype RefreshCheck =
    | MissingToken           // "Refresh token not found"
    | UnknownToken           // "Invalid refresh token"
    | RevokedToken           // "Refresh token has been revoked"
    | ExpiredToken           // "Refresh token expired" (and the row is deleted)
    | Usable(row: RefreshToken)

  /** The four checks of `refreshAccessToken`, in source order: empty, absent, revoked, expired. */
  function CheckRefreshToken(ts: seq<RefreshToken>, token: string, now: nat): (c: RefreshCheck)
    ensures c == MissingToken <==> token == ""
    ensures c == UnknownToken <==> token != "" && forall t :: t in ts ==> t.token != token
    ensures c.Usable? ==> c.row in ts && c.row.token == token && !c.row.revoked && now <= c.row.expiresAt
    ensures c == RevokedToken ==> exists t :: t in ts && t.token == token && t.revoked
    ensures c == ExpiredToken ==> exists t :: t in ts && t.token == token && !t.revoked && t.expiresAt < now
  {
    if token == "" then MissingToken
    else match TokenByValue(ts, token)
      case None => UnknownToken
      case Some(row) =>
        if row.revoked then RevokedToken
        else if now > row.expiresAt then ExpiredToken
        else Usable(row)
  }

  /** The message each failed check is reported with, all as `Unauthorized`. */
  function RefreshFailure(c: RefreshCheck): (f: Failure)
    requires !c.Usable?
    ensures f.Unauthorized?
  {
    match c
    case MissingToken => Unauthorized("Refresh token not found")
    case UnknownToken => Unauthorized("Invalid refresh token")
    case RevokedToken => Unauthorized("Refresh token has been revoked")
    case ExpiredToken => Unauthorized("Refresh token expired")
  }

  /** The four failure messages are pairwise distinct. */
  lemma RefreshFailuresDistinct(c: RefreshCheck, d: RefreshCheck)
    requires !c.Usable? && !d.Usable? && c != d
    ensures RefreshFailure(c) != RefreshFailure(d)
  {
  }

  /** With unique tokens, a non-empty token is usable exactly when its row is live and unexpired. */
  lemma UsableIff(ts: seq<RefreshToken>, token: string, now: nat)
    requires UniqueTokens(ts) && token != ""
    ensures CheckRefreshToken(ts, token, now).Usable? <==>
      exists t :: t in ts && t.token == token && !t.revoked && now <= t.expiresAt
  {
    if t :| t in ts && t.token == token && !t.revoked && now <= t.expiresAt {
      TokenByValueFinds(ts, t);
    }
  }

  /** The row `generateRefreshToken` saves at time `now`. */
  function IssuedRow(token: string, userId: UserId, now: nat): (row: RefreshToken)
    ensures row.token == token && row.userId == userId && !row.revoked
    ensures row.expiresAt - row.createdAt == SEVEN_DAYS && row.createdAt == now
  {
    RefreshToken(token, userId, now + SEVEN_DAYS, false, now)
  }

  /**
   * A refresh token issued at `issuedAt` refreshes successfully at every moment up to seven
   * days later, and is rejected as expired from the next millisecond on.
   */
  lemma IssuedTokenLifetime(ts: seq<RefreshToken>, token: string, userId: UserId, issuedAt: nat, at: nat)
    requires token != "" && forall t :: t in ts ==> t.token != token
    ensures var c := CheckRefreshToken(ts + [IssuedRow(token, userId, issuedAt)], token, at);
      (at <= issuedAt + SEVEN_DAYS ==> c == Usable(IssuedRow(token, userId, issuedAt))) &&
      (issuedAt + SEVEN_DAYS < at ==> c == ExpiredToken)
  {
    LookupAppended(ts, IssuedRow(token, userId, issuedAt));
  }

  lemma {:induction false} LookupAppended(ts: seq<RefreshToken>, row: RefreshToken)
    requires forall t :: t in ts ==> t.token != row.token
    ensures TokenByValue(ts + [row], row.token) == Some(row)
  {
    if ts == [] {
      assert ts + [row] == [row];
    } else {
      assert (ts + [row])[1..] == ts[1..] + [row];
      LookupAppended(ts[1..], row);
    }
  }

  /** After `revokeToken` / `logout` with a non-empty token, that token never refreshes again. */
  lemma RevokedTokenRejected(ts: seq<RefreshToken>, token: string, now: nat)
    requires token != ""
    ensures var c := CheckRefreshToken(RevokeByToken(ts, token), token, now);
      c == RevokedToken || c == UnknownToken
  {
    var r := RevokeByToken(ts, token);
    var found := TokenByValue(r, token);
    if found.Some? {
      var i :| 0 <= i < |r| && r[i] == found.value;
      assert r[i].revoked;
    }
  }

  /** After `revokeAllUserTokens(u)`, no token of `u` refreshes again. */
  lemma RevokeAllRejectsOwnTokens(ts: seq<RefreshToken>, userId: UserId, row: RefreshToken, now: nat)
    requires UniqueTokens(ts) && row in ts && row.userId == userId && row.token != ""
    ensures CheckRefreshToken(RevokeActiveOf(ts, userId), row.token, now) == RevokedToken
  {
    var r := RevokeActiveOf(ts, userId);
    var i :| 0 <= i < |ts| && ts[i] == row;
    assert r[i] == row.(revoked := true);
    forall j, k | 0 <= j < k < |r| ensures r[j].token != r[k].token {
      assert r[j].token == ts[j].token && r[k].token == ts[k].token;
    }
    TokenByValueFinds(r, r[i]);
  }

  /** `revokeAllUserTokens(u)` does not change what any other user's token yields. */
  lemma RevokeAllSparesOthers(ts: seq<RefreshToken>, userId: UserId, row: RefreshToken, now: nat)
    requires UniqueTokens(ts) && row in ts && row.userId != userId
    ensures CheckRefreshToken(RevokeActiveOf(ts, userId), row.token, now) == CheckRefreshToken(ts, row.token, now)
  {
    var r := RevokeActiveOf(ts, userId);
    var i :| 0 <= i < |ts| && ts[i] == row;
    assert r[i] == row;
    forall j, k | 0 <= j < k < |r| ensures r[j].token != r[k].token {
      assert r[j].token == ts[j].token && r[k].token == ts[k].token;
    }
    TokenByValueFinds(r, row);
    TokenByValueFinds(ts, row);
  }

  /** Revoking twice is revoking once (`logout` and `revokeToken` are idempotent). */
  lemma RevokeIdempotent(ts: seq<RefreshToken>, token: string)
    ensures RevokeByToken(RevokeByToken(ts, token), token) == RevokeByToken(ts, token)
  {
    var once := RevokeByToken(ts, token);
    var twice := RevokeByToken(once, token);
    assert forall i :: 0 <= i < |ts| ==> twice[i] == once[i];
  }

  /** Revoking a token that is not in the table changes nothing. */
  lemma {:induction false} RevokeAbsentIsNoOp(ts: seq<RefreshToken>, token: string)
    requires forall t :: t in ts ==> t.token != token
    ensures RevokeByToken(ts, token) == ts
  {
    var r := RevokeByToken(ts, token);
    forall i | 0 <= i < |ts| ensures r[i] == ts[i] {
      assert ts[i] in ts;
    }
  }

  /** Revoking a token touches no other token's row. */
  lemma RevokeSparesOtherTokens(ts: seq<RefreshToken>, token: string, other: string, now: nat)
    requires UniqueTokens(ts) && other != token
    ensures CheckRefreshToken(RevokeByToken(ts, token), other, now) == CheckRefreshToken(ts, other, now)
  {
    var r := RevokeByToken(ts, token);
    forall j, k | 0 <= j < k < |r| ensures r[j].token != r[k].token {
      assert r[j].token == ts[j].token && r[k].token == ts[k].token;
    }
    var found := TokenByValue(ts, other);
    if found.Some? {
      var i :| 0 <= i < |ts| && ts[i] == found.value;
      assert r[i] == ts[i];
      TokenByValueFinds(r, r[i]);
      TokenByValueFinds(ts, ts[i]);
    } else {
      forall t | t in r ensures t.token != other {
        var i :| 0 <= i < |r| && r[i] == t;
        assert ts[i] in ts;
      }
    }
  }

  /** The periodic sweep never takes away a token that could still refresh at that moment. */
  lemma SweepKeepsUsable(ts: seq<RefreshToken>, token: string, now: nat)
    requires UniqueTokens(ts) && CheckRefreshToken(ts, token, now).Usable?
    ensures CheckRefreshToken(DeleteExpired(ts, now), token, now) == CheckRefreshToken(ts, token, now)
  {
    var row := CheckRefreshToken(ts, token, now).row;
    assert row in DeleteExpired(ts, now);
    TokenByValueFinds(DeleteExpired(ts, now), row);
  }

  /** Sweeping twice at the same moment is sweeping once. */
  lemma {:induction false} SweepIdempotent(ts: seq<RefreshToken>, now: nat)
    ensures DeleteExpired(DeleteExpired(ts, now), now) == DeleteExpired(ts, now)
  {
    if ts != [] {
      SweepIdempotent(ts[1..], now);
    }
  }
}
