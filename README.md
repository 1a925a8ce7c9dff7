# Authentication core of wad-ia-07, modelled in Dafny

The application is a small sign-up / login site. A NestJS backend keeps two tables,
`users` and `refresh_tokens`. It issues a short-lived signed access token (15 minutes) and a
long-lived opaque refresh token (7 days, stored as a row). A Next.js frontend holds the
access token in memory. An axios interceptor attaches the token to every request and, on a
401, refreshes it once and retries. A route proxy keeps visitors without a refresh cookie out
of the dashboard and visitors with one away from the public pages. The sign-up and login forms
validate their fields with a fixed set of rules.

The model has these modules:

- `Errors`: the `Option` / `Result` wrappers, and the exception kinds the services throw
  (`NotFound`, `Unauthorized`, `Conflict`, `InternalServerError`, and a plain `Error`).
- `Strings`: JavaScript's `startsWith` and `includes`.
- `Tables`: the two tables as sequences of rows, with the schema's constraints. These are the
  primary key, unique email, unique token, and the foreign key from token to user. The module
  also holds the queries and bulk updates the services issue, and lemmas that every write keeps
  the constraints.
- `Ledger`: the access-token claims and the ordered checks of the refresh endpoint, as pure
  functions of the token table and the clock. Its lemmas relate revoke, revoke-all and sweep
  to what a later refresh returns.
- `Repository`: the `Database` object both services share, with its invariant `Valid()`.
- `Auth`: `AuthService`, a class whose methods read and rewrite the database, plus a
  register → login → expired refresh → login scenario.
- `Users`: `UserService`, the same way.
- `FormValidation`: the predefined `validations` of the form fields.
- `RouteGuard`: the `proxy` function.
- `ApiClient`: the browser session, which holds the in-memory access token. It models the
  request and response interceptors and the `api.login`, `api.logout` and `api.refreshToken`
  calls.

Calls the model cannot see are parameters:

- `bcrypt.compare` is a function `compare(plain, hash)`.
- `bcrypt.hash` is a function returning `None` when it throws.
- `randomBytes(64).toString('hex')` is a caller-supplied token of 128 lower-case hex digits
  that is not yet in the table.
- The uuid the database assigns is a caller-supplied fresh id.
- `new Date()` is `now`, in milliseconds since the epoch.
- Every HTTP reply the browser would wait for is an argument.

## Model

| member | source | states |
|---|---|---|
| Strings.Includes | frontend/lib/api.ts:42-44 | `url.includes(e)` is true exactly when `e` occurs in `url` at some index |
| Tables.FindFirst | backend/src/modules/auth/auth.service.ts:37-41 | the `findOne` search shared by all three lookups: it returns a row whose key column holds the value, or none exactly when no row does |
| Tables.FindFirstFinds | backend/src/database/migrations/1733400000000-InitialMigration.ts:16-17 | when no two rows share a key, searching for a stored row's key returns that very row |
| Tables.UserByEmail | backend/src/modules/auth/auth.service.ts:37-41 | the lookup returns a stored user with that email, or none exactly when no user has it |
| Tables.UserById | backend/src/modules/auth/auth.service.ts:168-172 | the lookup returns a stored user with that id, or none exactly when no user has it |
| Tables.TokenByValue | backend/src/modules/auth/auth.service.ts:100-107 | the lookup returns a stored row with that token string, or none exactly when no row has it |
| Tables.UserByEmailFinds | backend/src/database/migrations/1733400000000-InitialMigration.ts:16 | under the unique-email constraint, looking up a stored user's email returns that user |
| Tables.UserByIdFinds | backend/src/database/migrations/1733400000000-InitialMigration.ts:17 | under the primary key, looking up a stored user's id returns that user |
| Tables.TokenByValueFinds | backend/src/database/migrations/1733400000000-InitialMigration.ts:30 | under the unique-token constraint, looking up a stored row's token returns that row |
| Tables.ProfileOf | backend/src/modules/user/user.service.ts:38-43 | the `{ id, name, email, createdAt }` projection every service returns in place of the user (also auth.service.ts lines 57-62, 126-131 and 211-214); it has no password field; its use is stated by the contracts of Auth.AuthService.Login, RefreshAccessToken, Register and Users.UserService.GetProfile |
| Tables.RevokeByToken | backend/src/modules/auth/auth.service.ts:141-144 | same length; exactly the rows with that token get `revoked = true`, every other row and field is unchanged |
| Tables.RevokeActiveOf | backend/src/modules/auth/auth.service.ts:156-159 | same length; exactly the unrevoked rows of that user get `revoked = true`, everything else is unchanged |
| Tables.DeleteToken | backend/src/modules/auth/auth.service.ts:117 | a row survives exactly when its token differs; token uniqueness is kept |
| Tables.DeleteOneToken | backend/src/modules/auth/auth.service.ts:117 | with unique tokens, removing a stored token shrinks the table by exactly one row |
| Tables.DeleteAbsentKeepsAll | backend/src/modules/auth/auth.service.ts:117 | removing a token that is not stored leaves the table unchanged |
| Tables.DeleteExpired | backend/src/modules/auth/auth.service.ts:149-151 | a row survives exactly when `now <= expiresAt` (rows with `expiresAt < now` go); token uniqueness is kept |
| Tables.RenameUser | backend/src/modules/user/user.service.ts:58-59 | same length; the user with that id gets the new name and nothing else changes |
| Tables.RevokeByTokenKeepsConstraints | backend/src/database/migrations/1733400000000-InitialMigration.ts:30-43 | revoking by token keeps tokens unique and every token's owner present |
| Tables.RevokeActiveOfKeepsConstraints | backend/src/database/migrations/1733400000000-InitialMigration.ts:30-43 | revoking a user's tokens keeps tokens unique and every token's owner present |
| Tables.RenameKeepsConstraints | backend/src/database/migrations/1733400000000-InitialMigration.ts:9-18 | a rename keeps ids and emails unique and every token's owner present |
| Tables.AppendTokenKeepsConstraints | backend/src/modules/auth/auth.service.ts:79-85 | saving a row with a fresh token for an existing user keeps both token constraints |
| Tables.AppendUserKeepsConstraints | backend/src/modules/auth/auth.service.ts:198-205 | saving a user with a fresh id and an unused email keeps every constraint |
| Ledger.IssueAccessToken | backend/src/modules/auth/auth.service.ts:66-72 | the claims are `sub` = user id and `email` = user email; `iat` is the issuing second and `exp` is 900 seconds later |
| Ledger.AccessTokenLifetime | backend/src/modules/auth/auth.service.ts:70 | a fresh access token is accepted for the first 899 seconds and refused from 900 seconds on |
| Ledger.CheckRefreshToken | backend/src/modules/auth/auth.service.ts:94-119 | the checks run in source order: empty token → missing, no row → unknown, then revoked, then expired (`now > expiresAt`); it is usable only for a stored, unrevoked, unexpired row with that token |
| Ledger.RefreshFailure | backend/src/modules/auth/auth.service.ts:95-119 | every failed check is reported as `Unauthorized` |
| Ledger.RefreshFailuresDistinct | backend/src/modules/auth/auth.service.ts:96-118 | the four failure reasons have four different messages |
| Ledger.UsableIff | backend/src/modules/auth/auth.service.ts:105-119 | with unique tokens, a non-empty token refreshes exactly when a stored row has it, unrevoked and with `now <= expiresAt` |
| Ledger.IssuedRow | backend/src/modules/auth/auth.service.ts:74-83 | the saved row has the given token and owner, is not revoked, is created at `now` and expires seven days later |
| Ledger.IssuedTokenLifetime | backend/src/modules/auth/auth.service.ts:76-77 | a refresh token issued at `t` is usable up to `t` + 7 days inclusive, and expired afterwards |
| Ledger.LookupAppended | backend/src/modules/auth/auth.service.ts:100-103 | a freshly appended row is what a lookup of its token returns |
| Ledger.RevokedTokenRejected | backend/src/modules/auth/auth.service.ts:135-145 | after revoking a non-empty token, refreshing with it fails as revoked or unknown, never succeeds |
| Ledger.RevokeAllRejectsOwnTokens | backend/src/modules/auth/auth.service.ts:154-160 | after revoke-all for a user, each of that user's tokens fails as revoked |
| Ledger.RevokeAllSparesOthers | backend/src/modules/auth/auth.service.ts:154-160 | revoke-all for one user does not change the refresh outcome of any other user's token |
| Ledger.RevokeIdempotent | backend/src/modules/auth/auth.service.ts:162-165 | revoking the same token twice leaves the same table as revoking it once |
| Ledger.RevokeAbsentIsNoOp | backend/src/modules/auth/auth.service.ts:141-144 | revoking a token that is not stored changes nothing |
| Ledger.RevokeSparesOtherTokens | backend/src/modules/auth/auth.service.ts:162-165 | revoking one token does not change the refresh outcome of any other token |
| Ledger.SweepKeepsUsable | backend/src/modules/auth/auth.service.ts:147-152 | the sweep at `now` never removes a token that can still refresh at `now` |
| Ledger.SweepIdempotent | backend/src/modules/auth/auth.service.ts:147-152 | sweeping twice at the same moment equals sweeping once |
| Repository.Database.constructor | backend/src/database/migrations/1733400000000-InitialMigration.ts:6-43 | the empty database satisfies every constraint |
| Auth.AuthService.Login | backend/src/modules/auth/auth.service.ts:29-64 | unknown email → `NotFound("User not found")`; wrong password → `Unauthorized("Invalid password")`, with the token table unchanged in both cases; success returns the issued access token, the new refresh token and the user's profile, and appends exactly one unrevoked row expiring in seven days |
| Auth.AuthService.GenerateRefreshToken | backend/src/modules/auth/auth.service.ts:74-88 | returns the fresh token and appends exactly its issued row; users untouched; constraints kept |
| Auth.AuthService.RefreshAccessToken | backend/src/modules/auth/auth.service.ts:90-133 | a usable token yields an access token and profile for its owner with the table untouched; an expired one removes exactly its row and fails "Refresh token expired"; missing, unknown or revoked fail with their own message and change nothing |
| Auth.AuthService.Logout | backend/src/modules/auth/auth.service.ts:135-145 | an empty token changes nothing; otherwise exactly that token's row is revoked |
| Auth.AuthService.CleanupExpiredTokens | backend/src/modules/auth/auth.service.ts:147-152 | the table becomes exactly the rows with `expiresAt >= now`; users untouched |
| Auth.AuthService.RevokeAllUserTokens | backend/src/modules/auth/auth.service.ts:154-160 | exactly the user's unrevoked rows become revoked; constraints kept |
| Auth.AuthService.RevokeToken | backend/src/modules/auth/auth.service.ts:162-165 | exactly the rows with that token become revoked, with no guard on the argument |
| Auth.AuthService.ValidateUser | backend/src/modules/auth/auth.service.ts:167-175 | returns the stored user with that id, or `Unauthorized("User not found")` exactly when there is none |
| Auth.AuthService.Register | backend/src/modules/auth/auth.service.ts:177-220 | a taken email → `Conflict("Email already exists")`; a hashing failure → `InternalServerError("Failed to register user")`, both leaving users unchanged; otherwise exactly one user is appended with the hashed password, and the profile is returned; email uniqueness is kept and no token is issued |
| Auth.AuthService.ExpiredSessionScenario | backend/src/modules/auth/auth.service.ts:29-133 | register then login succeed; a refresh more than seven days later fails as expired and its row is gone; a new login then succeeds |
| Users.UserService.FindByEmail | backend/src/modules/user/user.service.ts:13-15 | a stored user with that email, or none exactly when no user has it |
| Users.UserService.FindById | backend/src/modules/user/user.service.ts:17-19 | a stored user with that id, or none exactly when no user has it |
| Users.UserService.GetProfile | backend/src/modules/user/user.service.ts:26-44 | fails with "User not found" exactly when no user has the id; otherwise the stored user's id, name, email and creation time |
| Users.UserService.UpdateName | backend/src/modules/user/user.service.ts:46-67 | unknown id: fails and changes nothing; otherwise only that user's name changes, the profile with the new name is returned, and tokens are untouched |
| Users.RenameThenFind | backend/src/modules/user/user.service.ts:58-66 | after the rename, looking the user up by id yields the stored user with the new name |
| FormValidation.SomeChar | frontend/components/auth/form-field.tsx:83-90 | a character-class test is true exactly when some character of the value is in the class |
| FormValidation.MatchSplitsAtFirstAtAndLastDot | frontend/components/auth/form-field.tsx:72 | any match of the email pattern splits the value at its first `@` and its last `.` |
| FormValidation.IsEmailShaped | frontend/components/auth/form-field.tsx:72 | the scan is true exactly when the whole value matches `local@domain.tld` with the pattern's character classes and a tld of at least two letters |
| FormValidation.ValidateEmail | frontend/components/auth/form-field.tsx:69-75 | an email is accepted exactly when it matches the pattern; otherwise "Email is required" when empty, else "Please provide a valid email address" |
| FormValidation.AcceptedEmailHasOneAt | frontend/components/auth/form-field.tsx:72 | an accepted email contains exactly one `@`, with a non-empty part on each side |
| FormValidation.TwoAtsRejected | frontend/components/auth/form-field.tsx:72 | a value with `@` at two different positions is rejected as an invalid email |
| FormValidation.AcceptedEmailEndsInLetters | frontend/components/auth/form-field.tsx:72 | an accepted email ends in a dot followed by two or more letters only |
| FormValidation.EmailExampleAccepted | frontend/components/auth/form-field.tsx:72 | `alice@example.com` is accepted |
| FormValidation.EmailExampleNoDot | frontend/components/auth/form-field.tsx:72 | `alice@example` is rejected as invalid |
| FormValidation.EmailExampleShortTld | frontend/components/auth/form-field.tsx:72 | `alice@example.c` is rejected as invalid |
| FormValidation.EmailExampleTwoAts | frontend/components/auth/form-field.tsx:72 | `alice@@example.com` is rejected as invalid |
| FormValidation.ValidatePassword | frontend/components/auth/form-field.tsx:76-92 | a password is accepted exactly when it has at least 8 characters and an upper-case letter, a lower-case letter, a digit and one of `@$!%*?&`; an empty one is "Password is required" |
| FormValidation.PasswordMissingOneClass | frontend/components/auth/form-field.tsx:82-91 | a long-enough password reports the first missing class in declared order, each with its own message |
| FormValidation.ShortPasswordRejected | frontend/components/auth/form-field.tsx:78-81 | any non-empty password under 8 characters is rejected for its length |
| FormValidation.PasswordExampleAccepted | frontend/components/auth/form-field.tsx:76-92 | `Secret@123` is accepted |
| FormValidation.PasswordExampleNoUpper | frontend/components/auth/form-field.tsx:83-84 | `secret@123` is rejected for lacking an upper-case letter |
| FormValidation.PasswordExampleNoSpecial | frontend/components/auth/form-field.tsx:89-90 | `Secret1234` is rejected for lacking a special character |
| FormValidation.ValidateName | frontend/components/auth/form-field.tsx:93-99 | a name is accepted exactly when it has at least 2 characters; otherwise "Name is required" when empty, else "Name must be at least 2 characters long" |
| FormValidation.ValidateConfirmPassword | frontend/components/auth/form-field.tsx:100-104 | the confirmation is accepted exactly when it is non-empty and equals the password; an empty value gives "Please confirm your password" and a different non-empty value gives "Passwords do not match" |
| FormValidation.ConfirmMatchesValidPassword | frontend/components/auth/form-field.tsx:76-104 | once the password is accepted, the confirmation is accepted exactly when it equals it |
| RouteGuard.Proxy | frontend/proxy.ts:4-33 | a redirect only ever goes to `/login` or `/dashboard`, and never to the path the request is on; which outcome happens when is stated by RouteGuard.ProxyOutcomes |
| RouteGuard.ProxyOutcomes | frontend/proxy.ts:4-33 | redirect to `/login` exactly when there is no cookie on a `/dashboard…` path; redirect to `/dashboard` exactly when there is a cookie on a public path outside client navigation; otherwise pass through |
| RouteGuard.PublicPathsAreUnprotected | frontend/proxy.ts:13-17 | no public path is a protected path |
| RouteGuard.RedirectTargetPassesThrough | frontend/proxy.ts:20-32 | the page a redirect leads to passes through with the same cookie state |
| RouteGuard.DashboardSubpathsProtected | frontend/proxy.ts:13-22 | every path beginning with `/dashboard` sends a visitor without the cookie to `/login` |
| ApiClient.IsAuthEndpoint | frontend/lib/api.ts:41-44 | the URL contains one of `/auth/login`, `/auth/register`, `/auth/refresh`; stated by ApiClient.RefreshUrlsNeverRefresh and ApiClient.LogoutIsNotExempt |
| ApiClient.ShouldRefresh | frontend/lib/api.ts:47 | a 401 reply, `_retry` not set, and not an auth endpoint; stated by ApiClient.Session.Send and ApiClient.RetriedRequestNeverRefreshes |
| ApiClient.RedirectsToLogin | frontend/lib/api.ts:69-71 | the current path is none of `/login`, `/signup`, `/`; stated by ApiClient.Session.Send |
| ApiClient.IsTruthy | frontend/lib/api.ts:26 | the held token is neither null nor empty; stated by ApiClient.Session.AttachToken and ApiClient.Session.Send |
| ApiClient.Session.constructor | frontend/lib/api.ts:15 | a page load starts with no token held |
| ApiClient.Session.SetAccessToken | frontend/lib/api.ts:17-19 | the held token becomes the given one |
| ApiClient.Session.GetAccessToken | frontend/lib/api.ts:21 | returns the held token |
| ApiClient.Session.AttachToken | frontend/lib/api.ts:24-32 | the header becomes `Bearer <token>` exactly when the held token is non-null and non-empty; otherwise it is left as it was |
| ApiClient.Session.Send | frontend/lib/api.ts:35-81 | a refresh happens exactly on a 401 to a non-auth URL not yet retried, and `_retry` is set when it does. On a successful refresh the new token is held and the one retry carries it. On a failed refresh the token is cleared, the browser goes to `/login` exactly when it is not on `/login`, `/signup` or `/`, and the refresh error is returned. Every other reply settles as it came, with the token untouched. The request object keeps the header of the last request sent |
| ApiClient.Session.Login | frontend/lib/api.ts:90-94 | a successful login holds the returned access token; a failed one leaves the held token as it was |
| ApiClient.Session.Logout | frontend/lib/api.ts:96-102 | whatever the server answers, the held token ends up cleared |
| ApiClient.Session.RefreshToken | frontend/lib/api.ts:104-113 | a successful refresh holds the returned token; a failed one leaves it as it was |
| ApiClient.RetriedRequestNeverRefreshes | frontend/lib/api.ts:47-48 | a request already marked `_retry` never triggers a refresh, so each request is retried at most once |
| ApiClient.RefreshUrlsNeverRefresh | frontend/lib/api.ts:41-47 | a 401 on any URL that contains `/auth/refresh` is rejected without a refresh |
| ApiClient.LogoutIsNotExempt | frontend/lib/api.ts:41-47 | `/auth/logout` is not an auth endpoint: a 401 on logout is refreshed and retried |

## Left out

- Password hashing and comparison (bcrypt) are functions passed in. Their cost factor and
  salt are not modelled.
- JWT signing, the secret, the algorithm and signature verification are not modelled. The
  access token is its claims `sub`, `email`, `iat` and `exp`, with `exp` set the way the
  signing library sets it for `'15m'`.
- `randomBytes` and uuid generation: the model takes the fresh token or id as an argument.
  That value must be unused, which the database's unique constraints would otherwise enforce
  by failing the insert.
- Ledger.IssuedRow: `setDate(getDate() + 7)` works on the local calendar, so across a
  daylight-saving change the real interval is 7 days ± 1 hour. The model uses exactly
  7 × 24 hours of milliseconds.
- Repository failures (a failed `save`, `update`, `delete` or `remove`) are not modelled,
  except in `register`, where a throwing hash is the `InternalServerError` path. A failed
  save there is not modelled separately.
- The `updatedAt` column, the row `id` of `refresh_tokens`, the index on `userId` and the
  `ON DELETE CASCADE` action are not modelled: no operation of the core deletes users.
- `UserService.create` is not modelled. It is not used by the authentication flow, and
  `register` writes users itself.
- Controllers, cookies, DTO validation, the NestJS guards and module wiring are not part of
  this model.
- `calculatePasswordStrength` in the form component is not modelled, and neither is any of
  the rendering.
- Auth.AuthService.CleanupExpiredTokens: it deletes rows with `expiresAt < now`, as the
  query's `LessThan` says, so a row with `expiresAt == now` survives the sweep; this is the
  boundary `Ledger.SweepKeepsUsable` relies on.
- Interleavings between the awaits of one operation are not modelled: each service method is
  one atomic step. In the source, `register` reads the email before it saves the user, and
  `refreshAccessToken` reads the row before it removes it. Two concurrent registrations with
  the same email can both pass the check; the second insert then violates the unique email
  constraint, and the catch turns that into `InternalServerError`, never `Conflict`.
- ApiClient.Session.Send: the model assumes a browser (`window` defined) and records the
  redirect as a flag instead of navigating. The HTTP exchanges, their asynchrony and the
  base URL choice are inputs or left out. A missing `accessToken` field in the refresh reply
  is held as no token and rendered as `Bearer undefined` in the retried header; a JSON
  `null` would render as `null`, which the model does not distinguish.
- ApiClient.Session.Logout: its contract pins the cleared token and the cases in which a
  redirect can happen, not the reply it settles with, which `Send` already describes.
- String lengths are counted in Dafny characters. JavaScript counts UTF-16 code units, so
  the two differ for characters outside the Basic Multilingual Plane.
- RouteGuard: the route matcher configuration, URL parsing and the comparison of the
  referer's origin are inputs (`pathname`, `isClientNavigation`) rather than modelled.
- Cross-tab logout broadcast and the auth context of the frontend are not part of this model.
