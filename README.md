# Contacts backend: contact table, user lifecycle and token rules in Dafny

This project models the core of a personal-contacts web backend (FastAPI, SQLAlchemy,
python-jose, passlib, Redis) and proves properties of the model.

- **Contact table** (`ContactRepository`, src/repository/contacts.py). The `contacts` table is a class
  `ContactTable` with a sequence of rows in insertion order and the next id of the database's id sequence.
  It has five methods: paging by `skip`/`limit`, lookup by id, create with a fresh id, delete, and update.
  Delete returns the removed row or `None`. Update overwrites exactly the five client fields in place.
  The repository functions take no user and do not filter by owner, so neither does the model.
  The owner column is kept and never set.
- **User table** (`UserRepository`, src/repository/users.py). The `users` table is a class `UserTable`.
  Users are keyed by unique email. Each user has a bcrypt digest, a `confirmed` flag, a nullable stored
  refresh token and a nullable avatar. The methods find a user by email, add a user, and assign one field
  of a stored user.
- **Token rules** (`AuthTokens`, src/services/auth.py). A token is a claims record `{sub, scope, iat, exp}`
  plus a flag saying whether it was signed with the server's key (`Crypto`). Each constructor stamps a fixed
  scope and a lifetime. Each verifier accepts one scope.
- **Current user** (`CurrentUser`, src/services/auth.py). `get_current_user` checks the access token, then
  reads through a Redis cache keyed `user:<email>` whose entries live 900 seconds. The cache is a map from
  key to (user, expiry second).
- **Authentication routes** (`AuthRoutes`, src/routes/auth.py). Signup, login, refresh and email
  confirmation are each written twice. A spec function gives the response and the user rows afterwards.
  A method runs the handler's steps against a `UserTable` and is proved equal to the spec function.

Time is an integer number of seconds, passed in as `now`. Password hashing and token signing are
idealised. `Crypto.Hash` keeps the password it was computed from, so that `Crypto.Verify` can be
stated exactly. `Crypto.Decode` accepts a token signed with the server's key while `now <= exp`;
python-jose refuses a token only once `exp < now`. The random bcrypt salt is a parameter.

Where the written design and the code disagree, the model follows the code:

- The design says every contact query is filtered by owner. The repository code shown has no owner
  parameter and no filter.
- The design says cache entries expire with the token. The code sets a fixed 900-second expiry.
- The design describes a logout that clears the refresh token. The code has no logout route.
- The design expects refresh tokens to be accepted by the refresh route. The code as written refuses
  all of them (see Findings).

## Model

| member | source | states |
|---|---|---|
| `Crypto.Hash` | src/services/auth.py:39-48 | a digest of a password verifies against that password |
| `Crypto.Verify` | src/services/auth.py:25-36 | a digest verifies a plain password exactly when it is a digest of that password, under whatever salt it carries |
| `Crypto.VerifyHashExactly` | src/services/auth.py:25-36 | a digest verifies exactly the password it was computed from, whatever the salt |
| `Crypto.Encode` | src/services/auth.py:68 | an encoded token is signed and carries the given claims |
| `Crypto.Decode` | src/services/auth.py:126 | decoding succeeds exactly on a token signed with the server's key whose `exp` second has not passed, and yields that token's claims |
| `Crypto.EncodeDecodeRoundTrip` | src/services/auth.py:126 | a server-encoded token decodes to its own claims until its `exp` second, and never after |
| `Crypto.ForgedNeverDecodes` | src/services/auth.py:131-132 | a token not signed with the server's key never decodes |
| `ContactRepository.IndexOf` | src/repository/contacts.py:14 | the position returned holds the id, and no earlier row holds it; `None` exactly when no row holds it |
| `ContactRepository.LookupMeaning` | src/repository/contacts.py:13-14 | lookup returns a stored row with the requested id, and `None` exactly when no row has that id |
| `ContactRepository.LookupFindsRow` | src/repository/contacts.py:13-14 | with unique ids, every stored row is what lookup returns for its id |
| `ContactRepository.PageShape` | src/repository/contacts.py:9-10 | a page is the contiguous run of rows starting at `skip`, of length min(limit, max(0, n - skip)) |
| `ContactRepository.PagesTile` | src/repository/contacts.py:9-10 | a page of `a` rows followed by the next page of `b` rows is the page of `a + b` rows |
| `ContactRepository.CreatedIsFound` | src/repository/contacts.py:17-22 | a row added under a fresh id is found by that id; every other id finds what it found before |
| `ContactRepository.DropKeepsValid` | src/repository/contacts.py:25-30 | deleting one row keeps ids unique, increasing and in range, and keeps the field widths |
| `ContactRepository.WithoutPresent` | src/repository/contacts.py:25-30 | deleting a present id drops exactly that row: one row fewer, the others in order |
| `ContactRepository.WithoutAbsent` | src/repository/contacts.py:25-30 | deleting an absent id leaves the table unchanged |
| `ContactRepository.WithoutElements` | src/repository/contacts.py:25-30 | after deleting the row at position `i`, earlier rows stay in place and later rows move down by one |
| `ContactRepository.WithoutRemoves` | src/repository/contacts.py:25-30 | after a delete the table is valid and the id is no longer found |
| `ContactRepository.WithoutKeepsOthers` | src/repository/contacts.py:25-30 | a delete does not change what any other id finds |
| `ContactRepository.RemoveIdempotent` | src/repository/contacts.py:25-30 | a second delete of the same id finds nothing and changes nothing |
| `ContactRepository.OverwriteExactlyFive` | src/repository/contacts.py:36-40 | an update sets the five fields to the body's values and keeps the id and the owner |
| `ContactRepository.UpdatedLookup` | src/repository/contacts.py:33-42 | updating a present id changes only that row's five fields; other ids and the row order stay; an absent id changes nothing |
| `ContactRepository.ContactTable.GetContacts` | src/repository/contacts.py:9-10 | returns at most `limit` rows, each equal to the stored row at position `skip + i` |
| `ContactRepository.ContactTable.GetContact` | src/repository/contacts.py:13-14 | returns the row with that id, or `None` exactly when there is none |
| `ContactRepository.ContactTable.CreateContact` | src/repository/contacts.py:17-22 | appends one row with a fresh id, the body's five fields and no owner; the existing rows are untouched |
| `ContactRepository.ContactTable.RemoveContact` | src/repository/contacts.py:25-30 | returns the row that had the id, or `None`; the table loses exactly that row |
| `ContactRepository.ContactTable.UpdateContact` | src/repository/contacts.py:33-42 | returns the overwritten row, or `None` with the table unchanged |
| `ContactRepository.RepeatedDelete` | tests/test_route_contacts.py:234-253 | deleting the same id twice gives `None` the second time |
| `UserRepository.IndexOfEmail` | src/repository/users.py:17 | the position returned holds the email, and no earlier user holds it; `None` exactly when no user holds it |
| `UserRepository.FindByEmailMeaning` | src/repository/users.py:8-17 | returns a stored user with that email, and `None` exactly when there is none |
| `UserRepository.FindByEmailIsTheMatch` | src/database/models.py:24 | emails are unique: at most one user matches an email, and the lookup returns that user |
| `UserRepository.AddedIsFound` | src/repository/users.py:30-34 | a user added under a fresh email is found by it; every other email finds what it found before |
| `UserRepository.WithTokenEffect` | src/repository/users.py:37-47 | `update_token` sets only that user's refresh token, possibly to `None`; no other field or user changes |
| `UserRepository.ConfirmedEffect` | src/repository/users.py:50-60 | `confirmed_email` sets only that user's flag; no other field or user changes |
| `UserRepository.ConfirmedIdempotent` | src/repository/users.py:58-60 | confirming twice gives the same table as confirming once |
| `UserRepository.WithAvatarEffect` | src/repository/users.py:62-79 | `update_avatar` sets only that user's avatar; no other field or user changes |
| `UserRepository.UserTable.GetUserByEmail` | src/repository/users.py:8-17 | returns the user with that email, or `None` exactly when there is none |
| `UserRepository.UserTable.CreateUser` | src/repository/users.py:20-34 | appends one user with a fresh id and the body's username, email and (already hashed) password; not confirmed, no token, no avatar |
| `UserRepository.UserTable.UpdateToken` | src/repository/users.py:37-47 | the table afterwards is the old one with that user's refresh token replaced |
| `UserRepository.UserTable.ConfirmedEmail` | src/repository/users.py:50-60 | requires the user to exist, because there is no `None` check; the table afterwards has that user confirmed |
| `UserRepository.UserTable.UpdateAvatar` | src/repository/users.py:62-79 | requires the user to exist; sets the avatar and returns the updated user |
| `AuthTokens.CreateAccessToken` | src/services/auth.py:52-69 | access scope, subject, `iat = now`; `exp = now + delta`, or `now + 900` when the delta is absent or 0 |
| `AuthTokens.CreateRefreshToken` | src/services/auth.py:73-92 | as written: email scope; `exp = now + delta`, or `now + 7 days` when the delta is absent or 0 |
| `AuthTokens.CreateRefreshTokenIntended` | src/services/auth.py:114-130 | the corrected constructor: refresh scope, same lifetime rule |
| `AuthTokens.CreateEmailToken` | src/services/auth.py:95-111 | email scope, subject, `iat = now`, `exp = now + 3 days` |
| `AuthTokens.DecodeRefreshToken` | src/services/auth.py:114-132 | succeeds exactly on a decodable token with the refresh scope and returns its subject; every failure is 401 |
| `AuthTokens.GetEmailFromToken` | src/services/auth.py:177-196 | succeeds exactly on a decodable token with the email scope and returns its subject; a decodable token of another scope is 401, an undecodable one 422 |
| `AuthTokens.AccessTokenSubject` | src/services/auth.py:151-161 | succeeds exactly on a decodable access-scoped token with a subject and returns that subject; every failure is 401 "Could not validate credentials" |
| `AuthTokens.VerifiersAcceptOneScope` | src/services/auth.py:114-196 | each verifier succeeds exactly on a decodable token of its own scope (and, for access, with a subject), and returns that token's subject |
| `AuthTokens.VerifierErrorCodes` | src/services/auth.py:188-196 | every failure is 401, except an undecodable token at the email check, which is 422 |
| `AuthTokens.AccessTokenAcceptedUntilExpiry` | src/services/auth.py:151-161 | an issued access token authenticates its subject up to its expiry second and is refused with 401 after |
| `AuthTokens.EmailTokenAcceptedUntilExpiry` | src/services/auth.py:188-196 | an email token yields its subject for three days, then 422 |
| `AuthTokens.IssuedRefreshTokenRejected` | src/services/auth.py:127 | no token issued by `create_refresh_token` is ever accepted by `decode_refresh_token`: always 401 |
| `AuthTokens.IssuedRefreshTokenPassesEmailCheck` | src/services/auth.py:189 | every unexpired issued refresh token passes `get_email_from_token` and yields its subject |
| `AuthTokens.IntendedRefreshTokenRoundTrip` | src/services/auth.py:126-132 | a refresh-scoped token decodes to its subject until it expires, and the email check refuses it |
| `AuthTokens.OnlyAccessTokensAuthenticate` | src/services/auth.py:154-159 | no refresh or email token passes the access check |
| `CurrentUser.CacheKey` | src/services/auth.py:163 | the key is `user:` followed by the email, so the email can be read back from it |
| `CurrentUser.CacheGet` | src/services/auth.py:163-164 | a key with no expiry answers with its stored user; a key with an expiry answers only before that second; a missing key answers `None` |
| `CurrentUser.CacheKeyInjective` | src/services/auth.py:163 | distinct emails have distinct cache keys |
| `CurrentUser.AuthenticatedUserMatchesSubject` | src/services/auth.py:151-174 | a user is returned only for a decodable access token, and it is the user whose email is the subject; the cache stays consistent |
| `CurrentUser.FailureLeavesCache` | src/services/auth.py:146-168 | every failure is 401 and leaves the cache unchanged |
| `CurrentUser.HitIgnoresTable` | src/services/auth.py:163-174 | on a cache hit the cached user is returned whatever the user table holds, and nothing changes |
| `CurrentUser.ReadThroughWithinTtl` | src/services/auth.py:163-170 | after a miss stores the user, later calls within 900 s return that same user whatever the table then holds |
| `CurrentUser.EntryExpiresAfterTtl` | src/services/auth.py:169-170 | 900 s after a miss the stored entry no longer answers, and the table is read again |
| `CurrentUser.AuthService.CacheSet` | src/services/auth.py:169 | stores the user under the key with no expiry |
| `CurrentUser.AuthService.CacheExpire` | src/services/auth.py:170 | sets the key's expiry second to `now + seconds` |
| `CurrentUser.AuthService.GetCurrentUser` | src/services/auth.py:135-174 | the result and the new cache are those of the cached read-through specification |
| `AuthRoutes.SignupOutcome` | src/routes/auth.py:29-35 | 409 exactly when the email is taken, with no change; otherwise one unconfirmed user appended whose stored password is `hash(password)` |
| `AuthRoutes.MintRefreshToken` | src/routes/auth.py:56 | the refresh token the routes issue: the subject, `iat = now`, a 7-day expiry, and the email scope as written or the refresh scope as intended |
| `AuthRoutes.LoginOutcome` | src/routes/auth.py:47-58 | each of the three rejections happens exactly under its own condition, in order, with no change; success issues a 7200 s access token and a newly minted refresh token, and stores that refresh token on that user only |
| `AuthRoutes.SignupConfirmLogin` | src/routes/auth.py:15-108 | a new user cannot log in before confirming; after confirming with an email token, the same password logs in |
| `AuthRoutes.RefreshRejectsIssuedTokens` | src/routes/auth.py:72-77 | the refresh route refuses every token `create_refresh_token` issues with 401 and changes nothing |
| `AuthRoutes.LoginThenRefreshFails` | src/routes/auth.py:56-77 | the refresh token returned by login never refreshes |
| `AuthRoutes.RefreshMismatchRevokes` | src/routes/auth.py:75-77 | a decodable refresh token that differs from the stored one sets the stored token to `None` and fails with 401; other users are untouched |
| `AuthRoutes.RefreshReplayFails` | src/routes/auth.py:75-82 | after a successful refresh, replaying the old token gives 401 and revokes the stored token; for the intended route this needs the old token to be issued in an earlier second |
| `AuthRoutes.SameSecondRotationRepeatsToken` | src/routes/auth.py:75-82 | in the intended route, a refresh in the second its token was issued mints the same token, leaves the table unchanged, and the token refreshes again |
| `AuthRoutes.IntendedRefreshTokenRefreshes` | src/routes/auth.py:73-82 | in the intended route, presenting the stored refresh-scoped token succeeds and stores the newly minted token |
| `AuthRoutes.IntendedLoginThenRefresh` | src/routes/auth.py:47-82 | in the intended program, the refresh token that login returns refreshes until it expires, and the new one is stored |
| `AuthRoutes.ConfirmOutcome` | src/routes/auth.py:101-108 | a failing token check or an unknown user (400) changes nothing; an already confirmed user gets "already confirmed" and nothing changes; otherwise only that user becomes confirmed |
| `AuthRoutes.ConfirmRouteIdempotent` | src/routes/auth.py:101-108 | confirming again with the same token answers "already confirmed" and changes nothing |
| `AuthRoutes.LoginRefreshTokenConfirmsEmail` | src/routes/auth.py:101-106 | the refresh token returned by login is accepted by the email-confirmation route |
| `AuthRoutes.Signup` | src/routes/auth.py:29-35 | the handler's steps give the response and table of the signup specification |
| `AuthRoutes.Login` | src/routes/auth.py:47-58 | the handler's steps give the response and table of the login specification |
| `AuthRoutes.Refresh` | src/routes/auth.py:72-82 | the handler's steps give the response and table of the refresh specification |
| `AuthRoutes.ConfirmEmail` | src/routes/auth.py:101-108 | the handler's steps give the response and table of the confirmation specification |

## Left out

- Owner scoping: the repository functions shown take no user, so no property about owners is stated.
- The route layer for contacts (src/routes/contacts.py): it only maps an empty result or `None` to 404.
- The user routes (src/routes/users.py): `/users/me/` returns the current user, and `/users/avatar` uploads
  the image to Cloudinary and passes the resulting URL to `update_avatar` (lines 58-61). Only the table
  effect of `update_avatar` is modelled.
- Searching by first name, last name or email, and the birthday query: the routes and tests call them,
  but they are not in src/repository/contacts.py.
- Sending the confirmation email, the rate limiter and CORS: foreign I/O.
- ContactRepository.ContactTable.GetContacts: `skip` and `limit` are natural numbers. A negative offset
  or limit reaches the database, which rejects it; that is not this code's behaviour.
- AuthTokens.CreateAccessToken: `expires_delta` is a whole number of seconds. Fractional seconds are not
  modelled, because the token stores whole seconds anyway.
- Claims that lack a `sub` or `scope` key would raise `KeyError` (an HTTP 500). Every token the server
  signs has both keys, so the claims record always has both. A null `sub` is modelled.
- Crypto.Hash: bcrypt is one-way and salted. The model keeps the preimage so that `Verify` is exact.
  bcrypt looks only at the first 72 bytes of a password (passlib either truncates silently or refuses
  longer passwords, depending on its version). So two passwords that agree on their first 72 bytes
  verify against each other in the program, while `Crypto.VerifyHashExactly` and the "Invalid password"
  condition of `AuthRoutes.LoginOutcome` tell them apart.
- Crypto.Decode: only the signature and `exp` checks of python-jose are modelled. `iat`, algorithm
  negotiation and token text are not.
- The Redis cache holds a pickled copy of the user. The model stores the user value, which gives the same
  snapshot behaviour. Lazy deletion of expired keys is not modelled; an expired key simply does not answer.
- The database's row order is taken to be insertion order; the paging query has no `ORDER BY`.
- `created_at` is set to `now`. `confirmed` starts false and `avatar` starts empty: both columns are used
  by the code but missing from src/database/models.py.
- Cascade delete of contacts when a user is deleted: no code here deletes users.
- async/await: every call is treated as sequential.
- AuthRoutes.RefreshReplayFails: for the intended route it requires the presented token's `iat` to be
  before the current second. Token times are whole seconds and signing is deterministic, so a refresh in
  the same second re-mints the presented token (`AuthRoutes.SameSecondRotationRepeatsToken`) and rotation
  does not retire it. The program as written never refreshes at all, so this only concerns the corrected
  constructor.

## Findings

| source | as written | input that shows it | evidently intended | confidence | as-written member | corrected member |
|---|---|---|---|---|---|---|
| src/services/auth.py:90 | `create_refresh_token` stamps scope `"email_token"`, but `decode_refresh_token` (line 127) accepts only `"refresh_token"` | log in as a confirmed user, then present the returned refresh token to `/refresh_token` one second later: 401 "Invalid scope for token"; the same token sent to `/confirmed_email/{token}` is accepted | scope `"refresh_token"`, as the verifier and its docstring (lines 116-118) say | high; not executed | `AuthTokens.CreateRefreshToken`, `AuthTokens.IssuedRefreshTokenRejected`, `AuthRoutes.LoginThenRefreshFails` | `AuthTokens.CreateRefreshTokenIntended`, `AuthTokens.IntendedRefreshTokenRoundTrip`, `AuthRoutes.IntendedLoginThenRefresh` |

`AuthRoutes.LoginSpec` and `AuthRoutes.RefreshSpec` take the constructor they mint refresh tokens with
(`AuthRoutes.MintRefreshToken`). The handler methods use the constructor as written, so the defect's
effect on each route is proved (`AuthRoutes.RefreshRejectsIssuedTokens`,
`AuthRoutes.LoginRefreshTokenConfirmsEmail`). With the intended constructor, the refresh token that login
returns refreshes (`AuthRoutes.IntendedLoginThenRefresh`). A replayed token is refused only when it was
issued before the second of the refresh that replaced it (`AuthRoutes.RefreshReplayFails`,
`AuthRoutes.SameSecondRotationRepeatsToken`). In the program as written no stored token ever passes the
refresh route, so rotation never happens there.
