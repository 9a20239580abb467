# Refresh-session lifecycle of a user-account service

This project models the core of a small Go web service for user accounts
(`controllers/userController.go` and `models/refreshToken.go`). It covers registration,
login with a password, refresh-token rotation, logout and the two profile updates. These are
guarded updates of two database tables:

- **users**: rows keyed by an auto-increment ID starting at 1, with a unique email.
- **refresh_sessions**: one `RefreshSession` row per login (ID, UserID, Token, ExpiresAt,
  CreatedAt). The primary key is the ID and Token has a unique index.

The model is laid out as follows:

- `wrappers.dfy`: `Option`.
- `refresh_token.dfy` (module `RefreshToken`): the session row and the table as a
  `map<nat, RefreshSession>`. The database's two constraints are `Keyed` and `TokensUnique`.
  The three things the handlers do to the table are functions: find by token, save a row,
  delete by token. Lemmas state what those keep and what they change.
- `user_controller.dfy` (module `UserController`): the user row and the handler `Response`
  (status, message, and the user view or the two token values the handler puts in cookies).
  The class `Controller` holds both tables and their auto-increment counters. It has one method
  per state-changing handler. `Valid()` states the database constraints, plus that every session
  belongs to a stored user.
- `lifecycle.dfy` (module `SessionLifecycle`): clients that chain handlers as a browser would.
  Each proves, from the handlers' contracts alone, one lifecycle property: a refresh token is
  single-use, a session lives exactly seven days, logout revokes and is idempotent, and a
  duplicate email is refused.

Foreign calls and the environment are parameters:
- `hash(password)` is bcrypt's hash of a submitted password (`None` when hashing fails).
- `verify(hash, password)` is bcrypt's comparison, left uninterpreted.
- `accessToken: Option<string>` is what the JWT issuer returned (`None` when signing failed).
- The random refresh token is given as a string.
- `now` is the clock reading, in whole seconds.
- A request body is `None` when JSON binding failed, and a cookie is `None` when it is absent.

Behaviours of the code that the model keeps as they are:
- Login answers an unknown email and a wrong password with different messages
  (controllers/userController.go:163, 173), so a caller can tell whether an email is registered.
- UpdatePassword writes `body.NewPassword` unhashed (controllers/userController.go:322). Login
  then hands that plaintext to bcrypt as if it were a hash, so the user is locked out of Login
  while their refresh sessions stay alive (`SessionLifecycle.PasswordChangeLocksOutLogin`).
- Refresh's `Save` (controllers/userController.go:235) has no compare-and-swap on the old
  token, so two racing refreshes of one token can both succeed.
- The random tokens are not assumed fresh. `DB.Save` is modelled with the unique index on
  Token, which rejects a row whose token another row already holds. Both handlers ignore the
  save's error and still answer 200. The lemmas and lifecycle clients take freshness as a
  hypothesis where they need it.

## Model

| member | source | states |
|---|---|---|
| `RefreshToken.AtMostOneWithToken` | models/refreshToken.go:8 | Under the unique index on Token, a token selects at most one row. |
| `RefreshToken.UniqueIndexIffSingleMatch` | models/refreshToken.go:8 | The unique index holds if and only if every token selects at most one row (both directions). |
| `RefreshToken.FindByToken` | controllers/userController.go:216-223 | The lookup finds nothing exactly when no row carries the token. Otherwise it returns the one stored row carrying it, and that row is the only match. |
| `RefreshToken.Save` | controllers/userController.go:196 | A save never changes another row. A row admitted by the unique index is stored under its ID. A row rejected by the index leaves the table unchanged. |
| `RefreshToken.SaveKeepsValid` | models/refreshToken.go:6-8 | A save never breaks the primary key or the unique index on Token. |
| `RefreshToken.InsertedRowIsFound` | controllers/userController.go:189-196 | A new row with a token no row holds adds exactly one key, and its token finds exactly that row. |
| `RefreshToken.RotationRetiresOldToken` | controllers/userController.go:232-235 | Rotating a stored row to a fresh token changes only that row. It keeps its ID, UserID and CreatedAt and gets the new token and `now` + 7 days. The new token finds it, and the old token finds nothing. |
| `RefreshToken.DeleteByToken` | controllers/userController.go:339-340 | Deleting by token removes exactly the rows carrying the token and leaves every other row unchanged. Afterwards no row carries the token, and the table's constraints still hold. |
| `UserController.FindByEmail` | controllers/userController.go:158-161 | The email lookup finds nothing exactly when no user has the email (Login's `user.ID == 0` case). Otherwise it returns the only user with it. |
| `UserController.PutUserKeepsEmailsUnique` | controllers/userController.go:52-59 | Storing a user keeps emails unique when no other user holds its email. |
| `UserController.Controller.RegisterUser` | controllers/userController.go:27-67 | Three failures leave the tables unchanged: a body that does not bind (400), a failed hash (400 "cannot hash the password"), and a taken email (400 "fail to create the user"). Otherwise it inserts one user under the next ID, whose password field is `hash` applied to the submitted password, and returns name and email. |
| `UserController.Controller.Login` | controllers/userController.go:145-204 | Succeeds if and only if the body binds, the email names a user, the password verifies and an access token was issued. Each failure has its own 400 message and leaves both tables unchanged, including the token failure that follows the refresh token's generation. On success it saves one session {next ID, the user's ID, the refresh token, `now` + 7 days, created `now`}, returns both tokens and leaves users unchanged. |
| `UserController.Controller.Refresh` | controllers/userController.go:206-246 | A missing cookie, an unknown token and an expired session (`ExpiresAt < now`, strict) each fail with their own 401 and leave the tables unchanged. Otherwise it rotates that row in place (the save of `Rotated`) and returns the new refresh token and the access token, or "" when signing failed. Users never change. |
| `UserController.Controller.Logout` | controllers/userController.go:334-354 | Always answers 200 "logged out" and deletes exactly the sessions carrying the cookie's token, or the empty token when the cookie is absent. Users are untouched. |
| `UserController.Controller.UpdatePassword` | controllers/userController.go:287-332 | An unknown user fails with 500, an unbound body with 400 and a wrong current password with 401, each changing nothing. Otherwise it sets that user's password field to the new password as given (unhashed) and changes nothing else. Sessions are never revoked, and Login is then locked out (see `SessionLifecycle.PasswordChangeLocksOutLogin`). |
| `UserController.Controller.UpdateUserByUser` | controllers/userController.go:106-143 | An unknown user fails with 500 and an unbound body with 400. Otherwise the name is always updated. The email is updated too unless another user holds it, in which case the handler answers 500 "failed to update" with the new name already stored. |
| `SessionLifecycle.RefreshTokenIsSingleUse` | controllers/userController.go:189-235 | After a login with fresh tokens, the first Refresh with the login's token succeeds with the rotated token. Presenting the same token again fails with 401 "invalid refresh token". |
| `SessionLifecycle.SessionLivesSevenDays` | controllers/userController.go:225-230 | After a login at time `t`, a Refresh presenting the login's token at time `at` succeeds if and only if `at` <= `t` + 7 days. Otherwise it is refused as "refresh token expired" (expiry is strict). |
| `SessionLifecycle.LogoutRevokes` | controllers/userController.go:339-352 | Logging out twice with a token answers "logged out" both times and leaves the sessions as one logout does. A Refresh with that token then fails as invalid. |
| `SessionLifecycle.SecondRegistrationWithSameEmailFails` | controllers/userController.go:52-59 | A second registration with an already registered email fails with "fail to create the user", and the first user's record is kept as stored. |
| `SessionLifecycle.PasswordChangeLocksOutLogin` | controllers/userController.go:312-322 | Assume bcrypt's comparison accepts only well-formed hashes and the new password is not one. Then after a successful UpdatePassword, Login with that user's email fails with "invalid email or password" for any password, and every refresh session is kept. |

## Left out

- `Me` (controllers/userController.go:248-285): JWT parsing and signature checks are library crypto over code that is not part of this model. Its missing `return` after `AbortWithStatus` is transport behaviour.
- `Validate`, `GetUsers`, `GetUserById`, `getById` (controllers/userController.go:19-25, 69-104): thin reads of the context or the database, with no state change.
- bcrypt hashing and comparison: a foreign library, modelled as the parameters `hash` and `verify` with no behaviour of their own. Its salt is not modelled: `hash` is the hasher as it behaves on that call. The hash format appears only as the `isHash` hypothesis of `SessionLifecycle.PasswordChangeLocksOutLogin`.
- Logging: `fmt.Println(err)` in Login (controllers/userController.go:182) and `fmt.Println(refreshToken)` in Logout (line 337). The second one writes a live refresh token, a bearer credential, to standard output.
- `utils.GenerateAccessToken` and `utils.GenerateRefreshToken`: not part of this model. Their results are parameters.
- HTTP plumbing: cookie attributes (max-age 900 and 7 days, SameSite, path, domain), cookie clearing on logout, and JSON rendering.
- Database failures other than the two constraints modelled (unique Token, unique email): connection loss and similar. Login's and Refresh's ignored save errors appear only as a rejected save that leaves the table unchanged.
- Concurrency: racing Refresh calls on one row, and the atomicity the plain save does not provide.
- `models/user.go` is not part of this model. The User fields are those the handlers use, and the unique email is the constraint the registration's failure path relies on.
- `UserController.Controller.Refresh`: reads the clock once. The source reads it twice, for the expiry check (line 225) and for the new expiry (line 234).
- `initializer/LoadEnvVariables.go`: environment and file I/O.
