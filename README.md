# Authentication core of an e-commerce API, modelled in Dafny

This project models the authentication core of a FastAPI e-commerce service:

- **Users and the user service.** The users table, lookup by email (`get_user`), `user_exists`, and `create_user`. Creation hashes the password, forces the role to `"user"` and leaves the account unverified.
- **Request schemas.** The length limits on the signup and login bodies. A body that breaks them is refused with the list of fields it breaks.
- **Token verification gate.** The bearer dependencies:
  - a token that does not decode is refused;
  - access and refresh tokens are told apart by the `refresh` claim;
  - a refresh token is checked against the ledger by its `jti`. The lookup fails closed: an unknown jti counts as revoked.
  - `get_current_user` resolves the caller from an access token.
- **Refresh-token ledger.** A table of rows `{jti, user_uid, revoked}` held in an array. Logout walks it and revokes every unrevoked row of one user.
- **Handlers.** Signup with its duplicate-email check, account verification, login with its single failure response, logout, and the refresh exchange. The exchange mints an access token only while the refresh token's `exp` is strictly later than now.

Modules, one per source file, plus one for the shared types and one for the ledger:

- `AuthTypes` holds the shared data and errors.
- `Schemas` models `src/auth/schemas.py`.
- `UserService` models `src/auth/service.py`. Its class `UserRegistry` holds the users table.
- `Dependencies` models `src/auth/dependencies.py`.
- `Ledger` holds the ledger rows and the revocation loop of logout. Its class `RefreshLedger` wraps an array.
- `Routes` models `src/auth/routes.py`.

Some things become inputs:

- Decoding a bearer credential becomes an input of type `Option<Claims>`. `None` means the token did not decode.
- A minted token is represented by the `user` claims given to the encoder.
- Password hashing (`hash`) and password checking (`verifyPassword`) are function parameters.
- New uids and the clock (`now`, in integer seconds) are parameters.

A missing key under a Python subscript (`claims["refresh"]`, `claims["user"]["email"]`, `claims["jti"]`, `claims["exp"]`) is a `KeyError` in the source. Here it is the error `MissingKey(key)`.

Points where the code does less than one might expect, and which the model follows:

- **Email uniqueness.** Emails are meant to be unique, but the users table declares no unique constraint (src/db/models.py:19-20). Signup's existence check is the only guard. `Signup` keeps `UniqueEmails` when it already held, but the table can still contain duplicates. Which duplicate a lookup then returns is the model's choice (see `UserService.GetUser` under "## Left out").
- **Duplicate jtis.** Jtis are meant to be unique, but `is_token_revoked` uses `one_or_none()`, which fails when several rows share a jti. This is `MultipleResultsFound`. `UniqueJtiLookup` shows that the failure cannot happen when jtis are unique.
- **Role in refreshed tokens.** A refreshed access token is built from the refresh token's `user` claims, and those claims have no `role` (src/auth/routes.py:85, 138). So it does not carry the identity the login's access token carried. `LoginThenRefresh` states this.
- **Email verification.** The verification link is a decoded URL-safe token, not a stored single-use token. When the token has no email, or an empty one, the handler does nothing and returns `None`, which is sent as JSON `null` with status 200.
- **Empty claims.** The access bearer lets an empty claims map through unchecked (`if token_data and ...`). It fails with `KeyError` on a non-empty map that has no `refresh` key.
- **Usernames.** Signup checks only that the email is not taken. Nothing in the source keeps usernames unique.
- **Error definitions.** `src/errors.py` defines only `InvalidToken` and `InvalidAccessToken`. The other errors the handlers import (`InvalidRefreshToken`, `UserNotFound`, `UserAlreadyExists`, `AccessTokenRequired`) are used here as plain error constructors.

## Model

| member | source | states |
|---|---|---|
| `Schemas.SignupViolations` | src/auth/schemas.py:6-11 | The broken fields of a signup body, in declaration order. The list is empty exactly when first and last name have at most 25 characters, username at most 8, email at most 40, and password at least 6. Each field is listed exactly when its own bound fails. |
| `Schemas.LoginViolations` | src/auth/schemas.py:14-16 | The broken fields of a login body. The list is empty exactly when the email has at most 40 characters and the password at least 6. Only those two fields can appear. |
| `UserService.FirstIndex` | src/auth/service.py:9-13 | The position of the first row with the given email. No earlier row has it. None exactly when no row has that email. |
| `UserService.GetUser` | src/auth/service.py:9-13 | The user returned is in the table, has the queried email, and is the first such row. None exactly when no user has that email. |
| `UserService.UserExists` | src/auth/service.py:15-17 | True exactly when some user in the table has the email, which is when `get_user` finds one. |
| `UserService.GetUserUnique` | src/auth/service.py:9-13 | When emails are unique, the lookup returns the one row that has the email. |
| `UserService.AppendFreshKeepsUnique` | src/auth/routes.py:33-39 | Appending a user whose email is not yet taken keeps emails unique. This is the guard signup's existence check provides. |
| `UserService.UserRegistry.CreateUser` | src/auth/service.py:19-26 | Appends exactly one row and leaves the existing rows as they were. The row copies email, username, first and last name, stores `hash(password)` as the password hash, gets role "user", and is unverified. Afterwards `user_exists(email)` holds. |
| `Dependencies.WithJti` | src/auth/dependencies.py:22 | The rows selected by jti: empty exactly when no row has the jti, the single row when exactly one has it, and two or more exactly when the jti is duplicated. |
| `Dependencies.IsTokenRevoked` | src/auth/dependencies.py:21-25 | An unknown jti is revoked. A jti held by exactly one row gives that row's `revoked` flag. The lookup fails with MultipleResultsFound exactly when several rows hold the jti. |
| `Dependencies.JtiCases` | src/auth/dependencies.py:22-23 | Every jti is in exactly one of three cases: absent from the ledger, held by exactly one row, or duplicated. The cases exclude each other. |
| `Dependencies.UniqueJtiLookup` | src/auth/dependencies.py:21-25 | In a ledger with unique jtis the lookup never fails. It reports revoked exactly when every row with that jti is revoked, which includes the case of no row. |
| `Dependencies.AccessCheck` | src/auth/dependencies.py:55-58 | Refuses with InvalidAccessToken exactly when `refresh` is true. Accepts exactly an empty map or one whose `refresh` is false. An accepted map is returned unchanged. A non-empty map without `refresh` fails with `MissingKey("refresh")`. |
| `Dependencies.RefreshCheck` | src/auth/dependencies.py:61-69 | When `refresh` is absent or false it refuses with InvalidRefreshToken, whatever the ledger holds. Otherwise it accepts exactly when the jti is present and the ledger reports it as not revoked. A revoked or unknown jti is refused with InvalidRefreshToken. A missing jti fails with `MissingKey("jti")`, and a duplicated jti with MultipleResultsFound. |
| `Dependencies.VerifyToken` | src/auth/dependencies.py:32-48 | Fails with InvalidToken exactly when the token did not decode, so no kind check runs on an undecodable token. On decoded claims the verdict is exactly that of the kind's check (`AccessCheck` or `RefreshCheck`), so every error those checks give, including `MissingKey` and MultipleResultsFound, reaches the caller unchanged. The access and refresh acceptance rules are also stated directly. Accepted claims are the decoded ones, unchanged. |
| `Dependencies.AccessIgnoresLedger` | src/auth/dependencies.py:55-58 | The access gate's verdict does not depend on the ledger. |
| `Dependencies.CurrentUser` | src/auth/dependencies.py:72-84 | Never fails with AccessTokenRequired, because the access gate already refused every refresh token. Gate failures and a missing `user`/`email` claim pass through unchanged. When the gate accepts and some user has the claimed email, it succeeds and returns the user `get_user` finds for that email. It fails with UserNotFound exactly when the gate accepts, the claims carry an email, and no user has that email. |
| `Ledger.RevokedFor` | src/auth/routes.py:114-124 | Logout's effect on the ledger. Rows keep their jti and owner. A row ends up revoked exactly when it was revoked already or belongs to the user, so no flag goes from revoked back to unrevoked. |
| `Ledger.RevokedForIdempotent` | src/auth/routes.py:116-124 | A second logout of the same user changes nothing. |
| `Ledger.RevokedForSeparates` | src/auth/routes.py:114-124 | Rows of other users are unchanged. A row of the user is the same row with `revoked` set. |
| `Ledger.RefreshLedger.RevokeAllFor` | src/auth/routes.py:114-126 | The loop over the table leaves exactly the rows `RevokedFor` describes. |
| `Routes.Signup` | src/auth/routes.py:31-44 | A body that breaks the schema is refused with its broken fields. An email already in the table is refused with UserAlreadyExists. In both cases the table is unchanged. Otherwise exactly one new user with that email is appended, carrying the properties of `create_user`. Unique emails stay unique. |
| `Routes.FirstIndexByEmails` | src/auth/routes.py:53-58 | Updating a row without touching emails does not change which row a lookup by email finds. |
| `Routes.VerifyUserAccount` | src/auth/routes.py:47-63 | With no email claim, or an empty one, nothing changes. An unknown email fails with UserNotFound and nothing changes. Otherwise the first user with the email becomes verified, nothing else changes, and the lookup by that email then finds a verified user. |
| `Routes.Login` | src/auth/routes.py:66-99 | A body that breaks the schema is refused. Otherwise an unknown email and a wrong password fail with the same InvalidCredentials. Login succeeds exactly when the email is known and the password verifies against the hash of the user `get_user` finds. Both tokens are built from that same user: the access token carries its email, uid and role, the refresh token its email and uid only. |
| `Routes.Logout` | src/auth/routes.py:107-130 | A token the access gate refuses, or claims without `user_uid`, fail and leave the ledger unchanged. Otherwise the ledger becomes `RevokedFor` of the claimed user. |
| `Routes.GetAccessToken` | src/auth/routes.py:133-141 | Failures of the refresh gate pass through. A new access token is issued only when `exp` is strictly later than now, and it carries exactly the refresh token's `user` claims. At `exp <= now` the exchange fails with InvalidRefreshToken. A missing `exp`, or a missing `user` on an unexpired token, fails with `MissingKey`. The expiry rule matches the source only on a host without daylight saving time (see "UUIDs and clocks"). |
| `Routes.LogoutBlocksRefresh` | src/auth/routes.py:112-124 | After a user logs out, the refresh gate refuses every token whose jti is a ledger row of that user. With unique jtis the refusal is InvalidRefreshToken. |
| `Routes.ExpiryIsFinal` | src/auth/routes.py:135-141 | On the model's clock, an exchange refused for expiry at one time is refused at every later time. This holds of the source only on a host without daylight saving time, such as one running in UTC (see "UUIDs and clocks"). |
| `Routes.LoginAfterSignup` | src/auth/routes.py:66-99 | A user appended with a fresh email logs in exactly when the password verifies against the stored hash. Success yields that user's uid and role. Failure is InvalidCredentials. |
| `Routes.LoginThenRefresh` | src/auth/routes.py:77-138 | A login's refresh token, unexpired and held by one unrevoked ledger row, is exchanged for an access token with the login's email and uid. That token has no role, unlike the login's access token. |

## Left out

- **Token codec.** `decode_token`, `create_access_token`, `create_refresh_token` and `decode_url_safe_token` are not part of this model; src/auth/utils.py does not define them. Decoded claims are an input. Signature and expiry checks inside the codec are not modelled.
- **Ledger inserts.** Whether `create_refresh_token` inserts a ledger row is not modelled, since its body is not available.
- **Password hashing.** `generate_password_hash` wraps the bcrypt library, and `verify_password` is not defined in src/auth/utils.py. Both are function parameters. So the model does not show that the stored hash differs from the raw password, and the salt is folded into the `hash` parameter.
- **Password reset.** The `/try-mail`, `/forgot-password` and `/reset-password` handlers (src/auth/routes.py:144-178) use a `PasswordResetService` that is not in src/auth/service.py, so there is nothing to model.
- **`update_user`.** It is not in src/auth/service.py. `VerifyUserAccount` assumes it sets `is_verified` and no other field.
- **Header extraction.** `HTTPBearer` reads the `Authorization` header, and a missing header fails there. Transport concern.
- **The `/me` handler.** It returns what `get_current_user` gives, shaped by a response model. `CurrentUser` covers the decision.
- **Async and transactions.** Async execution, sessions, commits and concurrent requests. Every operation is modelled as one atomic step.
- **UUIDs and clocks.** UUID generation and clock reads are parameters. `datetime.fromtimestamp(exp) > datetime.now()` is modelled as a comparison of integer seconds. The source compares naive local wall-clock times, while the model's `now` and `exp` are UTC seconds. On a host whose time zone observes daylight saving time, the hour repeated at the fall-back change makes local time run backwards, so a token refused at 01:55 local time can be accepted at the second 01:20, up to an hour after its expiry. The `exp > now` rule and `ExpiryIsFinal` match the source only on a host without daylight saving time, such as one running in UTC. `fromtimestamp` raises for an `exp` outside the range `datetime` can represent (beyond the year 9999, for one); the model compares unbounded integers and accepts such a token instead of failing.
- **Two decodes.** `TokenBearer.__call__` decodes the same token twice (src/auth/dependencies.py:37, 47). The model assumes both decodes agree and takes one decoded value as input. If the codec checks `exp` against the clock, the two can disagree at the moment of expiry, and that race is not modelled. When the first gives nothing and the second gives claims, `verify_token_data(None)` runs: the access check lets `None` through and the refresh check fails on `None.get`.
- **Other schema checks.** Pydantic type coercion and the type checks other than the length bounds. The source does not validate email format.
- **Ledger rows as values.** Ledger rows are ORM objects in the source. Here they are values in array slots, so aliasing between a row and other references to it is not modelled. The source selects the user's unrevoked rows first and then loops over them. The model scans every row with the same test, which visits the same rows. Neither select has an ORDER BY, but each row's update is independent of the others, so the order does not affect the outcome.
- **Error mapping.** The transport-level error mapping in src/errors.py (status codes and messages) is not modelled. Login's 403 "Invalid Email or Password" is the single error `InvalidCredentials`.
- **Uid uniqueness.** `uid` is the users table's primary key (src/db/models.py:15-17), so committing a row whose uid is already taken fails in the source. `CreateUser` and `Signup` take the uid as a parameter and append the row whatever it is. Uid uniqueness and primary-key failures are not modelled.
- **Claim shapes.** Each claim has the type the encoder writes: `refresh` a bool, `exp` an int, `jti` a string, `user` a map of strings. Python truthiness of other values (`"false"`, `0`, `1`) and the TypeError on a non-dict `user` are not modelled.
- UserService.GetUser: `.first()` on a select without ORDER BY (src/auth/service.py:10-12) returns whichever matching row the database yields. The model fixes this to the first matching row in table order. With unique emails the two agree (`GetUserUnique`). With duplicate emails, which row `get_user`, and so `Login` and `CurrentUser`, pick is not modelled.
- Routes.VerifyUserAccount: its promise that a later lookup by the email finds a verified user holds under the model's fixed table order or with unique emails. The update (src/auth/routes.py:58) marks the row `get_user` returned (src/auth/routes.py:53). With duplicate emails, a later unordered `.first()` may return another duplicate, still unverified.
