/*
 * Shared vocabulary of the authentication core: the failure kinds the
 * handlers raise, the rows of the user table and of the refresh-token
 * ledger, and the claims map a decoded token yields.
 */
module AuthTypes {

  /** A user's unique identifier (a UUID), kept in its string form. */
  type Uid = string

  datatype Option<+T> = None | Some(value: T)

  /** Request-body fields that carry a length constraint. */
  datatype Field = FirstName | LastName | Username | Email | Password

  /** Every way an operation of the core can fail. */
  datatype Error =
    | InvalidToken              // token did not decode
    | InvalidAccessToken        // a refresh token offered where an access token is needed
    | InvalidRefreshToken       // not a refresh token, revoked or unknown jti, or past its expiry
    | AccessTokenRequired
    | UserNotFound
    | UserAlreadyExists
    | InvalidCredentials        // login's 403 "Invalid Email or Password"
    | MissingKey(key: string)   // a subscript on a dict that lacks the key (KeyError)
    | MultipleResultsFound      // `one_or_none()` over more than one row
    | ValidationFailed(fields: seq<Field>)  // the request body broke its schema (422)

  datatype Result<+T> = Ok(value: T) | Err(error: Error)

  /** A row of the `users` table. Timestamps are seconds on the server clock. */
  datatype User = User(
    uid: Uid,
    username: string,
    email: string,
    firstName: string,
    lastName: string,
    role: string,
    isVerified: bool,
    passwordHash: string,
    createdAt: int,
    updatedAt: int)

  /** A row of the refresh-token ledger. */
  datatype RefreshRecord = RefreshRecord(jti: string, userUid: Uid, revoked: bool)

  /** The `user` entry of a token's claims; each key may be absent. */
  datatype UserClaims = UserClaims(email: Option<string>, userUid: Option<Uid>, role: Option<string>)

  /**
   * The claims map a token decodes to, by the keys the core reads:
   * `user`, `exp` (RFC 7519, section 4.1.4), `jti` (RFC 7519, section 4.1.7)
   * and `refresh`. Any further keys are recorded by name only, since their
   * values are never read; they matter only for the map's truth value.
   */
  datatype Claims = Claims(
    user: Option<UserClaims>,
    exp: Option<int>,
    jti: Option<string>,
    refresh: Option<bool>,
    otherKeys: set<string>)
  {
    /** An empty map, which Python treats as false. */
    predicate IsEmpty() {
      user.None? && exp.None? && jti.None? && refresh.None? && otherKeys == {}
    }

    /** The truth value of `claims.get("refresh")`. */
    predicate RefreshFlag() {
      refresh == Some(true)
    }

    /** `claims["user"]["email"]`, failing on a missing key. */
    function UserEmail(): (r: Result<string>) {
      match user
      case None => Err(MissingKey("user"))
      case Some(u) => if u.email.Some? then Ok(u.email.value) else Err(MissingKey("email"))
    }

    /** `claims["user"]["user_uid"]`, failing on a missing key. */
    function UserUid(): (r: Result<Uid>) {
      match user
      case None => Err(MissingKey("user"))
      case Some(u) => if u.userUid.Some? then Ok(u.userUid.value) else Err(MissingKey("user_uid"))
    }
  }
}
