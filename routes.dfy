/*
 * The authentication handlers (src/auth/routes.py): signup, account
 * verification, login, logout and the refresh exchange. Token encoding is
 * outside the model: a minted token is represented by the `user` claims
 * handed to the encoder. Password checking, the password hash, fresh uids
 * and the clock are parameters.
 */
module Routes {
  import opened AuthTypes
  import opened Schemas
  import opened UserService
  import opened Ledger
  import opened Dependencies

  /** The result of a successful login: what each token carries, and the user summary. */
  datatype LoginTokens = LoginTokens(accessUser: UserClaims, refreshUser: UserClaims, email: string, uid: Uid)

  /** A verification link either verified an account or carried no email (and did nothing). */
  datatype VerifyOutcome = Verified | NoEmail

  /**
   * `signup`: a body that breaks its schema is refused with every broken
   * field; an email already in the table is refused; otherwise exactly one
   * new, unverified user with role "user" is appended. The duplicate check
   * is the table's only guard of email uniqueness.
   */
  method Signup(reg: UserRegistry, data: SignupModel, hash: string -> string, uid: Uid, now: int)
    returns (r: Result<User>)
    modifies reg
    ensures !ValidSignup(data) ==> r == Err(ValidationFailed(SignupViolations(data)))
    ensures ValidSignup(data) && UserExists(old(reg.users), data.email) ==> r == Err(UserAlreadyExists)
    ensures r.Err? ==> reg.users == old(reg.users)
    ensures r.Ok? <==> ValidSignup(data) && !UserExists(old(reg.users), data.email)
    ensures r.Ok? ==> reg.users == old(reg.users) + [r.value]
    ensures r.Ok? ==> && r.value.email == data.email && r.value.username == data.username
                      && r.value.firstName == data.firstName && r.value.lastName == data.lastName
                      && r.value.passwordHash == hash(data.password)
                      && r.value.role == DefaultRole && !r.value.isVerified
                      && r.value.uid == uid && r.value.createdAt == now && r.value.updatedAt == now
    ensures UniqueEmails(old(reg.users)) ==> UniqueEmails(reg.users)
  {
    if !ValidSignup(data) {
      return Err(ValidationFailed(SignupViolations(data)));
    }
    if UserExists(reg.users, data.email) {
      return Err(UserAlreadyExists);
    }
    var u := reg.CreateUser(data, hash, uid, now);
    if UniqueEmails(old(reg.users)) {
      AppendFreshKeepsUnique(old(reg.users), u);
    }
    r := Ok(u);
  }

  /** Two tables whose rows carry the same emails, row by row. */
  predicate SameEmails(a: seq<User>, b: seq<User>) {
    |a| == |b| && forall k :: 0 <= k < |a| ==> a[k].email == b[k].email
  }

  /** Lookup by email depends only on the emails of the rows. */
  lemma FirstIndexByEmails(a: seq<User>, b: seq<User>, email: string)
    requires SameEmails(a, b)
    ensures FirstIndex(a, email) == FirstIndex(b, email)
  {
  }

  /**
   * `verify_user_account`: a link whose email claim is absent or empty does
   * nothing; an unknown email is refused; otherwise the first user with that
   * email becomes verified and no other row changes.
   */
  method VerifyUserAccount(reg: UserRegistry, email: Option<string>) returns (r: Result<VerifyOutcome>)
    modifies reg
    ensures email.None? || email == Some("") ==> r == Ok(NoEmail) && reg.users == old(reg.users)
    ensures (email.Some? && email.value != "" && !UserExists(old(reg.users), email.value))
              ==> r == Err(UserNotFound) && reg.users == old(reg.users)
    ensures (email.Some? && email.value != "" && UserExists(old(reg.users), email.value))
              ==> && r == Ok(Verified)
                  && var i := FirstIndex(old(reg.users), email.value).value;
                     reg.users == old(reg.users)[i := old(reg.users)[i].(isVerified := true)]
    ensures r == Ok(Verified) ==> && GetUser(reg.users, email.value).Some?
                                  && GetUser(reg.users, email.value).value.isVerified
  {
    if email.None? || email.value == "" {
      return Ok(NoEmail);
    }
    var e := email.value;
    match FirstIndex(reg.users, e)
    case None =>
      r := Err(UserNotFound);
    case Some(i) =>
      ghost var before := reg.users;
      reg.users := reg.users[i := reg.users[i].(isVerified := true)];
      FirstIndexByEmails(before, reg.users, e);
      r := Ok(Verified);
  }

  /**
   * `login`: a body that breaks its schema is refused; otherwise an unknown
   * email and a wrong password fail with the same error. On success the
   * access token carries the user's email, uid and role, the refresh token
   * only the email and uid.
   */
  function Login(users: seq<User>, data: LoginModel, verifyPassword: (string, string) -> bool)
    : (r: Result<LoginTokens>)
    ensures !ValidLogin(data) ==> r == Err(ValidationFailed(LoginViolations(data)))
    ensures ValidLogin(data) && r.Err? ==> r.error == InvalidCredentials
    ensures r.Ok? <==> && ValidLogin(data)
                       && GetUser(users, data.email).Some?
                       && verifyPassword(data.password, GetUser(users, data.email).value.passwordHash)
    ensures r.Ok? ==> var u := GetUser(users, data.email).value;
                      && r.value.accessUser == UserClaims(Some(u.email), Some(u.uid), Some(u.role))
                      && r.value.refreshUser == UserClaims(Some(u.email), Some(u.uid), None)
                      && r.value.email == u.email && r.value.uid == u.uid
  {
    if !ValidLogin(data) then Err(ValidationFailed(LoginViolations(data)))
    else
      match GetUser(users, data.email)
      case None => Err(InvalidCredentials)
      case Some(u) =>
        if verifyPassword(data.password, u.passwordHash) then
          Ok(LoginTokens(
               UserClaims(Some(u.email), Some(u.uid), Some(u.role)),
               UserClaims(Some(u.email), Some(u.uid), None),
               u.email, u.uid))
        else Err(InvalidCredentials)
  }

  /**
   * `logout`: the access gate's claims name a user; every unrevoked ledger
   * row of that user is revoked. A refused token or a claims map without the
   * user's uid leaves the ledger as it was.
   */
  method Logout(ledger: RefreshLedger, decoded: Option<Claims>) returns (r: Result<()>)
    modifies ledger.table
    ensures VerifyToken(decoded, Access, old(ledger.table[..])).Err? ==>
              r == Err(VerifyToken(decoded, Access, old(ledger.table[..])).error)
    ensures VerifyToken(decoded, Access, old(ledger.table[..])).Ok? && decoded.value.UserUid().Err? ==>
              r == Err(decoded.value.UserUid().error)
    ensures r.Err? ==> ledger.table[..] == old(ledger.table[..])
    ensures r.Ok? <==> VerifyToken(decoded, Access, old(ledger.table[..])).Ok? && decoded.value.UserUid().Ok?
    ensures r.Ok? ==> ledger.table[..] == RevokedFor(old(ledger.table[..]), decoded.value.UserUid().value)
  {
    match VerifyToken(decoded, Access, ledger.table[..])
    case Err(e) =>
      r := Err(e);
    case Ok(c) =>
      match c.UserUid()
      case Err(e) =>
        r := Err(e);
      case Ok(uid) =>
        ledger.RevokeAllFor(uid);
        r := Ok(());
  }

  /**
   * `get_access_token`: the refresh gate's claims yield a new access token
   * carrying the refresh token's `user` claims, only while the expiry is
   * strictly later than `now`; at or after expiry the exchange is refused.
   */
  function GetAccessToken(decoded: Option<Claims>, ledger: seq<RefreshRecord>, now: int): (r: Result<UserClaims>)
    ensures VerifyToken(decoded, Refresh, ledger).Err? ==> r == Err(VerifyToken(decoded, Refresh, ledger).error)
    ensures r.Ok? ==> && VerifyToken(decoded, Refresh, ledger).Ok?
                      && decoded.value.exp.Some? && decoded.value.exp.value > now
                      && decoded.value.user == Some(r.value)
    ensures (VerifyToken(decoded, Refresh, ledger).Ok? && decoded.value.exp.Some? && decoded.value.exp.value <= now)
              ==> r == Err(InvalidRefreshToken)
    ensures (&& VerifyToken(decoded, Refresh, ledger).Ok?
             && decoded.value.exp.Some? && decoded.value.exp.value > now
             && decoded.value.user.Some?) ==> r.Ok?
    ensures VerifyToken(decoded, Refresh, ledger).Ok? && decoded.value.exp.None? ==> r == Err(MissingKey("exp"))
    ensures (&& VerifyToken(decoded, Refresh, ledger).Ok?
             && decoded.value.exp.Some? && decoded.value.exp.value > now
             && decoded.value.user.None?) ==> r == Err(MissingKey("user"))
  {
    match VerifyToken(decoded, Refresh, ledger)
    case Err(e) => Err(e)
    case Ok(c) =>
      match c.exp
      case None => Err(MissingKey("exp"))
      case Some(exp) =>
        if exp > now then
          match c.user
          case None => Err(MissingKey("user"))
          case Some(u) => Ok(u)
        else Err(InvalidRefreshToken)
  }

  /**
   * After logout by a user, every refresh token whose jti is a ledger row of
   * that user is refused by the refresh gate; with unique jtis the refusal
   * is InvalidRefreshToken (a duplicated jti fails the lookup instead).
   */
  lemma LogoutBlocksRefresh(s: seq<RefreshRecord>, uid: Uid, c: Claims, i: nat)
    requires i < |s| && s[i].userUid == uid && c.jti == Some(s[i].jti)
    ensures VerifyToken(Some(c), Refresh, RevokedFor(s, uid)).Err?
    ensures UniqueJtis(s) ==> VerifyToken(Some(c), Refresh, RevokedFor(s, uid)) == Err(InvalidRefreshToken)
  {
    var t := RevokedFor(s, uid);
    if UniqueJtis(s) && c.RefreshFlag() {
      assert SoleRecord(t, s[i].jti, i);
    }
  }

  /** A refused exchange at time `now` is refused at every later time too. */
  lemma ExpiryIsFinal(decoded: Option<Claims>, ledger: seq<RefreshRecord>, now: int, later: int)
    requires now <= later
    requires VerifyToken(decoded, Refresh, ledger).Ok? && decoded.value.exp.Some?
    requires GetAccessToken(decoded, ledger, now) == Err(InvalidRefreshToken)
    ensures GetAccessToken(decoded, ledger, later) == Err(InvalidRefreshToken)
  {
  }

  /**
   * A user appended by signup can log in with a password the hasher
   * accepts, and a password it refuses fails with the uniform error.
   */
  lemma LoginAfterSignup(users: seq<User>, u: User, password: string, verifyPassword: (string, string) -> bool)
    requires !UserExists(users, u.email)
    requires ValidLogin(LoginModel(u.email, password))
    ensures verifyPassword(password, u.passwordHash) ==>
              && Login(users + [u], LoginModel(u.email, password), verifyPassword).Ok?
              && Login(users + [u], LoginModel(u.email, password), verifyPassword).value.uid == u.uid
              && Login(users + [u], LoginModel(u.email, password), verifyPassword).value.accessUser.role == Some(u.role)
    ensures !verifyPassword(password, u.passwordHash) ==>
              Login(users + [u], LoginModel(u.email, password), verifyPassword) == Err(InvalidCredentials)
  {
  }

  /**
   * Login followed by the refresh exchange: a refresh token that carries the
   * login's refresh claims, whose jti is the one unrevoked ledger row for
   * it and which has not expired, yields an access token for the same email
   * and uid, but without the role the login's access token carried.
   */
  lemma LoginThenRefresh(
    users: seq<User>, data: LoginModel, verifyPassword: (string, string) -> bool,
    ledger: seq<RefreshRecord>, i: nat, exp: int, now: int)
    requires Login(users, data, verifyPassword).Ok?
    requires i < |ledger| && SoleRecord(ledger, ledger[i].jti, i) && !ledger[i].revoked
    requires exp > now
    ensures var t := Login(users, data, verifyPassword).value;
            var c := Claims(Some(t.refreshUser), Some(exp), Some(ledger[i].jti), Some(true), {});
            && GetAccessToken(Some(c), ledger, now) == Ok(t.refreshUser)
            && t.refreshUser.email == t.accessUser.email
            && t.refreshUser.userUid == t.accessUser.userUid
            && t.refreshUser.role.None? && t.accessUser.role.Some?
  {
  }
}
