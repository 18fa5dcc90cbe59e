/*
 * The token verification gate (src/auth/dependencies.py): the revocation
 * lookup, the bearer check shared by both token kinds, the kind-specific
 * checks, and the resolution of the current user from an access token.
 * The token codec is outside the model: the gate receives what decoding the
 * bearer credential produced, `None` when it did not decode. The source
 * decodes the same token twice; the model assumes both decodes agree and
 * folds them into this one input.
 */
module Dependencies {
  import opened AuthTypes
  import UserService

  /** Which bearer is asking: the access-token or the refresh-token dependency. */
  datatype TokenKind = Access | Refresh

  /** No row of the ledger carries `jti`. */
  predicate NoRecord(ledger: seq<RefreshRecord>, jti: string) {
    forall i :: 0 <= i < |ledger| ==> ledger[i].jti != jti
  }

  /** Row `i` is the one and only row carrying `jti`. */
  predicate SoleRecord(ledger: seq<RefreshRecord>, jti: string, i: int) {
    && 0 <= i < |ledger|
    && ledger[i].jti == jti
    && forall k :: 0 <= k < |ledger| && k != i ==> ledger[k].jti != jti
  }

  /** At least two rows carry `jti`. */
  predicate Duplicated(ledger: seq<RefreshRecord>, jti: string) {
    exists i, k :: 0 <= i < k < |ledger| && ledger[i].jti == jti && ledger[k].jti == jti
  }

  /** No two rows of the ledger share a jti. */
  predicate UniqueJtis(ledger: seq<RefreshRecord>) {
    forall i, k :: 0 <= i < k < |ledger| ==> ledger[i].jti != ledger[k].jti
  }

  /** The rows selected by `RefreshToken.jti == jti`, in table order. */
  function WithJti(ledger: seq<RefreshRecord>, jti: string): (r: seq<RefreshRecord>)
    ensures r == [] <==> NoRecord(ledger, jti)
    ensures forall i :: SoleRecord(ledger, jti, i) ==> r == [ledger[i]]
    ensures |r| >= 2 <==> Duplicated(ledger, jti)
  {
    if ledger == [] then []
    else
      var tail := ledger[1..];
      var rest := WithJti(tail, jti);
      assert forall k :: 1 <= k < |ledger| ==> ledger[k] == tail[k - 1];
      if ledger[0].jti == jti then
        assert !NoRecord(tail, jti) ==> Duplicated(ledger, jti) by {
          if !NoRecord(tail, jti) {
            var k :| 0 <= k < |tail| && tail[k].jti == jti;
            assert ledger[k + 1].jti == jti;
          }
        }
        [ledger[0]] + rest
      else
        assert forall i :: SoleRecord(ledger, jti, i) ==> SoleRecord(tail, jti, i - 1);
        assert Duplicated(ledger, jti) ==> Duplicated(tail, jti) by {
          if Duplicated(ledger, jti) {
            var i, k :| 0 <= i < k < |ledger| && ledger[i].jti == jti && ledger[k].jti == jti;
            assert tail[i - 1].jti == jti && tail[k - 1].jti == jti;
          }
        }
        assert Duplicated(tail, jti) ==> Duplicated(ledger, jti) by {
          if Duplicated(tail, jti) {
            var i, k :| 0 <= i < k < |tail| && tail[i].jti == jti && tail[k].jti == jti;
            assert ledger[i + 1].jti == jti && ledger[k + 1].jti == jti;
          }
        }
        rest
  }

  /**
   * `is_token_revoked`: looks the jti up with `one_or_none()`. No row means
   * revoked (fail-closed); one row gives its flag; several rows make the
   * lookup itself fail.
   */
  function IsTokenRevoked(ledger: seq<RefreshRecord>, jti: string): (r: Result<bool>)
    ensures NoRecord(ledger, jti) ==> r == Ok(true)
    ensures forall i :: SoleRecord(ledger, jti, i) ==> r == Ok(ledger[i].revoked)
    ensures r.Err? <==> Duplicated(ledger, jti)
    ensures r.Err? ==> r.error == MultipleResultsFound
  {
    var rows := WithJti(ledger, jti);
    if rows == [] then Ok(true)
    else if |rows| == 1 then Ok(rows[0].revoked)
    else Err(MultipleResultsFound)
  }

  /** Every jti is in exactly one of three situations in the ledger. */
  lemma JtiCases(ledger: seq<RefreshRecord>, jti: string)
    ensures NoRecord(ledger, jti) || Duplicated(ledger, jti) || exists i :: SoleRecord(ledger, jti, i)
    ensures NoRecord(ledger, jti) ==> !Duplicated(ledger, jti)
    ensures forall i :: SoleRecord(ledger, jti, i) ==> !NoRecord(ledger, jti) && !Duplicated(ledger, jti)
  {
    if !NoRecord(ledger, jti) && !Duplicated(ledger, jti) {
      var i :| 0 <= i < |ledger| && ledger[i].jti == jti;
      assert SoleRecord(ledger, jti, i);
    }
  }

  /** With unique jtis the lookup never fails, and agrees with the row's flag. */
  lemma UniqueJtiLookup(ledger: seq<RefreshRecord>, jti: string)
    requires UniqueJtis(ledger)
    ensures IsTokenRevoked(ledger, jti).Ok?
    ensures IsTokenRevoked(ledger, jti) == Ok(true) <==>
              forall i :: 0 <= i < |ledger| && ledger[i].jti == jti ==> ledger[i].revoked
  {
  }

  /**
   * `AccessTokenBearer.verify_token_data`: a non-empty claims map whose
   * `refresh` entry is true is refused; an empty map passes unchecked; a
   * non-empty map without a `refresh` entry fails on the subscript.
   */
  function AccessCheck(c: Claims): (r: Result<Claims>)
    ensures r.Ok? ==> r.value == c
    ensures r == Err(InvalidAccessToken) <==> c.refresh == Some(true)
    ensures r.Ok? <==> c.IsEmpty() || c.refresh == Some(false)
    ensures !c.IsEmpty() && c.refresh.None? ==> r == Err(MissingKey("refresh"))
  {
    if c.IsEmpty() then Ok(c)
    else
      match c.refresh
      case None => Err(MissingKey("refresh"))
      case Some(isRefresh) => if isRefresh then Err(InvalidAccessToken) else Ok(c)
  }

  /**
   * `RefreshTokenBearer.verify_token_data`: a map without a true `refresh`
   * entry is refused before the ledger is consulted; otherwise the token is
   * accepted exactly when the ledger reports its jti as not revoked.
   */
  function RefreshCheck(c: Claims, ledger: seq<RefreshRecord>): (r: Result<Claims>)
    ensures !c.RefreshFlag() ==> r == Err(InvalidRefreshToken)
    ensures r.Ok? ==> r.value == c
    ensures r.Ok? <==> c.RefreshFlag() && c.jti.Some? && IsTokenRevoked(ledger, c.jti.value) == Ok(false)
    ensures (c.RefreshFlag() && c.jti.Some? && IsTokenRevoked(ledger, c.jti.value) == Ok(true))
              ==> r == Err(InvalidRefreshToken)
    ensures c.RefreshFlag() && c.jti.None? ==> r == Err(MissingKey("jti"))
    ensures c.RefreshFlag() && c.jti.Some? && Duplicated(ledger, c.jti.value) ==> r == Err(MultipleResultsFound)
  {
    if !c.RefreshFlag() then Err(InvalidRefreshToken)
    else
      match c.jti
      case None => Err(MissingKey("jti"))
      case Some(jti) =>
        match IsTokenRevoked(ledger, jti)
        case Err(e) => Err(e)
        case Ok(revoked) => if revoked then Err(InvalidRefreshToken) else Ok(c)
  }

  /**
   * `TokenBearer.__call__`: a token that did not decode is refused before any
   * kind check; otherwise the kind's check decides, and the decoded claims
   * are handed on unchanged.
   */
  function VerifyToken(decoded: Option<Claims>, kind: TokenKind, ledger: seq<RefreshRecord>): (r: Result<Claims>)
    ensures r == Err(InvalidToken) <==> decoded.None?
    ensures r.Ok? ==> decoded == Some(r.value)
    ensures kind == Access ==>
              (r == Err(InvalidAccessToken) <==> decoded.Some? && decoded.value.refresh == Some(true))
    ensures kind == Access ==>
              (r.Ok? <==> decoded.Some? && (decoded.value.IsEmpty() || decoded.value.refresh == Some(false)))
    ensures kind == Refresh && decoded.Some? && !decoded.value.RefreshFlag() ==> r == Err(InvalidRefreshToken)
    ensures kind == Refresh ==>
              (r.Ok? <==> && decoded.Some? && decoded.value.RefreshFlag() && decoded.value.jti.Some?
                          && IsTokenRevoked(ledger, decoded.value.jti.value) == Ok(false))
    ensures decoded.Some? && kind == Access ==> r == AccessCheck(decoded.value)
    ensures decoded.Some? && kind == Refresh ==> r == RefreshCheck(decoded.value, ledger)
  {
    match decoded
    case None => Err(InvalidToken)
    case Some(c) =>
      match kind
      case Access => AccessCheck(c)
      case Refresh => RefreshCheck(c, ledger)
  }

  /** An access token is judged by its claims alone: the ledger plays no part. */
  lemma AccessIgnoresLedger(decoded: Option<Claims>, l1: seq<RefreshRecord>, l2: seq<RefreshRecord>)
    ensures VerifyToken(decoded, Access, l1) == VerifyToken(decoded, Access, l2)
  {
  }

  /**
   * `get_current_user`: the access gate's claims, then the user with the
   * claimed email. The `refresh` test it repeats can never fire, because
   * the access gate already refused every map whose `refresh` is true.
   */
  function CurrentUser(decoded: Option<Claims>, ledger: seq<RefreshRecord>, users: seq<User>): (r: Result<User>)
    ensures r != Err(AccessTokenRequired)
    ensures VerifyToken(decoded, Access, ledger).Err? ==> r == Err(VerifyToken(decoded, Access, ledger).error)
    ensures VerifyToken(decoded, Access, ledger).Ok? && decoded.value.UserEmail().Err? ==>
              r == Err(decoded.value.UserEmail().error)
    ensures (&& VerifyToken(decoded, Access, ledger).Ok? && decoded.value.UserEmail().Ok?
             && UserService.UserExists(users, decoded.value.UserEmail().value)) ==> r.Ok?
    ensures r.Ok? ==> r.value in users
    ensures r.Ok? ==> VerifyToken(decoded, Access, ledger).Ok?
                      && decoded.value.UserEmail() == Ok(r.value.email)
    ensures r.Ok? ==> UserService.GetUser(users, r.value.email) == Some(r.value)
    ensures r == Err(UserNotFound) <==>
              && VerifyToken(decoded, Access, ledger).Ok?
              && decoded.value.UserEmail().Ok?
              && forall u :: u in users ==> u.email != decoded.value.UserEmail().value
  {
    match VerifyToken(decoded, Access, ledger)
    case Err(e) => Err(e)
    case Ok(c) =>
      if c.RefreshFlag() then Err(AccessTokenRequired)
      else
        match c.UserEmail()
        case Err(e) => Err(e)
        case Ok(email) =>
          match UserService.GetUser(users, email)
          case None => Err(UserNotFound)
          case Some(u) => Ok(u)
  }
}
