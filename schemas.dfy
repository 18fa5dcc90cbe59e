/*
 * Request bodies of signup and login and their length constraints
 * (src/auth/schemas.py). Lengths count characters, as the validator does.
 */
module Schemas {
  import opened AuthTypes

  const MaxNameLength: nat := 25
  const MaxUsernameLength: nat := 8
  const MaxEmailLength: nat := 40
  const MinPasswordLength: nat := 6

  datatype SignupModel = SignupModel(
    firstName: string,
    lastName: string,
    username: string,
    email: string,
    password: string)

  datatype LoginModel = LoginModel(email: string, password: string)

  /** The signup body obeys every field constraint. */
  predicate ValidSignup(d: SignupModel) {
    && |d.firstName| <= MaxNameLength
    && |d.lastName| <= MaxNameLength
    && |d.username| <= MaxUsernameLength
    && |d.email| <= MaxEmailLength
    && |d.password| >= MinPasswordLength
  }

  /** The login body obeys every field constraint. */
  predicate ValidLogin(d: LoginModel) {
    |d.email| <= MaxEmailLength && |d.password| >= MinPasswordLength
  }

  /** Position of a field in the declaration order of the models. */
  function FieldRank(f: Field): (rank: nat) {
    match f
    case FirstName => 0
    case LastName => 1
    case Username => 2
    case Email => 3
    case Password => 4
  }

  /** Fields in strictly increasing declaration order (hence no repeats). */
  predicate InFieldOrder(fs: seq<Field>) {
    forall i, j :: 0 <= i < j < |fs| ==> FieldRank(fs[i]) < FieldRank(fs[j])
  }

  /** Field ranks strictly increase along the list of checks. */
  predicate RankedChecks(checks: seq<(Field, bool)>) {
    forall i, j :: 0 <= i < j < |checks| ==> FieldRank(checks[i].0) < FieldRank(checks[j].0)
  }

  /** The fields whose check failed, in the order of the checks. */
  function Failed(checks: seq<(Field, bool)>): (r: seq<Field>)
    ensures forall f :: f in r <==> (f, true) in checks
    ensures r == [] <==> forall i :: 0 <= i < |checks| ==> !checks[i].1
    ensures RankedChecks(checks) ==> InFieldOrder(r)
  {
    if checks == [] then []
    else
      var rest := Failed(checks[1..]);
      assert forall f :: (f, true) in checks <==> (f, true) == checks[0] || (f, true) in checks[1..];
      if checks[0].1 then
        assert RankedChecks(checks) ==> forall f :: f in rest ==> FieldRank(checks[0].0) < FieldRank(f) by {
          if RankedChecks(checks) {
            forall f | f in rest ensures FieldRank(checks[0].0) < FieldRank(f) {
              var j :| 0 <= j < |checks[1..]| && checks[1..][j] == (f, true);
              assert checks[j + 1] == (f, true);
            }
          }
        }
        [checks[0].0] + rest
      else
        rest
  }

  /**
   * The fields a signup body violates, in declaration order, as the
   * validator reports them all at once.
   */
  function SignupViolations(d: SignupModel): (r: seq<Field>)
    ensures r == [] <==> ValidSignup(d)
    ensures FirstName in r <==> |d.firstName| > MaxNameLength
    ensures LastName in r <==> |d.lastName| > MaxNameLength
    ensures Username in r <==> |d.username| > MaxUsernameLength
    ensures Email in r <==> |d.email| > MaxEmailLength
    ensures Password in r <==> |d.password| < MinPasswordLength
    ensures InFieldOrder(r)
  {
    var checks := [
      (FirstName, |d.firstName| > MaxNameLength),
      (LastName, |d.lastName| > MaxNameLength),
      (Username, |d.username| > MaxUsernameLength),
      (Email, |d.email| > MaxEmailLength),
      (Password, |d.password| < MinPasswordLength)];
    assert RankedChecks(checks);
    assert forall f :: (f, true) in checks <==>
      (f == FirstName && checks[0].1) || (f == LastName && checks[1].1) || (f == Username && checks[2].1)
      || (f == Email && checks[3].1) || (f == Password && checks[4].1);
    Failed(checks)
  }

  /** The fields a login body violates, in declaration order. */
  function LoginViolations(d: LoginModel): (r: seq<Field>)
    ensures r == [] <==> ValidLogin(d)
    ensures Email in r <==> |d.email| > MaxEmailLength
    ensures Password in r <==> |d.password| < MinPasswordLength
    ensures forall f :: f in r ==> f == Email || f == Password
    ensures InFieldOrder(r)
  {
    var checks := [
      (Email, |d.email| > MaxEmailLength),
      (Password, |d.password| < MinPasswordLength)];
    assert forall f :: (f, true) in checks <==> (f == Email && checks[0].1) || (f == Password && checks[1].1);
    Failed(checks)
  }
}
