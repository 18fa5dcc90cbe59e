/*
 * The user table and its service (src/auth/service.py): lookup by email,
 * the existence test built on it, and creation of a new user row.
 */
module UserService {
  import opened AuthTypes
  import opened Schemas

  /** The role every new user is given. */
  const DefaultRole: string := "user"

  /**
   * Position of the first row whose email equals `email`. The query has no
   * ORDER BY; `.first()` is modelled as the first row in table order.
   */
  function FirstIndex(users: seq<User>, email: string): (r: Option<nat>)
    ensures r.Some? ==> r.value < |users| && users[r.value].email == email
    ensures r.Some? ==> forall k :: 0 <= k < r.value ==> users[k].email != email
    ensures r.None? <==> forall k :: 0 <= k < |users| ==> users[k].email != email
  {
    if users == [] then None
    else if users[0].email == email then Some(0)
    else
      match FirstIndex(users[1..], email)
      case None =>
        assert forall k :: 1 <= k < |users| ==> users[k] == users[1..][k - 1];
        None
      case Some(i) => Some(i + 1)
  }

  /** `get_user`: the first user with the given email, or nothing. */
  function GetUser(users: seq<User>, email: string): (r: Option<User>)
    ensures r.Some? ==> r.value in users && r.value.email == email
    ensures r.None? <==> forall u :: u in users ==> u.email != email
    ensures r.Some? ==> exists i :: 0 <= i < |users| && users[i] == r.value
                                    && forall k :: 0 <= k < i ==> users[k].email != email
  {
    match FirstIndex(users, email)
    case None => None
    case Some(i) => Some(users[i])
  }

  /** `user_exists`: some user has the email. */
  function UserExists(users: seq<User>, email: string): (b: bool)
    ensures b <==> exists u :: u in users && u.email == email
  {
    GetUser(users, email).Some?
  }

  /** No two users share an email. */
  predicate UniqueEmails(users: seq<User>) {
    forall i, j :: 0 <= i < j < |users| ==> users[i].email != users[j].email
  }

  /**
   * Appending a user whose email is not yet taken keeps emails unique:
   * the existence check before creation is what guards uniqueness.
   */
  lemma AppendFreshKeepsUnique(users: seq<User>, u: User)
    requires UniqueEmails(users)
    requires !UserExists(users, u.email)
    ensures UniqueEmails(users + [u])
  {
  }

  /** With unique emails, the user found for an email is the only one with it. */
  lemma GetUserUnique(users: seq<User>, email: string, i: nat)
    requires UniqueEmails(users)
    requires i < |users| && users[i].email == email
    ensures GetUser(users, email) == Some(users[i])
  {
  }

  /** The user table, changed in place by the service and the handlers. */
  class UserRegistry {
    var users: seq<User>

    constructor (initial: seq<User>)
      ensures users == initial
    {
      users := initial;
    }

    /**
     * `create_user`: builds the row from the signup body, stores the hash of
     * the password in place of the password, forces the role to "user",
     * leaves the account unverified, and appends the row. The hash, the
     * fresh uid and the clock are parameters.
     */
    method CreateUser(data: SignupModel, hash: string -> string, uid: Uid, now: int) returns (u: User)
      modifies this
      ensures users == old(users) + [u]
      ensures u.email == data.email && u.username == data.username
      ensures u.firstName == data.firstName && u.lastName == data.lastName
      ensures u.passwordHash == hash(data.password)
      ensures u.role == DefaultRole && !u.isVerified
      ensures u.uid == uid && u.createdAt == now && u.updatedAt == now
      ensures UserExists(users, data.email)
    {
      u := User(uid, data.username, data.email, data.firstName, data.lastName,
                DefaultRole, false, hash(data.password), now, now);
      users := users + [u];
      assert u in users;
    }
  }
}
