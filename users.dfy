/** The user store behind UserService: lookup by email and saving a new
    user. The store keeps emails unique. */
module Users {
  import opened Wrappers
  import opened Errors

  type UserId = nat

  /** A role is referenced by its name. */
  type RoleName = string

  /** A stored user: generated id, email, encoded password and role. */
  datatype User = User(id: UserId, email: string, password: string, role: Option<RoleName>)

  predicate UniqueEmails(us: seq<User>) {
    forall i, j | 0 <= i < j < |us| :: us[i].email != us[j].email
  }

  predicate UniqueIds(us: seq<User>) {
    forall i, j | 0 <= i < j < |us| :: us[i].id != us[j].id
  }

  /** The user with the given email, or UserNotFound. */
  function FindUser(us: seq<User>, email: string): (r: Result<User, ServiceError>)
    ensures r.Success? ==> r.value in us && r.value.email == email
    ensures r.Failure? <==> forall i | 0 <= i < |us| :: us[i].email != email
    ensures r.Failure? ==> r.error == UserNotFound
  {
    if us == [] then Failure(UserNotFound)
    else if us[0].email == email then Success(us[0])
    else FindUser(us[1..], email)
  }

  /** The user with the given id, if any. */
  function FindUserById(us: seq<User>, id: UserId): (r: Option<User>)
    ensures r.Some? ==> r.value in us && r.value.id == id
    ensures r.None? <==> forall i | 0 <= i < |us| :: us[i].id != id
  {
    if us == [] then None
    else if us[0].id == id then Some(us[0])
    else FindUserById(us[1..], id)
  }

  /** With unique emails, the lookup finds the one user holding the email. */
  lemma {:induction false} FindUserUnique(us: seq<User>, u: User)
    requires UniqueEmails(us) && u in us
    ensures FindUser(us, u.email) == Success(u)
  {
    if us[0] != u {
      assert us[0].email != u.email by {
        var k :| 0 <= k < |us| && us[k] == u;
        assert k != 0;
      }
      assert UniqueEmails(us[1..]) by {
        forall i, j | 0 <= i < j < |us| - 1
          ensures us[1..][i].email != us[1..][j].email
        {
          assert us[1..][i] == us[i + 1] && us[1..][j] == us[j + 1];
        }
      }
      FindUserUnique(us[1..], u);
    }
  }

  class UserStore {
    var users: seq<User>
    var nextId: nat

    /** Emails and ids are unique and every id was handed out before `nextId`. */
    ghost predicate Valid()
      reads this
    {
      UniqueEmails(users) && UniqueIds(users) &&
      forall i | 0 <= i < |users| :: users[i].id < nextId
    }

    constructor ()
      ensures Valid() && users == []
    {
      users := [];
      nextId := 0;
    }

    /** UserService.getUserByEmail: lookup, failing with UserNotFound. */
    function GetUserByEmail(email: string): (r: Result<User, ServiceError>)
      reads this
      ensures r.Success? ==> r.value in users && r.value.email == email
      ensures r.Failure? <==> forall i | 0 <= i < |users| :: users[i].email != email
      ensures r.Failure? ==> r.error == UserNotFound
    {
      FindUser(users, email)
    }

    /** UserService.saveUser for a new user: the store assigns the next id
        and refuses an email that is already taken. */
    method SaveUser(email: string, password: string, role: Option<RoleName>) returns (r: Result<User, ServiceError>)
      requires Valid()
      modifies this
      ensures Valid()
      ensures r.Failure? <==> FindUser(old(users), email).Success?
      ensures r.Failure? ==> r.error == EmailTaken && users == old(users)
      ensures r.Success? ==> r.value.email == email && r.value.password == password && r.value.role == role
      ensures r.Success? ==> users == old(users) + [r.value] && r.value.id !in set u | u in old(users) :: u.id
      ensures r.Success? ==> GetUserByEmail(email) == Success(r.value)
    {
      if FindUser(users, email).Success? {
        return Failure(EmailTaken);
      }
      var u := User(nextId, email, password, role);
      users := users + [u];
      nextId := nextId + 1;
      FindUserUnique(users, u);
      r := Success(u);
    }
  }
}
