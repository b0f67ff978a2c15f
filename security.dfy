/** The authentication dependencies of the server's routes: resolving the bearer token to
    a stored user, and the admin role gate. */
module Security {
  import opened Wrappers
  import opened Http
  import opened Models
  import opened Seqs

  /** The credentials exception: 401 with the header `WWW-Authenticate: Bearer`. */
  function CredentialsException(): (e: HttpError)
    ensures e.status == 401 && e.detail == InvalidCredentials
    ensures "WWW-Authenticate" in e.headers && e.headers["WWW-Authenticate"] == "Bearer"
    ensures |e.headers| == 1
  {
    HttpError(Unauthorized, InvalidCredentials, map["WWW-Authenticate" := "Bearer"])
  }

  /** get_current_user after token decoding. `subject` is what `verify_jwt_token` yields:
      the user id carried by a valid token, or None when it rejects the token by raising
      the credentials exception. The user is then looked up by id; a missing user is 401. */
  function GetCurrentUser(users: seq<User>, subject: Option<Id>): (r: Result<User, HttpError>)
    ensures r.Ok? <==> subject.Some? && exists u :: u in users && u.id == subject.value
    ensures r.Ok? ==> r.value in users && r.value.id == subject.value
    ensures r.Err? ==> r.error.status == 401 && r.error.headers == map["WWW-Authenticate" := "Bearer"]
  {
    if subject.None? then Err(CredentialsException())
    else match First(users, HasUserId(subject.value))
      case None => Err(CredentialsException())
      case Some(u) => Ok(u)
  }

  /** get_current_admin_user: 403 whenever the role is not "admin"; an admin is returned
      unchanged. */
  function GetCurrentAdminUser(currentUser: User): (r: Result<User, HttpError>)
    ensures r.Err? <==> currentUser.role != AdminRole
    ensures r.Err? ==> r.error == Raise(Forbidden, AdminPrivilegesRequired)
    ensures r.Ok? ==> r.value == currentUser
  {
    if currentUser.role != AdminRole then Err(Raise(Forbidden, AdminPrivilegesRequired))
    else Ok(currentUser)
  }

  /** The dependency chain of an admin route: get_current_admin_user runs on the user
      get_current_user resolved, and a failure of the first is final. */
  function RequireAdmin(users: seq<User>, subject: Option<Id>): (r: Result<User, HttpError>)
    ensures r.Ok? ==> r.value in users && r.value.role == AdminRole
  {
    match GetCurrentUser(users, subject)
    case Err(e) => Err(e)
    case Ok(u) => GetCurrentAdminUser(u)
  }

  /** The three outcomes of an admin route's authorization: 401 for an unknown user, 403
      for a non-admin, and the admin user otherwise. A user that registered (role "user")
      and creates a product is therefore answered 403. */
  lemma RequireAdminOutcomes(users: seq<User>, id: Id)
    requires Distinct(users, UserId)
    ensures (forall u :: u in users ==> u.id != id) ==>
      RequireAdmin(users, Some(id)) == Err(CredentialsException())
    ensures forall u :: u in users && u.id == id && u.role != AdminRole ==>
      RequireAdmin(users, Some(id)) == Err(Raise(Forbidden, AdminPrivilegesRequired))
    ensures forall u :: u in users && u.id == id && u.role == AdminRole ==>
      RequireAdmin(users, Some(id)) == Ok(u)
  {
    forall u | u in users && u.id == id ensures GetCurrentUser(users, Some(id)) == Ok(u) {
      var v := GetCurrentUser(users, Some(id)).value;
      var i :| 0 <= i < |users| && users[i] == u;
      var j :| 0 <= j < |users| && users[j] == v;
      assert !(i < j) && !(j < i);
    }
  }
}
