/** The create_admin script: create an admin account, or promote an existing account to
    admin, by email. */
module AdminScript {
  import opened Wrappers
  import opened Models
  import opened Seqs

  /** What the script logged on success. */
  datatype Action = AlreadyAdmin | Promoted | Created

  /** `parser.error("Password is required when creating a new admin user.")`. */
  datatype ScriptError = PasswordRequired

  function HasEmail(email: string): User -> bool { (u: User) => u.email == email }

  /** UserRepository.get_by_email: the user with that email, if any. */
  function GetByEmail(users: seq<User>, email: string): (r: Option<User>)
    ensures r.Some? ==> r.value in users && r.value.email == email
    ensures r.None? <==> forall u :: u in users ==> u.email != email
  {
    First(users, HasEmail(email))
  }

  /** Python's truthiness of `args.password`: given and not empty. */
  predicate Supplied(password: Option<string>) {
    password.Some? && password.value != ""
  }

  /** The `users` table the script opens a session on. */
  class UserTable {
    var users: seq<User>

    /** `id` is the primary key and `email` is UNIQUE. */
    ghost predicate Valid()
      reads this
    {
      Distinct(users, UserId) && Distinct(users, UserEmail)
    }

    constructor (users: seq<User>)
      requires Distinct(users, UserId) && Distinct(users, UserEmail)
      ensures Valid() && this.users == users
    {
      this.users := users;
    }

    /** main's create-or-promote decision. `hash` stands for password_utils.hash_password
      and `freshId` for the primary key the database generates. */
    method CreateOrPromoteAdmin(email: string, password: Option<string>, hash: string -> string, freshId: Id)
      returns (r: Result<Action, ScriptError>)
      requires Valid()
      requires forall u :: u in users ==> u.id != freshId
      modifies this
      ensures Valid()
      ensures GetByEmail(old(users), email).Some? && GetByEmail(old(users), email).value.role == AdminRole ==>
        r == Ok(AlreadyAdmin) && users == old(users)
      ensures GetByEmail(old(users), email).Some? && GetByEmail(old(users), email).value.role != AdminRole ==>
        var existing := GetByEmail(old(users), email).value;
        var promoted := existing.(role := AdminRole,
                                  password := if Supplied(password) then Some(hash(password.value)) else existing.password);
        r == Ok(Promoted) && users == Replace(old(users), HasUserId(existing.id), promoted)
      ensures GetByEmail(old(users), email).None? && !Supplied(password) ==>
        r == Err(PasswordRequired) && users == old(users)
      ensures GetByEmail(old(users), email).None? && Supplied(password) ==>
        r == Ok(Created) && users == old(users) + [User(freshId, email, Some(hash(password.value)), AdminRole)]
      ensures r.Ok? ==> GetByEmail(users, email).Some? && GetByEmail(users, email).value.role == AdminRole
    {
      var existing := GetByEmail(users, email);
      if existing.Some? {
        var user := existing.value;
        if user.role == AdminRole {
          return Ok(AlreadyAdmin);
        }
        user := user.(role := AdminRole);
        if Supplied(password) {
          user := user.(password := Some(hash(password.value)));
        }
        PromoteKeepsKeys(users, existing.value, user);
        users := Replace(users, HasUserId(user.id), user);
        r := Ok(Promoted);
      } else {
        if !Supplied(password) {
          return Err(PasswordRequired);
        }
        var admin := User(freshId, email, Some(hash(password.value)), AdminRole);
        AppendDistinct(users, admin, UserId);
        AppendDistinct(users, admin, UserEmail);
        users := users + [admin];
        assert GetByEmail(users, email) == Some(admin) by {
          GetByEmailOfAppended(old(users), admin);
        }
        r := Ok(Created);
      }
    }

    /** Running the script a second time, with any password, changes nothing once the
      first run succeeded: the role is "admin" after the first run and stays so. */
    method CreateOrPromoteTwice(email: string, password: Option<string>, hash: string -> string,
                                freshId: Id, password2: Option<string>, freshId2: Id)
      returns (first: Result<Action, ScriptError>, second: Result<Action, ScriptError>, ghost between: seq<User>)
      requires Valid()
      requires forall u :: u in users ==> u.id != freshId && u.id != freshId2
      requires freshId != freshId2
      modifies this
      ensures Valid()
      ensures first.Ok? ==> second == Ok(AlreadyAdmin) && users == between
      ensures first.Ok? ==> GetByEmail(users, email).Some? && GetByEmail(users, email).value.role == AdminRole
    {
      first := CreateOrPromoteAdmin(email, password, hash, freshId);
      between := users;
      forall u | u in users ensures u.id != freshId2 {
        var i :| 0 <= i < |users| && users[i] == u;
        if i < |old(users)| {
          assert old(users)[i] in old(users);
        }
      }
      second := CreateOrPromoteAdmin(email, password2, hash, freshId2);
    }
  }

  /** Promotion rewrites one row: it keeps the row's id and email, so the keys stay distinct,
      and the promoted row is what get_by_email then finds. */
  lemma PromoteKeepsKeys(users: seq<User>, existing: User, promoted: User)
    requires Distinct(users, UserId) && Distinct(users, UserEmail)
    requires existing in users
    requires promoted.id == existing.id && promoted.email == existing.email
    ensures Distinct(Replace(users, HasUserId(existing.id), promoted), UserId)
    ensures Distinct(Replace(users, HasUserId(existing.id), promoted), UserEmail)
    ensures GetByEmail(Replace(users, HasUserId(existing.id), promoted), existing.email) == Some(promoted)
  {
    var i :| 0 <= i < |users| && users[i] == existing;
    forall y | y in users && !HasUserId(existing.id)(y) ensures y.email != promoted.email {
      var j :| 0 <= j < |users| && users[j] == y;
      assert i != j;
    }
    ReplaceDistinct(users, HasUserId(existing.id), promoted, UserId);
    ReplaceDistinct(users, HasUserId(existing.id), promoted, UserEmail);
    var after := Replace(users, HasUserId(existing.id), promoted);
    assert after[i] == promoted;
    var found := GetByEmail(after, existing.email).value;
    var j :| 0 <= j < |after| && after[j] == found;
    assert !(i < j) && !(j < i);
  }

  /** The row appended with a new email is what get_by_email finds for it. */
  lemma GetByEmailOfAppended(users: seq<User>, u: User)
    requires forall v :: v in users ==> v.email != u.email
    ensures GetByEmail(users + [u], u.email) == Some(u)
  {
    var found := GetByEmail(users + [u], u.email).value;
    assert found !in users;
  }
}
