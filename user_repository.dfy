/** User sign-up over the users table. bcrypt's `hash` is the repository's
    `hash` function, left uninterpreted; the salt `genSalt` returned is a
    parameter. The table itself enforces the unique constraint on `username`;
    any failure of `save()` the table does not detect is the `fault` parameter,
    which may also carry the duplicate-username code (as a concurrent insert
    of the same username would). */
module Auth {
  import opened Errors

  /** The sign-up body. */
  datatype AuthCredentialsDto = AuthCredentialsDto(username: string, password: string)

  /** A users row; `password` holds the hash, never the raw password. */
  datatype User = User(username: string, salt: string, password: string)

  /** A fresh entity before any field is assigned. */
  const NewUser: User := User("", "", "")

  /** The `code` a failed save carries. The duplicate-username code is one
      fixed constant; every other code is some other string. */
  datatype ErrorCode = DuplicateUsername | OtherCode(name: string)

  /** What `save()` rejects with; `code` may be missing altogether. */
  datatype SaveError = SaveError(code: Option<ErrorCode>)

  const UsernameTakenMessage: string := "Username already exists"

  /** The catch block of `signUp`: the duplicate code becomes Conflict, anything
      else (another code, or none) becomes InternalServerError. */
  function SaveErrorToHttp(e: SaveError): (r: HttpError)
    ensures r == Conflict(UsernameTakenMessage) || r == InternalServerError
    ensures r.Conflict? <==> e.code == Some(DuplicateUsername)
  {
    if e.code == Some(DuplicateUsername) then Conflict(UsernameTakenMessage)
    else InternalServerError
  }

  /** Every row is stored under its own username. */
  ghost predicate KeyedByUsername(users: map<string, User>)
  {
    forall name :: name in users ==> users[name].username == name
  }

  class UserRepository {
    /** The users table, keyed by its unique `username` column. */
    var users: map<string, User>
    /** bcrypt's `hash(password, salt)`. */
    const hash: (string, string) -> string

    ghost predicate Valid()
      reads this
    {
      KeyedByUsername(users)
    }

    /** The repository over the rows the database already holds. */
    constructor (rows: map<string, User>, hash: (string, string) -> string)
      requires KeyedByUsername(rows)
      ensures Valid()
      ensures users == rows && this.hash == hash
    {
      users := rows;
      this.hash := hash;
    }

    /** `hashPassword`: exactly bcrypt's hash of the password with the salt. */
    function HashPassword(password: string, salt: string): (h: string)
      ensures h == hash(password, salt)
    {
      hash(password, salt)
    }

    /** `user.save()` as an insert: `fault` is a failure the table does not detect
        itself (possibly the duplicate code, from a concurrent insert);
        without one, the unique constraint rejects a taken username with the
        duplicate code; otherwise the row is inserted. */
    method Save(user: User, fault: Option<SaveError>) returns (err: Option<SaveError>)
      requires Valid()
      modifies this
      ensures Valid()
      ensures fault.Some? ==> err == fault && users == old(users)
      ensures fault.None? && user.username in old(users) ==>
                err == Some(SaveError(Some(DuplicateUsername))) && users == old(users)
      ensures fault.None? && user.username !in old(users) ==>
                err == None && users == old(users)[user.username := user]
    {
      if fault.Some? {
        return fault;
      }
      if user.username in users {
        return Some(SaveError(Some(DuplicateUsername)));
      }
      users := users[user.username := user];
      err := None;
    }

    /** `signUp`: build the row field by field (username, then the salt, then the
        password hashed with that salt), save it, and map a failed save. */
    method SignUp(credentials: AuthCredentialsDto, salt: string, fault: Option<SaveError>)
      returns (r: Result<()>)
      requires Valid()
      modifies this
      ensures Valid()
      ensures r.Ok? <==> fault.None? && credentials.username !in old(users)
      ensures r.Ok? ==> users == old(users)[credentials.username :=
                           User(credentials.username, salt, hash(credentials.password, salt))]
      ensures r.Ok? ==> && credentials.username in users
                        && users[credentials.username].username == credentials.username
                        && users[credentials.username].salt == salt
                        && users[credentials.username].password ==
                             hash(credentials.password, users[credentials.username].salt)
      ensures r.Err? ==> users == old(users)
      ensures r.Err? ==> r.error == Conflict(UsernameTakenMessage) || r.error == InternalServerError
      ensures r == Err(Conflict(UsernameTakenMessage)) <==>
                (fault.Some? && fault.value.code == Some(DuplicateUsername))
                || (fault.None? && credentials.username in old(users))
    {
      var user := NewUser;
      user := user.(username := credentials.username);
      user := user.(salt := salt);
      user := user.(password := HashPassword(credentials.password, user.salt));
      var err := Save(user, fault);
      if err.Some? {
        return Err(SaveErrorToHttp(err.value));
      }
      r := Ok(());
    }
  }

  /** Signing up the same username twice: the second attempt is a Conflict and
      leaves the table as the first one left it. */
  method SignUpTwice(repo: UserRepository, first: AuthCredentialsDto, second: AuthCredentialsDto,
                     salt1: string, salt2: string)
    returns (r1: Result<()>, r2: Result<()>)
    requires repo.Valid()
    requires first.username == second.username
    modifies repo
    ensures repo.Valid()
    ensures r1.Ok? ==> r2 == Err(Conflict(UsernameTakenMessage))
    ensures r1.Ok? ==> first.username in repo.users && repo.users[first.username].password == repo.hash(first.password, salt1)
  {
    r1 := repo.SignUp(first, salt1, None);
    r2 := repo.SignUp(second, salt2, None);
  }
}
