/** The registration and login decisions. Password hashing is not part of
    the model: the hash function and the hash check are parameters. */
module Auth {
  import opened Wrappers
  import opened Text
  import opened Records

  const MinPasswordLength: int := 6

  /** The posted registration form; a missing field reads as empty. */
  datatype RegisterForm = RegisterForm(username: string, email: string,
                                       password: string, confirmPassword: string)

  /** The registration checks, in the order they run. */
  datatype RegisterError = MissingFields | PasswordMismatch | PasswordTooShort
                         | UsernameTaken | EmailTaken

  function RegisterMessage(e: RegisterError): string {
    match e
    case MissingFields => "Please fill in all fields"
    case PasswordMismatch => "Passwords do not match"
    case PasswordTooShort => "Password must be at least 6 characters long"
    case UsernameTaken => "Username already exists"
    case EmailTaken => "Email already registered"
  }

  /** The position of each check in the chain. */
  function Rank(e: RegisterError): nat {
    match e
    case MissingFields => 0
    case PasswordMismatch => 1
    case PasswordTooShort => 2
    case UsernameTaken => 3
    case EmailTaken => 4
  }

  predicate UsernameInUse(users: seq<User>, name: string) {
    exists i :: 0 <= i < |users| && users[i].username == name
  }

  predicate EmailInUse(users: seq<User>, email: string) {
    exists i :: 0 <= i < |users| && users[i].email == email
  }

  /** The fields as the checks see them: username and email without their
      surrounding whitespace, the passwords as typed. */
  datatype Fields = Fields(username: string, email: string, password: string, confirmPassword: string)

  function Clean(form: RegisterForm): (f: Fields)
    ensures Trimmed(form.username, f.username) && Trimmed(form.email, f.email)
    ensures f.password == form.password && f.confirmPassword == form.confirmPassword
  {
    var username, email := Strip(form.username), Strip(form.email);
    assert Trimmed(form.username, username);
    assert Trimmed(form.email, email);
    Fields(username, email, form.password, form.confirmPassword)
  }

  /** Whether check `e` rejects the fields. */
  predicate Fails(e: RegisterError, users: seq<User>, f: Fields) {
    match e
    case MissingFields =>
      f.username == [] || f.email == [] || f.password == [] || f.confirmPassword == []
    case PasswordMismatch => f.password != f.confirmPassword
    case PasswordTooShort => |f.password| < MinPasswordLength
    case UsernameTaken => UsernameInUse(users, f.username)
    case EmailTaken => EmailInUse(users, f.email)
  }

  /** The validation chain over the cleaned fields. On success, the fields
      of the account to create. */
  function Validate(users: seq<User>, f: Fields): (r: Result<Fields, RegisterError>)
    ensures r.Ok? ==> r.value == f
    ensures r.Ok? ==> f.username != [] && f.email != [] && |f.password| >= MinPasswordLength
                      && !UsernameInUse(users, f.username) && !EmailInUse(users, f.email)
  {
    if f.username == [] || f.email == [] || f.password == [] || f.confirmPassword == [] then
      Err(MissingFields)
    else if f.password != f.confirmPassword then
      Err(PasswordMismatch)
    else if |f.password| < MinPasswordLength then
      Err(PasswordTooShort)
    else if UsernameInUse(users, f.username) then
      Err(UsernameTaken)
    else if EmailInUse(users, f.email) then
      Err(EmailTaken)
    else
      Ok(f)
  }

  /** The registration decision on a posted form. */
  function CheckRegistration(users: seq<User>, form: RegisterForm): (r: Result<Fields, RegisterError>)
    ensures r.Ok? <==> forall e :: !Fails(e, users, Clean(form))
    ensures r.Ok? ==> r.value == Clean(form)
    ensures r.Err? ==> Fails(r.error, users, Clean(form))
                       && forall e :: Rank(e) < Rank(r.error) ==> !Fails(e, users, Clean(form))
  {
    FirstFailureWins(users, Clean(form));
    Validate(users, Clean(form))
  }

  lemma EveryCheck(e: RegisterError)
    ensures e == MissingFields || e == PasswordMismatch || e == PasswordTooShort
            || e == UsernameTaken || e == EmailTaken
  {
  }

  /** The checks run in the order of `Rank`: validation succeeds exactly when
      no check fails, and otherwise reports a failing check before which
      every check passed. */
  lemma FirstFailureWins(users: seq<User>, f: Fields)
    ensures Validate(users, f).Ok? <==> forall e :: !Fails(e, users, f)
    ensures Validate(users, f).Err? ==>
              Fails(Validate(users, f).error, users, f)
              && forall e :: Rank(e) < Rank(Validate(users, f).error) ==> !Fails(e, users, f)
  {
    var r := Validate(users, f);
    forall e ensures r.Ok? ==> !Fails(e, users, f) {
      EveryCheck(e);
    }
    if r.Err? {
      assert Fails(r.error, users, f);
      forall e | Rank(e) < Rank(r.error) ensures !Fails(e, users, f) {
        EveryCheck(e);
      }
    }
  }

  /** Each failed check flashes its own message, so the page tells the
      user which check failed. */
  lemma RegisterMessagesDistinct(a: RegisterError, b: RegisterError)
    ensures RegisterMessage(a) == RegisterMessage(b) <==> a == b
  {
    EveryCheck(a);
    EveryCheck(b);
  }

  datatype LoginError = LoginMissingFields | InvalidCredentials

  function LoginMessage(e: LoginError): string {
    match e
    case LoginMissingFields => "Please fill in all fields"
    case InvalidCredentials => "Invalid username or password"
  }

  /** `User.query.filter_by(username=name).first()`: the first user with that name. */
  function FindByUsername(users: seq<User>, name: string): (r: Option<User>)
    ensures r.None? <==> !UsernameInUse(users, name)
    ensures r.Some? ==> exists i :: 0 <= i < |users| && users[i] == r.value && r.value.username == name
                                    && forall j :: 0 <= j < i ==> users[j].username != name
  {
    if users == [] then None
    else if users[0].username == name then Some(users[0])
    else
      var r := FindByUsername(users[1..], name);
      assert UsernameInUse(users, name) <==> UsernameInUse(users[1..], name) by {
        if UsernameInUse(users, name) {
          var i :| 0 <= i < |users| && users[i].username == name;
          assert users[1..][i - 1] == users[i];
        }
        if UsernameInUse(users[1..], name) {
          var i :| 0 <= i < |users[1..]| && users[1..][i].username == name;
          assert users[i + 1] == users[1..][i];
        }
      }
      if r.Some? then
        var i :| 0 <= i < |users[1..]| && users[1..][i] == r.value && r.value.username == name
                 && forall j :: 0 <= j < i ==> users[1..][j].username != name;
        assert users[i + 1] == r.value;
        assert forall j :: 0 <= j < i + 1 ==> users[j].username != name by {
          forall j | 0 <= j < i + 1 ensures users[j].username != name {
            if j > 0 { assert users[j] == users[1..][j - 1]; }
          }
        }
        r
      else r
  }

  /** The login decision. `checkPassword(hash, password)` stands for
      `User.check_password`. On success, the id of the user logged in. */
  function Login(users: seq<User>, username: string, password: string,
                 checkPassword: (string, string) -> bool): (r: Result<int, LoginError>)
    ensures r == Err(LoginMissingFields) <==> Strip(username) == [] || password == []
    ensures r.Ok? ==> exists i :: 0 <= i < |users| && users[i].id == r.value
                                  && users[i].username == Strip(username)
                                  && checkPassword(users[i].passwordHash, password)
  {
    var name := Strip(username);
    if name == [] || password == [] then Err(LoginMissingFields)
    else
      match FindByUsername(users, name)
      case Some(user) =>
        if checkPassword(user.passwordHash, password) then Ok(user.id) else Err(InvalidCredentials)
      case None => Err(InvalidCredentials)
  }

  /** With unique usernames, login succeeds exactly for the user whose name
      was given and whose password checks; an unknown name and a wrong
      password get one and the same message. */
  lemma LoginOutcome(users: seq<User>, username: string, password: string,
                     checkPassword: (string, string) -> bool, i: int)
    requires UsersValid(users)
    requires Strip(username) != [] && password != []
    requires 0 <= i < |users| && users[i].username == Strip(username)
    ensures checkPassword(users[i].passwordHash, password) ==>
              Login(users, username, password, checkPassword) == Ok(users[i].id)
    ensures !checkPassword(users[i].passwordHash, password) ==>
              Login(users, username, password, checkPassword) == Err(InvalidCredentials)
  {
    var found := FindByUsername(users, Strip(username));
    var j :| 0 <= j < |users| && users[j] == found.value && found.value.username == Strip(username)
             && forall k :: 0 <= k < j ==> users[k].username != Strip(username);
  }

  /** An unknown username is refused with the same message as a wrong password. */
  lemma LoginUnknownUser(users: seq<User>, username: string, password: string,
                         checkPassword: (string, string) -> bool)
    requires Strip(username) != [] && password != []
    requires forall i :: 0 <= i < |users| ==> users[i].username != Strip(username)
    ensures Login(users, username, password, checkPassword) == Err(InvalidCredentials)
    ensures LoginMessage(InvalidCredentials) == "Invalid username or password"
  {
  }
}
