/** The `/auth` router: the login decision over the `admin_users` table and the ungated user dump. */
module Auth {
  import opened Values
  import opened Http

  datatype AdminUser = AdminUser(id: nat, username: string, password: string, name: string)

  /** `SELECT * FROM admin_users WHERE username = ?`: the matching rows, in table order. */
  function Select(users: seq<AdminUser>, username: Value): (rows: seq<AdminUser>)
    ensures forall u :: u in rows <==> u in users && Text(u.username) == username
    ensures |rows| > 0 ==> exists i :: FirstMatch(users, username, i) && users[i] == rows[0]
    ensures forall u :: multiset(rows)[u] == if Text(u.username) == username then multiset(users)[u] else 0
  {
    if |users| == 0 then []
    else
      assert users == [users[0]] + users[1..];
      if Text(users[0].username) == username then [users[0]] + Select(users[1..], username)
      else
        var rest := Select(users[1..], username);
        assert forall j :: 0 <= j < |users| - 1 ==> users[1..][j] == users[j + 1];
        assert |rest| > 0 ==> exists i :: FirstMatch(users[1..], username, i) && users[i + 1] == rest[0];
        rest
  }

  /** Row `i` is the first row of `users` whose username is `username`. */
  ghost predicate FirstMatch(users: seq<AdminUser>, username: Value, i: int)
  {
    && 0 <= i < |users|
    && Text(users[i].username) == username
    && forall j :: 0 <= j < i ==> Text(users[j].username) != username
  }

  function UserOf(u: AdminUser): User
  {
    User(u.id, u.username, u.name)
  }

  datatype LoginOutcome = StoreFailed(message: string) | UserNotFound | WrongPassword | LoggedIn(user: User)

  /** The login handler issues two statements: the connection check `SELECT 1`, then the lookup. */
  const LoginStatements: nat := 2

  /** The decision of `POST /auth/login`: a store error, an unknown username, a password that is not
      strictly equal to the one stored in the first matching row, or success with that row's identity. */
  function Authenticate(users: seq<AdminUser>, form: Form, outcomes: seq<Option<string>>): (o: LoginOutcome)
    ensures o.StoreFailed? <==> StoreError(outcomes, LoginStatements).Some?
    ensures o.StoreFailed? ==> o.message == StoreError(outcomes, LoginStatements).value
    ensures o.UserNotFound? <==> StoreError(outcomes, LoginStatements).None? &&
                                 forall u :: u in users ==> Text(u.username) != Field(form, "username")
    ensures o.WrongPassword? || o.LoggedIn? ==>
              exists i :: FirstMatch(users, Field(form, "username"), i) &&
                          (o.LoggedIn? <==> Field(form, "password") == Text(users[i].password)) &&
                          (o.LoggedIn? ==> o.user == UserOf(users[i]))
    ensures o.LoggedIn? <==>
              && StoreError(outcomes, LoginStatements).None?
              && exists i :: FirstMatch(users, Field(form, "username"), i) &&
                             Field(form, "password") == Text(users[i].password)
  {
    var err := StoreError(outcomes, LoginStatements);
    if err.Some? then StoreFailed(err.value)
    else
      var rows := Select(users, Field(form, "username"));
      if |rows| == 0 then UserNotFound
      else if Field(form, "password") != Text(rows[0].password) then WrongPassword
      else LoggedIn(UserOf(rows[0]))
  }

  /** What the login handler sends for each outcome: the dashboard redirect on success, otherwise the
      login page re-rendered with the error. */
  function LoginResponse(o: LoginOutcome): (r: Response)
    ensures r.Redirect? <==> o.LoggedIn?
    ensures o.LoggedIn? ==> r == Redirect(DashboardPath)
    ensures !o.LoggedIn? ==> r.Render? && r.code == 200 && r.view == "login" &&
                             r.data.LoginData? && r.data.title == LoginTitle && r.data.error.Some?
    ensures o.StoreFailed? ==> r.data.error == Some("Database error: " + o.message)
    ensures o.UserNotFound? ==> r.data.error == Some("Invalid username or password - User not found")
    ensures o.WrongPassword? ==> r.data.error == Some("Invalid username or password - Wrong password")
  {
    match o
    case StoreFailed(message) => Render(200, "login", LoginData(LoginTitle, Some("Database error: " + message)))
    case UserNotFound => Render(200, "login", LoginData(LoginTitle, Some("Invalid username or password - User not found")))
    case WrongPassword => Render(200, "login", LoginData(LoginTitle, Some("Invalid username or password - Wrong password")))
    case LoggedIn(_) => Redirect(DashboardPath)
  }

  /** `GET /auth/debug/users`: not gated, it returns every username, password and name, or `{error}`. */
  function DebugUsers(users: seq<AdminUser>, outcome: Option<string>): (r: Response)
    ensures r.SendJson?
    ensures outcome.Some? ==> r.body == ErrorObject(outcome.value)
    ensures outcome.None? ==>
              && r.body.CredentialList?
              && |r.body.rows| == |users|
              && forall i :: 0 <= i < |users| ==>
                   r.body.rows[i] == Credential(users[i].username, users[i].password, users[i].name)
  {
    if outcome.Some? then SendJson(ErrorObject(outcome.value))
    else SendJson(CredentialList(seq(|users|, i requires 0 <= i < |users| =>
                                       Credential(users[i].username, users[i].password, users[i].name))))
  }
}
