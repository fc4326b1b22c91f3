/** The per-request session record and the authentication gate every admin router installs. */
module Sessions {
  import opened Values
  import opened Http
  import opened Auth

  /** What a request sees of its session; a fresh session has `loggedIn` unset, which is falsy. */
  datatype SessionState = SessionState(loggedIn: bool, user: Option<User>)

  predicate Authenticated(s: SessionState)
  {
    s.loggedIn
  }

  /** `isAuthenticated`: `None` lets the request through to the next handler, otherwise it is
      answered with a redirect to the login screen. */
  function Gate(s: SessionState): (stop: Option<Response>)
    ensures stop.None? <==> Authenticated(s)
    ensures stop.Some? ==> stop.value == Redirect(LoginPath)
  {
    if s.loggedIn then None else Some(Redirect(LoginPath))
  }

  datatype CookieOptions = CookieOptions(name: string, maxAgeMs: nat, httpOnly: bool)

  /** The session cookie: 24 hours, not readable from scripts. */
  const SessionCookie := CookieOptions("session_cookie_name", 1000 * 60 * 60 * 24, true)

  class Session {
    var loggedIn: bool
    var user: Option<User>

    constructor ()
      ensures !loggedIn && user == None
    {
      loggedIn, user := false, None;
    }

    function State(): SessionState
      reads this
    {
      SessionState(loggedIn, user)
    }

    /** `POST /auth/login`: only a successful login writes the session. */
    method Login(users: seq<AdminUser>, form: Form, outcomes: seq<Option<string>>) returns (r: Response)
      modifies this
      ensures r == LoginResponse(Authenticate(users, form, outcomes))
      ensures Authenticate(users, form, outcomes).LoggedIn? ==>
                loggedIn && user == Some(Authenticate(users, form, outcomes).user)
      ensures !Authenticate(users, form, outcomes).LoggedIn? ==> loggedIn == old(loggedIn) && user == old(user)
    {
      var outcome := Authenticate(users, form, outcomes);
      if outcome.LoggedIn? {
        loggedIn := true;
        user := Some(outcome.user);
      }
      r := LoginResponse(outcome);
    }

    /** `GET /logout`: when the session store destroys the record, the next request starts from a fresh
        session and the cookie is cleared; when destroying fails the record, possibly still logged in,
        stays and the user is sent back to the dashboard. */
    method Logout(destroyError: Option<string>) returns (r: Response, clearedCookie: Option<string>)
      modifies this
      ensures destroyError.None? ==> !loggedIn && user == None && r == Redirect(LoginPath) &&
                                     clearedCookie == Some(SessionCookie.name)
      ensures destroyError.Some? ==> loggedIn == old(loggedIn) && user == old(user) &&
                                     r == Redirect(DashboardPath) && clearedCookie == None
    {
      if destroyError.Some? {
        return Redirect(DashboardPath), None;
      }
      loggedIn, user := false, None;
      r, clearedCookie := Redirect(LoginPath), Some(SessionCookie.name);
    }
  }
}
