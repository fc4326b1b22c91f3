/** The application: the routers in mount order and the handlers app.js defines itself. */
module App {
  import opened Values
  import opened Http
  import opened Sessions
  import opened Auth
  import opened Admin

  /** A request, already matched against the mount points: `/auth/debug/users` and `/auth/login`
      reach the ungated auth router, anything under `/admin` the gated admin router, and a request
      nothing matches reaches the fallback. */
  datatype Request =
    | GetHome
    | GetLogin
    | GetLogout
    | PostLogin(form: Form)
    | GetDebugUsers
    | ToAdmin(route: AdminRoute)
    | Other

  /** GET `/`. */
  function Home(s: SessionState): (r: Response)
    ensures r.Redirect?
    ensures r.path == DashboardPath <==> Authenticated(s)
    ensures !Authenticated(s) ==> r.path == LoginPath
  {
    if s.loggedIn then Redirect(DashboardPath) else Redirect(LoginPath)
  }

  /** GET `/login`: a logged-in session skips the form. */
  function LoginScreen(s: SessionState): (r: Response)
    ensures Authenticated(s) ==> r == Redirect(DashboardPath)
    ensures !Authenticated(s) ==> r == Render(200, "login", LoginData(LoginTitle, None))
  {
    if s.loggedIn then Redirect(DashboardPath) else Render(200, "login", LoginData(LoginTitle, None))
  }

  /** The fallback for a request no route answered. */
  function NotFound(): (r: Response)
    ensures r.Render? && r.code == 404 && r.view == "404" && r.data == PageData("Page Not Found")
  {
    Render(404, "404", PageData("Page Not Found"))
  }

  /** One request through the application. Only the login and logout handlers touch the session,
      only the admin router touches the tables, and the auth router answers whatever the session. */
  method Handle(db: Database, session: Session, users: seq<AdminUser>, req: Request,
                outcomes: seq<Option<string>>, destroyError: Option<string>, now: Value)
    returns (r: Response, clearedCookie: Option<string>)
    requires db.Valid()
    modifies session, db.employees, db.rooms, db.drivers, db.customers, db.departments
    ensures db.Valid()
    ensures !req.ToAdmin? ==> db.State() == old(db.State())
    ensures !req.PostLogin? && !req.GetLogout? ==> session.State() == old(session.State())
    ensures clearedCookie.Some? ==> req.GetLogout? && destroyError.None?
    ensures req.GetHome? ==> r == Home(old(session.State()))
    ensures req.GetLogin? ==> r == LoginScreen(old(session.State()))
    ensures req.PostLogin? ==>
              var o := Authenticate(users, req.form, outcomes);
              && r == LoginResponse(o)
              && session.State() == (if o.LoggedIn? then SessionState(true, Some(o.user)) else old(session.State()))
    ensures req.GetDebugUsers? ==> r == DebugUsers(users, StoreError(outcomes, 1))
    ensures req.GetLogout? && destroyError.None? ==>
              r == Redirect(LoginPath) && session.State() == SessionState(false, None) &&
              clearedCookie == Some(SessionCookie.name)
    ensures req.GetLogout? && destroyError.Some? ==>
              r == Redirect(DashboardPath) && session.State() == old(session.State())
    ensures req.ToAdmin? && !Authenticated(old(session.State())) ==>
              r == Redirect(LoginPath) && db.State() == old(db.State())
    ensures req.ToAdmin? && req.route.ToDashboard? && Authenticated(old(session.State())) ==>
              r == Dashboard(old(session.State()).user, db.State(), outcomes) && db.State() == old(db.State())
    ensures req.ToAdmin? && req.route.Unmatched? && Authenticated(old(session.State())) ==>
              r == NotFound() && db.State() == old(db.State())
    ensures req.ToAdmin? && req.route.ToEntity? && Authenticated(old(session.State())) ==>
              var t := db.TableFor(req.route.entity);
              && (forall e :: e != req.route.entity ==> db.TableFor(e).State() == old(db.TableFor(e).State()))
              && EntityServed(t.schema, old(t.State()), t.State(), old(session.State()), req.route.route,
                              StoreError(outcomes, 1), now, r)
    ensures req.Other? ==> r == NotFound()
  {
    clearedCookie := None;
    match req
    case PostLogin(form) =>
      r := session.Login(users, form, outcomes);
    case GetDebugUsers =>
      r := DebugUsers(users, StoreError(outcomes, 1));
    case ToAdmin(route) =>
      var answered := db.Route(session.State(), route, outcomes, now);
      r := if answered.Some? then answered.value else NotFound();
    case GetHome =>
      r := Home(session.State());
    case GetLogin =>
      r := LoginScreen(session.State());
    case GetLogout =>
      r, clearedCookie := session.Logout(destroyError);
    case Other =>
      r := NotFound();
  }

  /** After a successful logout, the next request under `/admin` is sent to the login screen and
      changes nothing. */
  method LogoutThenAdmin(db: Database, session: Session, users: seq<AdminUser>, route: AdminRoute,
                         outcomes: seq<Option<string>>, now: Value)
    returns (first: Response, next: Response)
    requires db.Valid()
    modifies session, db.employees, db.rooms, db.drivers, db.customers, db.departments
    ensures first == Redirect(LoginPath) && next == Redirect(LoginPath)
    ensures db.State() == old(db.State())
  {
    var cleared;
    first, cleared := Handle(db, session, users, GetLogout, outcomes, None, now);
    next, cleared := Handle(db, session, users, ToAdmin(route), outcomes, None, now);
  }
}
