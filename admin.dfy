/** The `/admin` router: its gate, the dashboard and the five mounted entity routers. */
module Admin {
  import opened Values
  import opened Http
  import opened Schemas
  import opened Queries
  import opened Sessions
  import opened Crud

  datatype Entity = Employee | Room | Driver | Customer | Department

  /** The five tables as seen by one request. */
  datatype Tables = Tables(employees: TableState, rooms: TableState, drivers: TableState,
                           customers: TableState, departments: TableState)

  ghost predicate AllBounded(t: Tables)
  {
    Bounded(t.employees) && Bounded(t.rooms) && Bounded(t.drivers) && Bounded(t.customers) && Bounded(t.departments)
  }

  /** The columns of the dashboard's five `LIMIT 5` queries (besides `id`). */
  const TopEmployeeColumns: set<string> := {"name", "position", "email"}
  const TopRoomColumns: set<string> := {"room_number", "type", "status", "price"}
  const TopDriverColumns: set<string> := {"name", "license_number", "phone"}
  const TopCustomerColumns: set<string> := {"name", "email", "phone", "address"}
  const TopDepartmentColumns: set<string> := {"name", "manager"}
  const TopLimit: nat := 5

  /** Five counts and five top-5 queries, awaited one after the other. */
  const DashboardStatements: nat := 10

  /** GET `/admin/dashboard`: all ten queries succeed and the summary is rendered, or the first
      failure ends the request with a 500 and nothing is rendered. */
  function Dashboard(user: Option<User>, t: Tables, outcomes: seq<Option<string>>): (r: Response)
    requires AllBounded(t)
    ensures r.Render? <==> StoreError(outcomes, DashboardStatements).None?
    ensures !r.Render? ==> r == Send(500, "Dashboard error: " + StoreError(outcomes, DashboardStatements).value)
    ensures r.Render? ==>
              && r.code == 200 && r.view == "admin-dashboard"
              && r.data.DashboardData?
              && r.data.title == "Dashboard - Hotel Management System"
              && r.data.user == user
              && r.data.counts == Counts(|t.employees.rows|, |t.rooms.rows|, |t.drivers.rows|,
                                         |t.customers.rows|, |t.departments.rows|)
              && IsNewest(r.data.topEmployees, t.employees.rows, TopEmployeeColumns, TopLimit)
              && IsNewest(r.data.topRooms, t.rooms.rows, TopRoomColumns, TopLimit)
              && IsNewest(r.data.topDrivers, t.drivers.rows, TopDriverColumns, TopLimit)
              && IsNewest(r.data.topCustomers, t.customers.rows, TopCustomerColumns, TopLimit)
              && IsNewest(r.data.topDepartments, t.departments.rows, TopDepartmentColumns, TopLimit)
  {
    var err := StoreError(outcomes, DashboardStatements);
    if err.Some? then Send(500, "Dashboard error: " + err.value)
    else
      Render(200, "admin-dashboard", DashboardData(
        "Dashboard - Hotel Management System", user,
        Counts(|t.employees.rows|, |t.rooms.rows|, |t.drivers.rows|, |t.customers.rows|, |t.departments.rows|),
        Newest(t.employees.rows, t.employees.nextId, TopEmployeeColumns, TopLimit),
        Newest(t.rooms.rows, t.rooms.nextId, TopRoomColumns, TopLimit),
        Newest(t.drivers.rows, t.drivers.nextId, TopDriverColumns, TopLimit),
        Newest(t.customers.rows, t.customers.nextId, TopCustomerColumns, TopLimit),
        Newest(t.departments.rows, t.departments.nextId, TopDepartmentColumns, TopLimit)))
  }

  /** The newest row of a non-empty table heads its top list. */
  lemma NewestHeadsTop(rows: map<nat, Row>, bound: nat, cols: set<string>, id: nat)
    requires forall k :: k in rows ==> k < bound
    requires id in rows && forall k :: k in rows ==> k <= id
    ensures Newest(rows, bound, cols, TopLimit)[0] == Project(id, rows[id], cols)
  {
    var top := Newest(rows, bound, cols, TopLimit);
    assert |top| >= 1;
    assert top[0].id <= id;
    assert exists i :: 0 <= i < |top| && top[i].id == id;
    var i :| 0 <= i < |top| && top[i].id == id;
    assert i == 0;
  }

  /** The five entity routers of an entity route: the admin router mounts each under its path. */
  datatype EntityRoute =
    | ListRows
    | ShowAddForm
    | CreateRow(form: Form)
    | ShowEditForm(id: nat)
    | UpdateRow(id: nat, form: Form)
    | DeleteRow(id: nat)

  datatype AdminRoute = ToDashboard | ToEntity(entity: Entity, route: EntityRoute) | Unmatched

  /** The store's tables behind the admin router. */
  class Database {
    const employees: Table
    const rooms: Table
    const drivers: Table
    const customers: Table
    const departments: Table

    ghost predicate Valid()
      reads this, employees, rooms, drivers, customers, departments
    {
      && employees != rooms && employees != drivers && employees != customers && employees != departments
      && rooms != drivers && rooms != customers && rooms != departments
      && drivers != customers && drivers != departments
      && customers != departments
      && employees.schema == EmployeeSchema && rooms.schema == RoomSchema && drivers.schema == DriverSchema
      && customers.schema == CustomerSchema && departments.schema == DepartmentSchema
      && employees.Valid() && rooms.Valid() && drivers.Valid() && customers.Valid() && departments.Valid()
    }

    constructor ()
      ensures Valid()
      ensures fresh(employees) && fresh(rooms) && fresh(drivers) && fresh(customers) && fresh(departments)
      ensures State() == Tables(TableState(map[], 1), TableState(map[], 1), TableState(map[], 1),
                                TableState(map[], 1), TableState(map[], 1))
    {
      employees := new Table(EmployeeSchema);
      rooms := new Table(RoomSchema);
      drivers := new Table(DriverSchema);
      customers := new Table(CustomerSchema);
      departments := new Table(DepartmentSchema);
    }

    function TableFor(e: Entity): Table
    {
      match e
      case Employee => employees
      case Room => rooms
      case Driver => drivers
      case Customer => customers
      case Department => departments
    }

    function State(): (t: Tables)
      reads this, employees, rooms, drivers, customers, departments
      ensures Valid() ==> AllBounded(t)
    {
      Tables(employees.State(), rooms.State(), drivers.State(), customers.State(), departments.State())
    }

    /** A request under `/admin`: the admin gate runs first; the dashboard only reads; an entity route
        reaches its router, which runs the same gate again, and no other table changes; an unmatched
        path falls through to the application (`None`). */
    method Route(session: SessionState, route: AdminRoute, outcomes: seq<Option<string>>, now: Value)
      returns (r: Option<Response>)
      requires Valid()
      modifies employees, rooms, drivers, customers, departments
      ensures Valid()
      ensures !Authenticated(session) ==> r == Some(Redirect(LoginPath)) && State() == old(State())
      ensures route.ToDashboard? ==>
                State() == old(State()) &&
                (Authenticated(session) ==> r == Some(Dashboard(session.user, State(), outcomes)))
      ensures route.Unmatched? ==> State() == old(State()) && (Authenticated(session) ==> r.None?)
      ensures route.ToEntity? ==> forall e :: e != route.entity ==> TableFor(e).State() == old(TableFor(e).State())
      ensures route.ToEntity? && Authenticated(session) ==> r.Some? && EntityServed(
                TableFor(route.entity).schema, old(TableFor(route.entity).State()), TableFor(route.entity).State(),
                session, route.route, StoreError(outcomes, 1), now, r.value)
    {
      if Gate(session).Some? {
        return Gate(session);
      }
      match route
      case ToDashboard =>
        r := Some(Dashboard(session.user, State(), outcomes));
      case Unmatched =>
        r := None;
      case ToEntity(e, op) =>
        var resp := Serve(TableFor(e), session, op, StoreError(outcomes, 1), now);
        r := Some(resp);
    }
  }

  /** The mounted entity router: each route goes to its handler on the one table. */
  method Serve(t: Table, session: SessionState, route: EntityRoute, err: Option<string>, now: Value)
    returns (r: Response)
    requires t.Valid()
    modifies t
    ensures t.Valid()
    ensures EntityServed(t.schema, old(t.State()), t.State(), session, route, err, now, r)
  {
    match route
    case ListRows => r := ListResponse(t.schema, t.State(), session, err);
    case ShowAddForm => r := AddFormResponse(t.schema, session);
    case ShowEditForm(id) => r := EditFormResponse(t.schema, t.State(), session, id, err);
    case CreateRow(form) => r := t.Create(session, form, now, err);
    case UpdateRow(id, form) => r := t.Update(session, id, form, err);
    case DeleteRow(id) => r := t.Delete(session, id, err);
  }

  /** What an entity router does with one request: the read-only handlers leave the table as it was. */
  ghost predicate EntityServed(schema: Schema, before: TableState, after: TableState, session: SessionState,
                               route: EntityRoute, err: Option<string>, now: Value, r: Response)
  {
    match route
    case ListRows => after == before && Bounded(before) && r == ListResponse(schema, before, session, err)
    case ShowAddForm => after == before && r == AddFormResponse(schema, session)
    case ShowEditForm(id) => after == before && r == EditFormResponse(schema, before, session, id, err)
    case CreateRow(form) => Created(schema, before, after, session, form, now, err, r)
    case UpdateRow(id, form) => Updated(schema, before, after, session, id, form, err, r)
    case DeleteRow(id) => Deleted(schema, before, after, session, id, err, r)
  }
}
