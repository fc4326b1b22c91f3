/** The responses a handler can produce, with the data handed to the (opaque) view renderer. */
module Http {
  import opened Values

  /** The identity kept in the session after a successful login. */
  datatype User = User(id: nat, username: string, name: string)

  /** A row as a query returns it: its id and the selected columns. */
  datatype Record = Record(id: nat, fields: Row)

  datatype Counts = Counts(employees: nat, rooms: nat, drivers: nat, customers: nat, departments: nat)

  /** The data object passed to `res.render`; `key` is the name under which the rows are passed. */
  datatype ViewData =
    | ListData(title: string, user: Option<User>, key: string, records: seq<Record>)
    | FormData(title: string, user: Option<User>, key: string, record: Option<Record>, action: string)
    | LoginData(title: string, error: Option<string>)
    | DashboardData(title: string, user: Option<User>, counts: Counts,
                    topEmployees: seq<Record>, topRooms: seq<Record>, topDrivers: seq<Record>,
                    topCustomers: seq<Record>, topDepartments: seq<Record>)
    | PageData(title: string)

  datatype Credential = Credential(username: string, password: string, name: string)

  /** The bodies sent with `res.json`. */
  datatype Json = CredentialList(rows: seq<Credential>) | ErrorObject(error: string)

  datatype Response =
    | Redirect(path: string)
    | Render(code: nat, view: string, data: ViewData)
    | Send(code: nat, text: string)
    | SendJson(body: Json)

  const LoginPath := "/login"
  const DashboardPath := "/admin/dashboard"
  const LoginTitle := "Admin Login - Hotel Management System"
}
