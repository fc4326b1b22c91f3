# Hotel back-office: request handling over an abstract store

This project models the request handling of a small hotel-management back-office. The back-office is an
Express application with one login screen and an `/admin` area. That area holds a dashboard and five entity routers: employees, rooms,
drivers, customers and departments. Each entity router lists, adds, edits and deletes the rows of one
table.

The relational store is replaced by an in-memory one. Each table is a map from id to row, plus the next id the store will hand
out. The result of each SQL statement is supplied as a parameter: `None` for success, `Some(message)` for an error that the handler catches.
Every outcome is then a deterministic function of three things: the session, the request and the tables.

Modules, in dependency order:

- `Values`: form fields and column values, and the first failing statement among those a handler issues.
- `Http`: the response datatype (redirect, render with view data, status plus text, JSON) and the paths and titles shared by several handlers.
- `Schemas`: the five entity routers written as instances of one descriptor. The descriptor holds the table, the mount path, the views, the titles, the editable columns, the checkbox columns, the store-filled columns, the list projection and the error texts.
- `Queries`: `SELECT ... ORDER BY id DESC`, with and without `LIMIT`.
- `Auth`: the `/auth` router, that is, the login decision over `admin_users` and the ungated user dump.
- `Sessions`: the session record (`loggedIn`, `user`), the `isAuthenticated` gate, the session cookie options, and the `Session` class whose login and logout methods update the record in place.
- `Crud`: the generic entity router.
  - The `Table` class has the fields `rows` and `nextId`. Its create, update and delete methods change them.
  - The read-only handlers are functions of the table's state: list, add form and edit form.
- `Admin`: the `/admin` router. It holds the dashboard aggregator, the `Database` class holding the five tables, and the dispatch of a request to the dashboard or to an entity router.
- `App`: the application. It covers one request through the mounted routers, the home redirect, the `GET /login` decision, logout and the 404 fallback.

Requests arrive already routed (`App.Request`, `Admin.AdminRoute`, `Admin.EntityRoute`), with the `:id` path parameter already a natural number.

## Model

| member | source | states |
|---|---|---|
| Values.Field | routes/employee.js:46 | destructuring a body field yields its text when it was submitted and `undefined` when it was not |
| Values.FirstError | routes/admin.js:30-54 | no error exactly when every awaited statement succeeds; otherwise the error of a failing statement such that every statement before it succeeded |
| Values.StoreError | routes/admin.js:30-76 | the same, for a handler that issues only its first `n` statements |
| Sessions.Gate | routes/employee.js:6-15 | the request passes to the handler exactly when `loggedIn` holds; otherwise it is answered with a redirect to `/login`. The same gate is installed by every entity router (routes/customer.js:6-11, routes/department.js:6-11, routes/driver.js:6-15, routes/room.js:6-15) and by the admin router (routes/admin.js:6-23) |
| Crud.CheckboxFlag | routes/driver.js:46-50 | the stored `available` is 0 or 1, and it is 1 exactly when the submitted value is the text `on`; an absent field gives 0. Update applies the same coercion (routes/driver.js:85-89) |
| Crud.Bind | routes/driver.js:50 | the value bound for a column: for a checkbox column the 0/1 coercion of the submitted field, for every other column the submitted field as destructured from the body (routes/employee.js:50, 89) |
| Crud.NewRow | routes/employee.js:45-51 | the inserted row has exactly the table's columns; every submitted column holds the bound value (checkbox columns coerced); a column the handler never binds, the department's `created_at` (routes/department.js:42-49), holds the store's value; the row conforms, so checkbox columns hold 0 or 1 |
| Crud.Overwrite | routes/employee.js:83-90 | the updated row keeps its set of columns; exactly the editable columns take the submitted values; every other column, the department's `created_at` among them (routes/department.js:75-83), is unchanged; conformance is preserved |
| Crud.ListResponse | routes/employee.js:18-32 | not logged in: redirect to `/login`. Store error: 500 with the router's list-error prefix. Otherwise, and only then, it renders the list view; the records are every row once, projected to the router's list columns, ids strictly descending. The customer list keeps only name, email, phone and address of seven stored columns (routes/customer.js:14-29); the department list includes `created_at` and renders the view `department` (routes/department.js:14-29) |
| Crud.AddFormResponse | routes/employee.js:35-42 | takes no table state. Once past the gate it renders the form view with no record and action `add` |
| Crud.EditFormResponse | routes/employee.js:60-80 | store error: 500 with the fetch prefix. An absent id: 404 with the router's not-found text. It renders exactly when logged in, with no error and the id present, showing the stored row and action `edit` |
| Crud.Table.Create | routes/employee.js:45-57 | not logged in, or a store error: the table is unchanged and the answer is the redirect or the 500 with the create prefix (for customers `Error adding customer: `, routes/customer.js:51-54). Otherwise exactly one row, `NewRow`, is added under the fresh id `nextId`, the counter advances, no other row changes, and the answer redirects to the router's path. The table invariant is kept |
| Crud.Table.Update | routes/employee.js:83-96 | the row with that id is replaced by `Overwrite`, and every other row and the counter are unchanged. A missing id changes nothing and still redirects, and a store error leaves the table unchanged with a 500 |
| Crud.Table.Delete | routes/employee.js:99-108 | exactly the row with that id is removed, whether or not it existed, and the answer redirects. A store error leaves the table unchanged with a 500 with the delete prefix (for rooms `Error deleting room: `, routes/room.js:104-107) |
| Crud.CreateThenList | routes/employee.js:45-52 | after a create, the list is the new row (projected) followed by the previous list |
| Crud.DeleteThenList | routes/employee.js:99-103 | after a delete, the list is exactly the remaining rows and never shows the deleted id |
| Crud.CreateThenEdit | routes/employee.js:60-75 | after a create, the edit form of the new id shows the row just written |
| Crud.UpdateThenEdit | routes/employee.js:83-91 | after an update, the edit form shows the overwritten row; for a missing id it is still a 404 |
| Queries.Project | routes/employee.js:21 | a selected record keeps the row's id; its fields are exactly the selected columns the row has, with their stored values |
| Queries.Listing | routes/employee.js:20-22 | every listed record is a stored row below the id bound, projected, and ids are strictly descending |
| Queries.ListingComplete | routes/employee.js:20-22 | every stored row below the bound is listed |
| Queries.ListingIsListing | routes/employee.js:20-22 | with every id below the bound, the listing has one record per row, covers every row, and is strictly descending by id |
| Queries.InsertListedFirst | routes/employee.js:48-51 | a row inserted under an id above every existing one is listed first, before the unchanged old listing |
| Queries.Newest | routes/admin.js:39-54 | the top list has length min(count, 5). It is strictly descending, projected to its columns, and every row left out has a smaller id than every row shown |
| Queries.PrefixIsNewest | routes/admin.js:39-41 | the first k records of the full descending listing are the newest k rows |
| Admin.Dashboard | routes/admin.js:26-77 | it renders exactly when none of the ten queries fails, and then no table changes. Each count is the number of rows in its table, and each top list is the newest-5 of its table with its fixed projection. A failure gives 500 `Dashboard error: ` with the first error and nothing rendered |
| Admin.NewestHeadsTop | routes/admin.js:39-41 | the newest row of a non-empty table heads its top list |
| Admin.Database.Route | routes/admin.js:13-90 | the admin gate runs first: not logged in means a redirect to `/login` and nothing changes. The dashboard leaves every table unchanged. An entity route mounted at lines 86-90 is served by its router, whose own gate passes again, and the four other tables are unchanged. An unmatched path falls through to the application |
| Admin.Serve | routes/employee.js:17-108 | each of the six routes reaches its handler. The three read-only ones leave the table as it was, and the three writes make the `Created`, `Updated` and `Deleted` transitions |
| Auth.Select | routes/auth.js:33-36 | the rows are the users with that username, each as often as it occurs in the table, and the first row is the earliest match in table order |
| Auth.Authenticate | routes/auth.js:25-95 | a store error in either statement gives that error. Otherwise: no user matching the username gives not-found. A password not strictly equal to the first match's gives wrong-password. Success happens exactly when neither holds, with that row's id, username and name |
| Auth.LoginResponse | routes/auth.js:40-95 | success redirects to `/admin/dashboard`. Every failure renders `login` with its own text: `Invalid username or password - User not found`, `... - Wrong password`, or `Database error: ` plus the message |
| Auth.DebugUsers | routes/auth.js:6-13 | ungated: every user's username, password and name, in table order, or `{error}` on failure |
| Sessions.Session.Login | routes/auth.js:76-86 | only success writes the session: `loggedIn` and `user` from the matched row. Every failure leaves the session as it was |
| Sessions.Session.Logout | app.js:77-88 | when destroying succeeds, the session is fresh, the cookie is cleared and the answer redirects to `/login`. When it fails, the session and cookie stay and the answer redirects to `/admin/dashboard` |
| App.Home | app.js:50-59 | always a redirect: to `/admin/dashboard` exactly when logged in, otherwise to `/login` |
| App.LoginScreen | app.js:62-74 | logged in: redirect to the dashboard. Otherwise it renders `login` with no error |
| App.NotFound | app.js:91-94 | a 404 rendering the view `404` with the title `Page Not Found` |
| App.Handle | app.js:46-94 | one request, per kind. Only the login and logout handlers touch the session, and only the admin router touches the tables. The auth router answers without the gate. The gate keeps every table unchanged. An entity route changes at most its own table, and an unmatched admin path, past the gate, reaches the 404 fallback with every table unchanged |
| App.LogoutThenAdmin | app.js:77-88 | after a successful logout, the next request under `/admin` redirects to `/login` and changes no table |

The session cookie, `Sessions.SessionCookie`, is named `session_cookie_name`. Its lifetime is 1000·60·60·24 ms, and it is httpOnly (app.js:21-28).

## Left out

- The MySQL engine and the connection pool (config/db.js is not part of this model). Connection limits, queueing and credentials are not modelled. Each statement's success or failure, and its error message, is a parameter of the handler.
- Asynchronous execution, and many requests at once. Each handler is one atomic step, so the dashboard's ten queries see one consistent snapshot, which the real store does not guarantee.
- EJS rendering, static files and JSON encoding. A rendered page is just the view name and its data.
- Session persistence in the session store, and the wall-clock expiry of the cookie. Only `loggedIn` and `user` are kept, and the store's failure to destroy a session is a parameter.
- Console logging, the debug logging middleware, server start-up, dotenv and middleware registration.
- The browser script under public/js, which holds no server logic.
- URL parsing and path matching. Requests arrive already routed, with the `:id` parameter already a natural number. A non-numeric id, which MySQL would coerce, is not modelled.
- MySQL's type coercion of form text into numeric and date columns: stored values are the submitted text.
- Request bodies are url-encoded text forms with one text value per field. JSON bodies (`express.json()`), repeated fields that parse to arrays and bracketed fields that parse to objects are not modelled. So these cases are not captured: a repeated `available=on` storing 0, a numeric JSON password failing the strict comparison, and a JSON `null` binding as SQL NULL.
- Auth.Select: the contract states which rows are returned, how often each occurs and which comes first. It does not state the relative order of the later matches, which no handler uses.
- The rejection of an `undefined` bind parameter by the driver (a field missing from the body) is not a separate case. It appears only through the store-error parameter.
- Auth.Authenticate: usernames are compared exactly, without the column collation's case or trailing-space rules.
- Crud.Table.Create: a failed insert never consumes an id, and ids are handed out from 1 in sequence. Neither the auto-increment gaps a real store can leave nor a configured start value is modelled.
- Crud.NewRow: the value of a store-filled column (`created_at`) is a parameter `now`, not a clock reading.
- The `admin_users` table is read-only here: no handler in the modelled code writes it.
