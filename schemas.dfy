/** The five entity routers as instances of one schema descriptor. */
module Schemas {

  /** The texts of a router's error responses: the prefixes put before the store's message, and the 404 text. */
  datatype Messages = Messages(list: string, create: string, fetch: string, update: string,
                               delete: string, notFound: string)

  /** One entity router: where it is mounted, its views and titles, which columns are submitted by the
      form (`editable`), which of those are checkboxes (`booleans`), which columns only the store fills
      in (`generated`), and the columns its list page selects besides `id`. */
  datatype Schema = Schema(
    table: string, basePath: string,
    listView: string, formView: string, listKey: string, formKey: string,
    listTitle: string, addTitle: string, editTitle: string,
    editable: set<string>, booleans: set<string>, generated: set<string>,
    listColumns: set<string>, messages: Messages)

  /** Every column a row of the table stores besides its id. */
  function Columns(s: Schema): set<string>
  {
    s.editable + s.generated
  }

  ghost predicate WellFormed(s: Schema)
  {
    && s.booleans <= s.editable
    && s.editable !! s.generated
    && s.listColumns <= Columns(s)
    && "id" !in Columns(s)
  }

  const EmployeeSchema := Schema(
    "employees", "/admin/employee",
    "employees", "employee-form", "employees", "employee",
    "Employees - Hotel Management System", "Add Employee - Hotel Management System",
    "Edit Employee - Hotel Management System",
    {"name", "position", "email", "phone", "salary", "hire_date"}, {}, {},
    {"name", "position", "email", "phone", "salary", "hire_date"},
    Messages("Error fetching employees: ", "Error creating employee: ", "Error fetching employee: ",
             "Error updating employee: ", "Error deleting employee: ", "Employee not found"))

  /** The list page selects five of the seven stored columns. */
  const CustomerSchema := Schema(
    "customers", "/admin/customer",
    "customers", "customer-form", "customers", "customer",
    "Customers - Hotel Management System", "Add Customer - Hotel Management System",
    "Edit Customer - Hotel Management System",
    {"name", "email", "phone", "address", "room_number", "check_in_date", "check_out_date"}, {}, {},
    {"name", "email", "phone", "address"},
    Messages("Error fetching customers: ", "Error adding customer: ", "Error fetching customer: ",
             "Error updating customer: ", "Error deleting customer: ", "Customer not found"))

  /** `available` is a checkbox, stored as 1 or 0. */
  const DriverSchema := Schema(
    "drivers", "/admin/driver",
    "drivers", "driver-form", "drivers", "driver",
    "Drivers - Hotel Management System", "Add Driver - Hotel Management System",
    "Edit Driver - Hotel Management System",
    {"name", "license_number", "phone", "vehicle_type", "available"}, {"available"}, {},
    {"name", "license_number", "phone", "vehicle_type", "available"},
    Messages("Error fetching drivers: ", "Error creating driver: ", "Error fetching driver: ",
             "Error updating driver: ", "Error deleting driver: ", "Driver not found"))

  /** `created_at` is never written by the router: the store fills it in on insert. The list view is
      named `department`, not `departments`. */
  const DepartmentSchema := Schema(
    "departments", "/admin/department",
    "department", "department-form", "departments", "department",
    "Departments - Hotel Management System", "Add Department - Hotel Management System",
    "Edit Department - Hotel Management System",
    {"name", "manager", "description"}, {}, {"created_at"},
    {"name", "manager", "description", "created_at"},
    Messages("Error fetching departments: ", "Error creating department: ", "Error fetching department: ",
             "Error updating department: ", "Error deleting department: ", "Department not found"))

  const RoomSchema := Schema(
    "rooms", "/admin/room",
    "rooms", "room-form", "rooms", "room",
    "Rooms - Hotel Management System", "Add Room - Hotel Management System",
    "Edit Room - Hotel Management System",
    {"room_number", "type", "status", "price", "floor", "capacity"}, {}, {},
    {"room_number", "type", "status", "price", "floor", "capacity"},
    Messages("Error fetching rooms: ", "Error creating room: ", "Error fetching room: ",
             "Error updating room: ", "Error deleting room: ", "Room not found"))
}
