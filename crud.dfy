/** The entity router shared by employees, rooms, drivers, customers and departments: a table of rows
    keyed by the id the store assigns, and the six gated handlers over it. */
module Crud {
  import opened Values
  import opened Http
  import opened Schemas
  import opened Queries
  import opened Sessions

  /** `available === 'on' ? 1 : 0`: a checked checkbox submits the text "on"; anything else,
      including an absent field, is stored as 0. */
  function CheckboxFlag(v: Value): (flag: int)
    ensures flag == 0 || flag == 1
    ensures flag == 1 <==> v == Text("on")
  {
    if v == Text("on") then 1 else 0
  }

  /** The value the handler binds for column `c`. */
  function Bind(schema: Schema, form: Form, c: string): (v: Value)
    ensures c in schema.booleans ==> v == Number(CheckboxFlag(Field(form, c)))
    ensures c !in schema.booleans ==> v == Field(form, c)
  {
    if c in schema.booleans then Number(CheckboxFlag(Field(form, c))) else Field(form, c)
  }

  /** What a stored row looks like: exactly the table's columns, checkbox columns holding 0 or 1. */
  ghost predicate Conforms(schema: Schema, row: Row)
  {
    && row.Keys == Columns(schema)
    && forall c :: c in schema.booleans && c in row ==> row[c] == Number(0) || row[c] == Number(1)
  }

  /** The row an INSERT stores: the submitted editable fields and, for the columns the router never
      writes, the value the store fills in itself (`now`). */
  function NewRow(schema: Schema, form: Form, now: Value): (row: Row)
    ensures row.Keys == Columns(schema)
    ensures forall c :: c in schema.editable ==> row[c] == Bind(schema, form, c)
    ensures forall c :: c in schema.generated && c !in schema.editable ==> row[c] == now
    ensures WellFormed(schema) ==> Conforms(schema, row)
  {
    (map c | c in schema.generated :: now) + (map c | c in schema.editable :: Bind(schema, form, c))
  }

  /** The row after `UPDATE ... SET <editable fields> WHERE id = ?`: the editable columns take the
      submitted values and every other column, `created_at` among them, keeps its value. */
  function Overwrite(schema: Schema, row: Row, form: Form): (row': Row)
    ensures row'.Keys == row.Keys
    ensures forall c :: c in row && c in schema.editable ==> row'[c] == Bind(schema, form, c)
    ensures forall c :: c in row && c !in schema.editable ==> row'[c] == row[c]
    ensures WellFormed(schema) && Conforms(schema, row) ==> Conforms(schema, row')
  {
    map c | c in row :: if c in schema.editable then Bind(schema, form, c) else row[c]
  }

  /** A snapshot of a table: its rows and the next id the store will assign. */
  datatype TableState = TableState(rows: map<nat, Row>, nextId: nat)

  ghost predicate Bounded(t: TableState)
  {
    forall id :: id in t.rows ==> id < t.nextId
  }

  /** POST `basePath`: the transition from `before` to `after` and the response. */
  ghost predicate Created(schema: Schema, before: TableState, after: TableState, session: SessionState,
                          form: Form, now: Value, err: Option<string>, r: Response)
  {
    if !Authenticated(session) then after == before && r == Redirect(LoginPath)
    else if err.Some? then after == before && r == Send(500, schema.messages.create + err.value)
    else
      && before.nextId !in before.rows
      && after == TableState(before.rows[before.nextId := NewRow(schema, form, now)], before.nextId + 1)
      && r == Redirect(schema.basePath)
  }

  /** POST `basePath/edit/:id`; a missing id is a silent no-op that still redirects. */
  ghost predicate Updated(schema: Schema, before: TableState, after: TableState, session: SessionState,
                          id: nat, form: Form, err: Option<string>, r: Response)
  {
    if !Authenticated(session) then after == before && r == Redirect(LoginPath)
    else if err.Some? then after == before && r == Send(500, schema.messages.update + err.value)
    else
      && after.nextId == before.nextId
      && after.rows == (if id in before.rows then before.rows[id := Overwrite(schema, before.rows[id], form)]
                        else before.rows)
      && r == Redirect(schema.basePath)
  }

  /** POST `basePath/delete/:id`; redirects whether or not the row existed. */
  ghost predicate Deleted(schema: Schema, before: TableState, after: TableState, session: SessionState,
                          id: nat, err: Option<string>, r: Response)
  {
    if !Authenticated(session) then after == before && r == Redirect(LoginPath)
    else if err.Some? then after == before && r == Send(500, schema.messages.delete + err.value)
    else
      && after == TableState(before.rows - {id}, before.nextId)
      && r == Redirect(schema.basePath)
  }

  /** GET `basePath`: every row, projected to the list columns, newest first. */
  function ListResponse(schema: Schema, t: TableState, session: SessionState, err: Option<string>): (r: Response)
    requires Bounded(t)
    ensures !Authenticated(session) ==> r == Redirect(LoginPath)
    ensures Authenticated(session) && err.Some? ==> r == Send(500, schema.messages.list + err.value)
    ensures r.Render? <==> Authenticated(session) && err.None?
    ensures r.Render? ==>
              && r.code == 200 && r.view == schema.listView
              && r.data.ListData?
              && r.data == ListData(schema.listTitle, session.user, schema.listKey, r.data.records)
              && IsListing(r.data.records, t.rows, schema.listColumns)
  {
    match Gate(session)
    case Some(stop) => stop
    case None =>
      if err.Some? then Send(500, schema.messages.list + err.value)
      else
        ListingIsListing(t.rows, t.nextId, schema.listColumns);
        Render(200, schema.listView,
               ListData(schema.listTitle, session.user, schema.listKey, Listing(t.rows, t.nextId, schema.listColumns)))
  }

  /** GET `basePath/add`: the empty form; no statement is issued. */
  function AddFormResponse(schema: Schema, session: SessionState): (r: Response)
    ensures !Authenticated(session) ==> r == Redirect(LoginPath)
    ensures Authenticated(session) ==>
              r == Render(200, schema.formView, FormData(schema.addTitle, session.user, schema.formKey, None, "add"))
  {
    match Gate(session)
    case Some(stop) => stop
    case None => Render(200, schema.formView, FormData(schema.addTitle, session.user, schema.formKey, None, "add"))
  }

  /** GET `basePath/edit/:id`: the stored row in the form, or 404 when no row has that id. */
  function EditFormResponse(schema: Schema, t: TableState, session: SessionState, id: nat, err: Option<string>): (r: Response)
    ensures !Authenticated(session) ==> r == Redirect(LoginPath)
    ensures Authenticated(session) && err.Some? ==> r == Send(500, schema.messages.fetch + err.value)
    ensures Authenticated(session) && err.None? && id !in t.rows ==> r == Send(404, schema.messages.notFound)
    ensures r.Render? <==> Authenticated(session) && err.None? && id in t.rows
    ensures r.Render? ==>
              r == Render(200, schema.formView,
                          FormData(schema.editTitle, session.user, schema.formKey, Some(Record(id, t.rows[id])), "edit"))
  {
    match Gate(session)
    case Some(stop) => stop
    case None =>
      if err.Some? then Send(500, schema.messages.fetch + err.value)
      else if id !in t.rows then Send(404, schema.messages.notFound)
      else Render(200, schema.formView,
                  FormData(schema.editTitle, session.user, schema.formKey, Some(Record(id, t.rows[id])), "edit"))
  }

  /** Creating a row and then listing shows the new row first, projected, before every older row. */
  lemma CreateThenList(schema: Schema, before: TableState, after: TableState, session: SessionState,
                       form: Form, now: Value, r: Response)
    requires Bounded(before)
    requires Created(schema, before, after, session, form, now, None, r) && Authenticated(session)
    ensures Bounded(after)
    ensures Listing(after.rows, after.nextId, schema.listColumns) ==
            [Project(before.nextId, NewRow(schema, form, now), schema.listColumns)] +
            Listing(before.rows, before.nextId, schema.listColumns)
  {
    InsertListedFirst(before.rows, before.nextId, NewRow(schema, form, now), schema.listColumns);
  }

  /** Deleting a row leaves a listing of the other rows in which it no longer appears. */
  lemma DeleteThenList(schema: Schema, before: TableState, after: TableState, session: SessionState,
                       id: nat, r: Response)
    requires Bounded(before)
    requires Deleted(schema, before, after, session, id, None, r) && Authenticated(session)
    ensures IsListing(Listing(after.rows, after.nextId, schema.listColumns), before.rows - {id}, schema.listColumns)
    ensures forall i :: 0 <= i < |Listing(after.rows, after.nextId, schema.listColumns)| ==>
              Listing(after.rows, after.nextId, schema.listColumns)[i].id != id
  {
    ListingIsListing(after.rows, after.nextId, schema.listColumns);
  }

  /** After a create, the edit form of the new id shows the row just written. */
  lemma CreateThenEdit(schema: Schema, before: TableState, after: TableState, session: SessionState,
                       form: Form, now: Value, r: Response)
    requires Authenticated(session) && Created(schema, before, after, session, form, now, None, r)
    ensures EditFormResponse(schema, after, session, before.nextId, None) ==
              Render(200, schema.formView, FormData(schema.editTitle, session.user, schema.formKey,
                                                    Some(Record(before.nextId, NewRow(schema, form, now))), "edit"))
  {
  }

  /** After an update of an existing row, its edit form shows the overwritten row; for a missing id
      the edit form is still a 404. */
  lemma UpdateThenEdit(schema: Schema, before: TableState, after: TableState, session: SessionState,
                       id: nat, form: Form, r: Response)
    requires Authenticated(session) && Updated(schema, before, after, session, id, form, None, r)
    ensures id in before.rows ==>
              EditFormResponse(schema, after, session, id, None) ==
              Render(200, schema.formView, FormData(schema.editTitle, session.user, schema.formKey,
                                                    Some(Record(id, Overwrite(schema, before.rows[id], form))), "edit"))
    ensures id !in before.rows ==> EditFormResponse(schema, after, session, id, None) == Send(404, schema.messages.notFound)
  {
  }

  /** One entity table and its router. */
  class Table {
    const schema: Schema
    var rows: map<nat, Row>
    var nextId: nat

    ghost predicate Valid()
      reads this
    {
      && WellFormed(schema)
      && 1 <= nextId
      && forall id :: id in rows ==> 1 <= id < nextId && Conforms(schema, rows[id])
    }

    function State(): (t: TableState)
      reads this
      ensures Valid() ==> Bounded(t)
    {
      TableState(rows, nextId)
    }

    /** An empty table; the store's ids start at 1. */
    constructor (schema: Schema)
      requires WellFormed(schema)
      ensures Valid() && this.schema == schema && rows == map[] && nextId == 1
    {
      this.schema := schema;
      rows, nextId := map[], 1;
    }

    /** POST `basePath`: one new row under the next id. */
    method Create(session: SessionState, form: Form, now: Value, err: Option<string>) returns (r: Response)
      requires Valid()
      modifies this
      ensures Valid()
      ensures Created(schema, old(State()), State(), session, form, now, err, r)
    {
      if Gate(session).Some? {
        return Redirect(LoginPath);
      }
      if err.Some? {
        return Send(500, schema.messages.create + err.value);
      }
      rows := rows[nextId := NewRow(schema, form, now)];
      nextId := nextId + 1;
      r := Redirect(schema.basePath);
    }

    /** POST `basePath/edit/:id`: overwrite the editable fields of that row, if there is one. */
    method Update(session: SessionState, id: nat, form: Form, err: Option<string>) returns (r: Response)
      requires Valid()
      modifies this
      ensures Valid()
      ensures Updated(schema, old(State()), State(), session, id, form, err, r)
    {
      if Gate(session).Some? {
        return Redirect(LoginPath);
      }
      if err.Some? {
        return Send(500, schema.messages.update + err.value);
      }
      if id in rows {
        rows := rows[id := Overwrite(schema, rows[id], form)];
      }
      r := Redirect(schema.basePath);
    }

    /** POST `basePath/delete/:id`. */
    method Delete(session: SessionState, id: nat, err: Option<string>) returns (r: Response)
      requires Valid()
      modifies this
      ensures Valid()
      ensures Deleted(schema, old(State()), State(), session, id, err, r)
    {
      if Gate(session).Some? {
        return Redirect(LoginPath);
      }
      if err.Some? {
        return Send(500, schema.messages.delete + err.value);
      }
      rows := rows - {id};
      r := Redirect(schema.basePath);
    }
  }
}
