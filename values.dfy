/** Values that flow between a request, the SQL statements a handler issues and the rows the store holds. */
module Values {

  datatype Option<T> = None | Some(value: T)

  /** A value bound into a statement or held in a column. Form fields arrive as text, a field that was
      not submitted destructures to `undefined`, and the driver checkbox is stored as a number. */
  datatype Value = Undefined | Text(s: string) | Number(n: int)

  /** A url-encoded request body: field name to submitted text. */
  type Form = map<string, string>

  /** A stored row without its id: column name to value. */
  type Row = map<string, Value>

  /** What `const { f } = req.body` yields for field `f`. */
  function Field(form: Form, name: string): (v: Value)
    ensures v.Text? <==> name in form
    ensures name in form ==> v == Text(form[name])
    ensures name !in form ==> v == Undefined
  {
    if name in form then Text(form[name]) else Undefined
  }

  /** The error of the first failing statement in a sequence of awaited statements, where entry `i`
      is `Some(message)` when statement `i` raised an error. Later statements never run. */
  function FirstError(outcomes: seq<Option<string>>): (r: Option<string>)
    ensures r.None? <==> forall i :: 0 <= i < |outcomes| ==> outcomes[i].None?
    ensures r.Some? ==> exists i :: 0 <= i < |outcomes| && outcomes[i] == r &&
                          forall j :: 0 <= j < i ==> outcomes[j].None?
  {
    if |outcomes| == 0 then None
    else if outcomes[0].Some? then outcomes[0]
    else
      var rest := FirstError(outcomes[1..]);
      assert forall i :: 0 <= i < |outcomes| - 1 ==> outcomes[1..][i] == outcomes[i + 1];
      rest
  }

  /** The error that ends a handler issuing `n` statements in order; outcomes beyond the recorded
      ones succeed. */
  function StoreError(outcomes: seq<Option<string>>, n: nat): (r: Option<string>)
    ensures r.None? <==> forall i :: 0 <= i < n && i < |outcomes| ==> outcomes[i].None?
    ensures r.Some? ==> exists i :: 0 <= i < n && i < |outcomes| && outcomes[i] == r &&
                          forall j :: 0 <= j < i ==> outcomes[j].None?
  {
    var issued := if |outcomes| <= n then outcomes else outcomes[..n];
    assert forall i :: 0 <= i < |issued| ==> issued[i] == outcomes[i];
    FirstError(issued)
  }
}
