/** `SELECT ... ORDER BY id DESC [LIMIT k]` over a table held as a map from id to row. */
module Queries {
  import opened Values
  import opened Http

  ghost predicate Descending(ids: seq<nat>)
  {
    forall i, j :: 0 <= i < j < |ids| ==> ids[i] > ids[j]
  }

  /** A strictly descending sequence that enumerates a set has one entry per element. */
  lemma {:induction false} DescendingLength(ids: seq<nat>, keys: set<nat>)
    requires Descending(ids)
    requires forall i :: 0 <= i < |ids| ==> ids[i] in keys
    requires forall k :: k in keys ==> k in ids
    ensures |ids| == |keys|
  {
    if |ids| == 0 {
      assert keys == {};
    } else {
      var rest := keys - {ids[0]};
      forall k | k in rest ensures k in ids[1..] {
        var i :| 0 <= i < |ids| && ids[i] == k;
        assert i != 0;
        assert ids[1..][i - 1] == k;
      }
      DescendingLength(ids[1..], rest);
    }
  }

  /** A row as returned by a SELECT with the given column list (the id is always selected). */
  function Project(id: nat, row: Row, cols: set<string>): (rec: Record)
    ensures rec.id == id
    ensures rec.fields.Keys == cols * row.Keys
    ensures forall c :: c in rec.fields ==> rec.fields[c] == row[c]
  {
    Record(id, map c | c in cols && c in row :: row[c])
  }

  /** The rows with an id below `bound`, projected to `cols`, newest first: the store scans ids
      downwards from the last one it handed out. */
  function Listing(rows: map<nat, Row>, bound: nat, cols: set<string>): (recs: seq<Record>)
    ensures forall i :: 0 <= i < |recs| ==>
              recs[i].id < bound && recs[i].id in rows && recs[i] == Project(recs[i].id, rows[recs[i].id], cols)
    ensures forall i, j :: 0 <= i < j < |recs| ==> recs[i].id > recs[j].id
    decreases bound
  {
    if bound == 0 then []
    else if bound - 1 in rows then [Project(bound - 1, rows[bound - 1], cols)] + Listing(rows, bound - 1, cols)
    else Listing(rows, bound - 1, cols)
  }

  /** Every row below the bound is listed. */
  lemma {:induction false} ListingComplete(rows: map<nat, Row>, bound: nat, cols: set<string>, id: nat)
    requires id in rows && id < bound
    ensures exists i :: 0 <= i < |Listing(rows, bound, cols)| && Listing(rows, bound, cols)[i].id == id
    decreases bound
  {
    var recs := Listing(rows, bound, cols);
    if id == bound - 1 {
      assert recs[0].id == id;
    } else {
      ListingComplete(rows, bound - 1, cols, id);
      var rest := Listing(rows, bound - 1, cols);
      var i :| 0 <= i < |rest| && rest[i].id == id;
      if bound - 1 in rows {
        assert recs[i + 1] == rest[i];
      } else {
        assert recs[i] == rest[i];
      }
    }
  }

  /** `recs` is every row of `rows`, projected to `cols`, in strictly descending id order. */
  ghost predicate IsListing(recs: seq<Record>, rows: map<nat, Row>, cols: set<string>)
  {
    && |recs| == |rows|
    && (forall i, j :: 0 <= i < j < |recs| ==> recs[i].id > recs[j].id)
    && (forall i :: 0 <= i < |recs| ==> recs[i].id in rows && recs[i] == Project(recs[i].id, rows[recs[i].id], cols))
    && (forall id :: id in rows ==> exists i :: 0 <= i < |recs| && recs[i].id == id)
  }

  /** When every id is below the bound, `Listing` is `SELECT id, cols FROM t ORDER BY id DESC`. */
  lemma ListingIsListing(rows: map<nat, Row>, bound: nat, cols: set<string>)
    requires forall id :: id in rows ==> id < bound
    ensures IsListing(Listing(rows, bound, cols), rows, cols)
  {
    var recs := Listing(rows, bound, cols);
    forall id | id in rows ensures exists i :: 0 <= i < |recs| && recs[i].id == id {
      ListingComplete(rows, bound, cols, id);
    }
    var ids := seq(|recs|, i requires 0 <= i < |recs| => recs[i].id);
    forall k | k in rows.Keys ensures k in ids {
      var i :| 0 <= i < |recs| && recs[i].id == k;
      assert ids[i] == k;
    }
    DescendingLength(ids, rows.Keys);
  }

  /** The listing depends only on the rows below the bound. */
  lemma {:induction false} ListingAgree(a: map<nat, Row>, b: map<nat, Row>, bound: nat, cols: set<string>)
    requires forall k :: 0 <= k < bound ==> (k in a <==> k in b)
    requires forall k :: 0 <= k < bound && k in a ==> a[k] == b[k]
    ensures Listing(a, bound, cols) == Listing(b, bound, cols)
    decreases bound
  {
    if bound > 0 {
      ListingAgree(a, b, bound - 1, cols);
    }
  }

  /** A row inserted under an id above every existing one is listed first, before the old listing. */
  lemma InsertListedFirst(rows: map<nat, Row>, bound: nat, row: Row, cols: set<string>)
    requires forall id :: id in rows ==> id < bound
    ensures Listing(rows[bound := row], bound + 1, cols) == [Project(bound, row, cols)] + Listing(rows, bound, cols)
  {
    ListingAgree(rows[bound := row], rows, bound, cols);
  }

  function Min(a: nat, b: nat): nat
  {
    if a <= b then a else b
  }

  /** `top` is what `... ORDER BY id DESC LIMIT limit` returns: min(count, limit) rows, projected, newest
      first, and no row left out has a larger id than a row returned. */
  ghost predicate IsNewest(top: seq<Record>, rows: map<nat, Row>, cols: set<string>, limit: nat)
  {
    && |top| == Min(|rows|, limit)
    && (forall i, j :: 0 <= i < j < |top| ==> top[i].id > top[j].id)
    && (forall i :: 0 <= i < |top| ==> top[i].id in rows && top[i] == Project(top[i].id, rows[top[i].id], cols))
    && (forall id :: id in rows && (forall i :: 0 <= i < |top| ==> top[i].id != id) ==>
          forall i :: 0 <= i < |top| ==> top[i].id > id)
  }

  /** `SELECT id, cols FROM t ORDER BY id DESC LIMIT limit`. */
  function Newest(rows: map<nat, Row>, bound: nat, cols: set<string>, limit: nat): (top: seq<Record>)
    requires forall id :: id in rows ==> id < bound
    ensures IsNewest(top, rows, cols, limit)
  {
    var all := Listing(rows, bound, cols);
    ListingIsListing(rows, bound, cols);
    var top := all[..Min(|all|, limit)];
    PrefixIsNewest(all, top, rows, cols, limit);
    top
  }

  lemma PrefixIsNewest(all: seq<Record>, top: seq<Record>, rows: map<nat, Row>, cols: set<string>, limit: nat)
    requires IsListing(all, rows, cols)
    requires top == all[..Min(|all|, limit)]
    ensures IsNewest(top, rows, cols, limit)
  {
    forall id | id in rows && (forall i :: 0 <= i < |top| ==> top[i].id != id)
      ensures forall i :: 0 <= i < |top| ==> top[i].id > id
    {
      var j :| 0 <= j < |all| && all[j].id == id;
      assert forall i :: 0 <= i < |top| ==> top[i] == all[i];
    }
  }
}
