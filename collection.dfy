/**
 * A document collection as the services use it: a sequence of rows in
 * insertion order, each row a generated id and a document. `findOne`
 * returns the first row in that order that matches the filter.
 */
module Collection {
  import opened Wrappers

  datatype Row<D> = Row(id: nat, doc: D)

  /** Every id is below the next id to hand out and no two rows share an id. */
  predicate IdsValid<D>(rows: seq<Row<D>>, nextId: nat) {
    && (forall i :: 0 <= i < |rows| ==> rows[i].id < nextId)
    && (forall i, j :: 0 <= i < j < |rows| ==> rows[i].id != rows[j].id)
  }

  /** `findOne(filter)`: the index of the first row whose document matches `q`. */
  function FindFirst<D, Q>(rows: seq<Row<D>>, q: Q, matches: (D, Q) -> bool): (r: Option<nat>)
    ensures r.Some? ==> r.value < |rows| && matches(rows[r.value].doc, q)
    ensures r.Some? ==> forall j :: 0 <= j < r.value ==> !matches(rows[j].doc, q)
    ensures r.None? ==> forall j :: 0 <= j < |rows| ==> !matches(rows[j].doc, q)
  {
    if rows == [] then None
    else if matches(rows[0].doc, q) then Some(0)
    else
      match FindFirst(rows[1..], q, matches)
      case None => None
      case Some(i) => Some(i + 1)
  }

  /** `findById(id)`: the index of the first row with that id. */
  function IndexOfId<D>(rows: seq<Row<D>>, id: nat): (r: Option<nat>)
    ensures r.Some? ==> r.value < |rows| && rows[r.value].id == id
    ensures r.Some? ==> forall j :: 0 <= j < r.value ==> rows[j].id != id
    ensures r.None? ==> forall j :: 0 <= j < |rows| ==> rows[j].id != id
  {
    if rows == [] then None
    else if rows[0].id == id then Some(0)
    else
      match IndexOfId(rows[1..], id)
      case None => None
      case Some(i) => Some(i + 1)
  }

  /** With distinct ids, `findById` finds the one row that carries the id. */
  lemma IndexOfIdAt<D>(rows: seq<Row<D>>, nextId: nat, i: nat)
    requires IdsValid(rows, nextId) && i < |rows|
    ensures IndexOfId(rows, rows[i].id) == Some(i)
  {
  }

  /** `deleteOne` on the row at index `i`: the rows before and after, in order. */
  function RemoveAt<D>(rows: seq<Row<D>>, i: nat): (r: seq<Row<D>>)
    requires i < |rows|
    ensures |r| == |rows| - 1
    ensures forall j :: 0 <= j < i ==> r[j] == rows[j]
    ensures forall j :: i <= j < |r| ==> r[j] == rows[j + 1]
  {
    rows[..i] + rows[i + 1..]
  }

  /** `findByIdAndDelete(id)`. */
  function DeleteById<D>(rows: seq<Row<D>>, id: nat): (r: seq<Row<D>>)
    ensures forall x :: x in r ==> x in rows
    ensures IndexOfId(rows, id).None? ==> r == rows
    ensures IndexOfId(rows, id).Some? ==> |r| == |rows| - 1
  {
    match IndexOfId(rows, id)
    case None => rows
    case Some(i) => RemoveAt(rows, i)
  }

  /** With distinct ids, deleting by id removes exactly the row with that id and keeps the others. */
  lemma DeleteByIdContents<D>(rows: seq<Row<D>>, nextId: nat, id: nat)
    requires IdsValid(rows, nextId)
    ensures IdsValid(DeleteById(rows, id), nextId)
    ensures forall x :: x in DeleteById(rows, id) <==> x in rows && x.id != id
  {
    var r := DeleteById(rows, id);
    match IndexOfId(rows, id)
    case None =>
    case Some(i) =>
      forall x | x in rows && x.id != id ensures x in r {
        var j :| 0 <= j < |rows| && rows[j] == x;
        if j < i { assert r[j] == x; } else { assert r[j - 1] == x; }
      }
  }

  /** `findByIdAndUpdate(id, doc)`: the row with that id gets the new document, in place. */
  function UpdateById<D>(rows: seq<Row<D>>, id: nat, doc: D): (r: seq<Row<D>>)
    ensures |r| == |rows|
    ensures forall j :: 0 <= j < |rows| ==> r[j].id == rows[j].id
    ensures IndexOfId(rows, id).None? ==> r == rows
    ensures IndexOfId(rows, id).Some? ==>
      var i := IndexOfId(rows, id).value;
      r[i].doc == doc && forall j :: 0 <= j < |rows| && j != i ==> r[j] == rows[j]
  {
    match IndexOfId(rows, id)
    case None => rows
    case Some(i) => rows[i := Row(id, doc)]
  }
}
