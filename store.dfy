/**
  The `ocr_results` table of app/lib/db.server.ts.

  Rows are (id, image_filename, markdown_text, created_at) with an
  `INTEGER PRIMARY KEY AUTOINCREMENT` id. The table is kept in rowid order,
  the order in which SQLite scans it, and `seqValue` is the table's entry in
  `sqlite_sequence`: the largest id ever issued, which deletions do not
  lower. The ghost set `issued` records every id handed out so far.
*/
module ResultStore {

  import opened Wrappers
  import opened Text

  datatype Row = Row(id: int, imageFilename: Str, markdownText: Str, createdAt: Str)

  /** Ids strictly increase along the sequence (rowid order). */
  predicate Ascending(rows: seq<Row>) {
    forall i, j :: 0 <= i < j < |rows| ==> rows[i].id < rows[j].id
  }

  predicate HasId(rows: seq<Row>, id: int) {
    exists k :: 0 <= k < |rows| && rows[k].id == id
  }

  // ---------------------------------------------------------------------------
  // Text comparison for ORDER BY (BINARY collation)

  /** `a` sorts before or equal to `b`: code unit by code unit, a proper prefix first. */
  predicate LexLe(a: Str, b: Str) {
    a == [] || (b != [] && (a[0] < b[0] || (a[0] == b[0] && LexLe(a[1..], b[1..]))))
  }

  lemma {:induction false} LexLeTotal(a: Str, b: Str)
    ensures LexLe(a, b) || LexLe(b, a)
  {
    if a != [] && b != [] && a[0] == b[0] {
      LexLeTotal(a[1..], b[1..]);
    }
  }

  lemma {:induction false} LexLeTransitive(a: Str, b: Str, c: Str)
    requires LexLe(a, b) && LexLe(b, c)
    ensures LexLe(a, c)
  {
    if a != [] && a[0] == b[0] && b[0] == c[0] {
      LexLeTransitive(a[1..], b[1..], c[1..]);
    }
  }

  /** Each row's created_at is at least the next one's: `ORDER BY created_at DESC`. */
  predicate SortedDesc(rows: seq<Row>) {
    forall i :: 0 <= i < |rows| - 1 ==> LexLe(rows[i + 1].createdAt, rows[i].createdAt)
  }

  function InsertDesc(x: Row, rows: seq<Row>): (r: seq<Row>)
    requires SortedDesc(rows)
    ensures SortedDesc(r) && multiset(r) == multiset(rows) + multiset{x}
    ensures r[0] == x || (rows != [] && r[0] == rows[0])
  {
    if rows == [] then [x]
    else if LexLe(rows[0].createdAt, x.createdAt) then
      SortedCons(x, rows);
      [x] + rows
    else
      LexLeTotal(rows[0].createdAt, x.createdAt);
      var tail := InsertDesc(x, rows[1..]);
      SortedCons(rows[0], tail);
      assert multiset(rows) == multiset{rows[0]} + multiset(rows[1..]) by {
        assert rows == [rows[0]] + rows[1..];
      }
      assert multiset([rows[0]] + tail) == multiset{rows[0]} + multiset(tail);
      [rows[0]] + tail
  }

  /** A row whose created_at is at least that of the first row can go in front. */
  lemma SortedCons(y: Row, rows: seq<Row>)
    requires SortedDesc(rows) && (rows != [] ==> LexLe(rows[0].createdAt, y.createdAt))
    ensures SortedDesc([y] + rows)
  {
    var r := [y] + rows;
    forall i | 0 <= i < |r| - 1 ensures LexLe(r[i + 1].createdAt, r[i].createdAt) {
      if i > 0 {
        assert r[i] == rows[i - 1] && r[i + 1] == rows[i];
      }
    }
  }

  /** The rows in `ORDER BY created_at DESC` order (an insertion sort). */
  function SortDesc(rows: seq<Row>): (r: seq<Row>)
    ensures SortedDesc(r) && multiset(r) == multiset(rows)
  {
    if rows == [] then []
    else
      assert rows == [rows[0]] + rows[1..];
      InsertDesc(rows[0], SortDesc(rows[1..]))
  }

  /** Sortedness of neighbours gives sortedness of every pair. */
  lemma {:induction false} SortedDescPairwise(rows: seq<Row>, i: nat, j: nat)
    requires SortedDesc(rows) && i <= j < |rows|
    ensures LexLe(rows[j].createdAt, rows[i].createdAt)
    decreases j - i
  {
    if i == j {
      LexLeReflexive(rows[i].createdAt);
    } else {
      SortedDescPairwise(rows, i + 1, j);
      LexLeTransitive(rows[j].createdAt, rows[i + 1].createdAt, rows[i].createdAt);
    }
  }

  lemma {:induction false} LexLeReflexive(a: Str)
    ensures LexLe(a, a)
  {
    if a != [] {
      LexLeReflexive(a[1..]);
    }
  }

  // ---------------------------------------------------------------------------
  // Queries and deletion on row sequences

  /** The first row, in rowid order, that has `id`. */
  function FindId(rows: seq<Row>, id: int): (r: Option<Row>)
    ensures r.Some? ==> r.value in rows && r.value.id == id
    ensures r.None? <==> !HasId(rows, id)
  {
    if rows == [] then None
    else if rows[0].id == id then Some(rows[0])
    else
      var r := FindId(rows[1..], id);
      assert forall k :: 0 < k < |rows| ==> rows[k] == rows[1..][k - 1];
      r
  }

  /** The first row, in rowid order, whose image_filename is `filename`. */
  function FindFilename(rows: seq<Row>, filename: Str): (r: Option<nat>)
    ensures r.Some? ==> r.value < |rows| && rows[r.value].imageFilename == filename
    ensures r.Some? ==> forall k :: 0 <= k < r.value ==> rows[k].imageFilename != filename
    ensures r.None? ==> forall k :: 0 <= k < |rows| ==> rows[k].imageFilename != filename
  {
    if rows == [] then None
    else if rows[0].imageFilename == filename then Some(0)
    else
      match FindFilename(rows[1..], filename)
      case None => None
      case Some(k) => Some(k + 1)
  }

  /** The rows that `DELETE … WHERE id = ?` keeps, in their order. */
  function RemoveId(rows: seq<Row>, id: int): (r: seq<Row>)
    ensures forall row :: row in r <==> row in rows && row.id != id
  {
    if rows == [] then []
    else
      assert forall row :: row in rows <==> row == rows[0] || row in rows[1..];
      if rows[0].id == id then RemoveId(rows[1..], id) else [rows[0]] + RemoveId(rows[1..], id)
  }

  /** Deleting keeps the remaining ids in ascending order. */
  lemma {:induction false} RemoveIdAscending(rows: seq<Row>, id: int)
    requires Ascending(rows)
    ensures Ascending(RemoveId(rows, id))
  {
    if rows != [] {
      var tail := RemoveId(rows[1..], id);
      RemoveIdAscending(rows[1..], id);
      forall k | 0 <= k < |tail| ensures rows[0].id < tail[k].id {
        assert tail[k] in rows[1..];
      }
      if rows[0].id != id {
        AscendingCons(rows[0], tail);
      }
    }
  }

  lemma AscendingCons(x: Row, rows: seq<Row>)
    requires Ascending(rows) && forall k :: 0 <= k < |rows| ==> x.id < rows[k].id
    ensures Ascending([x] + rows)
  {
    var r := [x] + rows;
    forall i, j | 0 <= i < j < |r| ensures r[i].id < r[j].id {
      assert r[j] == rows[j - 1];
      if i > 0 {
        assert r[i] == rows[i - 1];
      }
    }
  }

  // ---------------------------------------------------------------------------
  // The table

  class ResultTable {
    var rows: seq<Row>
    var seqValue: int
    ghost var issued: set<int>

    ghost predicate Valid()
      reads this
    {
      && 0 <= seqValue
      && Ascending(rows)
      && (forall k :: 0 <= k < |rows| ==> rows[k].id in issued)
      && (forall x :: x in issued ==> 1 <= x <= seqValue)
    }

    /** `CREATE TABLE IF NOT EXISTS ocr_results`, on a fresh database. */
    constructor ()
      ensures Valid() && rows == [] && seqValue == 0 && issued == {}
    {
      rows, seqValue, issued := [], 0, {};
    }

    /**
      The insert of `storeOCRResult`: the new id is one above the largest id
      ever issued, so it exceeds every earlier id, deleted or not.
    */
    method Insert(imageFilename: Str, markdown: Str, createdAt: Str) returns (id: int)
      requires Valid()
      modifies this
      ensures Valid()
      ensures id == old(seqValue) + 1 && forall x :: x in old(issued) ==> x < id
      ensures rows == old(rows) + [Row(id, imageFilename, markdown, createdAt)]
      ensures seqValue == id && issued == old(issued) + {id}
    {
      id := seqValue + 1;
      assert forall k :: 0 <= k < |rows| ==> rows[k].id < id;
      rows := rows + [Row(id, imageFilename, markdown, createdAt)];
      seqValue := id;
      issued := issued + {id};
    }

    /** `getAllOCRResults`: every row exactly once, newest created_at first. */
    function GetAll(): (r: seq<Row>)
      reads this
      ensures SortedDesc(r) && multiset(r) == multiset(rows)
    {
      SortDesc(rows)
    }

    /** `getOCRResultById`: the row with that id, or nothing. */
    function GetById(id: int): (r: Option<Row>)
      reads this
      ensures r.Some? ==> r.value in rows && r.value.id == id
      ensures r.None? <==> !HasId(rows, id)
    {
      FindId(rows, id)
    }

    /** `getOCRResultByFilename`: the first row in rowid order with that image filename, or nothing. */
    function GetByFilename(filename: Str): (r: Option<Row>)
      reads this
      ensures r.Some? ==> r.value in rows && r.value.imageFilename == filename
      ensures r.None? <==> forall row :: row in rows ==> row.imageFilename != filename
    {
      match FindFilename(rows, filename)
      case None => None
      case Some(k) => Some(rows[k])
    }

    /** `deleteOCRResult`: true iff a row with that id existed; no other row changes. */
    method Delete(id: int) returns (deleted: bool)
      requires Valid()
      modifies this
      ensures Valid()
      ensures deleted <==> HasId(old(rows), id)
      ensures rows == RemoveId(old(rows), id)
      ensures seqValue == old(seqValue) && issued == old(issued)
    {
      deleted := FindId(rows, id).Some?;
      RemoveIdAscending(rows, id);
      rows := RemoveId(rows, id);
    }
  }

  // ---------------------------------------------------------------------------
  // Properties

  /** With unique ids, the row found by id is the only row with that id. */
  lemma GetByIdUnique(rows: seq<Row>, id: int, row: Row)
    requires Ascending(rows) && row in rows && row.id == id
    ensures FindId(rows, id) == Some(row)
  {
    var found := FindId(rows, id);
    assert found.Some?;
    var i :| 0 <= i < |rows| && rows[i] == row;
    var j :| 0 <= j < |rows| && rows[j] == found.value;
    assert i == j;
  }

  /** After a delete no row has the id, and every other row is still there. */
  lemma DeleteRemovesExactly(rows: seq<Row>, id: int)
    ensures !HasId(RemoveId(rows, id), id)
    ensures forall row :: row in rows && row.id != id ==> row in RemoveId(rows, id)
    ensures |RemoveId(rows, id)| <= |rows|
  {
    var r := RemoveId(rows, id);
    forall k | 0 <= k < |r| ensures r[k].id != id {
      assert r[k] in r;
    }
    RemoveIdLength(rows, id);
  }

  lemma {:induction false} RemoveIdLength(rows: seq<Row>, id: int)
    ensures |RemoveId(rows, id)| <= |rows|
  {
    if rows != [] {
      RemoveIdLength(rows[1..], id);
    }
  }
}
