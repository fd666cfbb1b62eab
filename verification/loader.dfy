/**
 * The loader: `crear_tabla` empties the `casos` table and `cargar_datos`
 * appends to it every data row of the CSV file that has exactly twelve fields.
 * The file is given as the rows its CSV reader yields, header first.
 */
module Loader {
  import opened Wrappers

  /** One CSV row: its fields, as text, inserted verbatim. */
  type Row = seq<string>

  /** The number of columns of the `casos` table. */
  const FieldCount := 12

  predicate WellFormed(row: Row)
  {
    |row| == FieldCount
  }

  /** The rows `cargar_datos` inserts, in file order: those with exactly twelve fields. */
  function KeptRows(rows: seq<Row>): (kept: seq<Row>)
    ensures |kept| <= |rows|
    ensures forall r :: r in kept ==> r in rows && WellFormed(r)
    ensures forall r :: r in rows && WellFormed(r) ==> r in kept
  {
    if rows == [] then []
    else (if WellFormed(rows[0]) then [rows[0]] else []) + KeptRows(rows[1..])
  }

  /** `sub` is `rows` with some rows removed and the rest in their original order. */
  predicate IsSubsequence(sub: seq<Row>, rows: seq<Row>)
  {
    if sub == [] then true
    else if rows == [] then false
    else if sub[0] == rows[0] then IsSubsequence(sub[1..], rows[1..])
    else IsSubsequence(sub, rows[1..])
  }

  /** Filtering a concatenation is concatenating the filtered parts. */
  lemma {:induction false} KeptRowsAppend(xs: seq<Row>, ys: seq<Row>)
    ensures KeptRows(xs + ys) == KeptRows(xs) + KeptRows(ys)
  {
    if xs == [] {
      assert xs + ys == ys;
    } else {
      assert (xs + ys)[1..] == xs[1..] + ys;
      KeptRowsAppend(xs[1..], ys);
    }
  }

  /** The kept rows keep their file order: they are a subsequence of the data rows. */
  lemma {:induction false} KeptRowsInOrder(rows: seq<Row>)
    ensures IsSubsequence(KeptRows(rows), rows)
  {
    if rows != [] {
      KeptRowsInOrder(rows[1..]);
      var rest := KeptRows(rows[1..]);
      if !WellFormed(rows[0]) {
        assert KeptRows(rows) == rest;
        assert rest != [] ==> rest[0] in rest && rest[0] != rows[0];
      } else {
        assert KeptRows(rows) == [rows[0]] + rest;
      }
    }
  }

  /** Every row is kept when every row has twelve fields: N such rows load as N rows. */
  lemma {:induction false} AllWellFormedKept(rows: seq<Row>)
    requires forall i :: 0 <= i < |rows| ==> WellFormed(rows[i])
    ensures KeptRows(rows) == rows
  {
    if rows != [] {
      AllWellFormedKept(rows[1..]);
    }
  }

  /** Rows with a wrong field count, wherever they stand, change neither the loaded rows nor their number. */
  lemma {:induction false} MalformedRowsIgnored(before: seq<Row>, bad: seq<Row>, after: seq<Row>)
    requires forall i :: 0 <= i < |bad| ==> !WellFormed(bad[i])
    ensures KeptRows(before + bad + after) == KeptRows(before + after)
  {
    KeptRowsAppend(before + bad, after);
    KeptRowsAppend(before, bad);
    KeptRowsAppend(before, after);
    NoneKept(bad);
    assert KeptRows(before + bad) == KeptRows(before);
  }

  lemma {:induction false} NoneKept(bad: seq<Row>)
    requires forall i :: 0 <= i < |bad| ==> !WellFormed(bad[i])
    ensures KeptRows(bad) == []
  {
    if bad != [] {
      NoneKept(bad[1..]);
    }
  }

  /** `next(lector)` on a file without even a header row raises StopIteration. */
  datatype LoadError = EmptyFile

  /** The `casos` table of the SQLite store, as the sequence of its rows in insertion order. */
  class CasesStore {
    var casos: seq<Row>

    /** `crear_tabla` on a fresh store. */
    constructor ()
      ensures casos == []
    {
      casos := [];
    }

    /** `crear_tabla`: DROP TABLE IF EXISTS, then CREATE TABLE: the table is empty again. */
    method CreateTable()
      modifies this
      ensures casos == []
    {
      casos := [];
    }

    /**
     * `cargar_datos`: skip the header, insert every row with exactly twelve
     * fields. The table is not emptied first, so the rows are appended to
     * what it already holds.
     */
    method LoadRows(file: seq<Row>) returns (r: Result<nat, LoadError>)
      modifies this
      ensures file == [] ==> r == Err(EmptyFile) && casos == old(casos)
      ensures file != [] ==> r == Ok(|KeptRows(file[1..])|) && casos == old(casos) + KeptRows(file[1..])
    {
      if file == [] {
        return Err(EmptyFile);
      }
      var i := 1;
      var inserted := 0;
      while i < |file|
        invariant 1 <= i <= |file|
        invariant casos == old(casos) + KeptRows(file[1..i])
        invariant inserted == |KeptRows(file[1..i])|
      {
        KeptRowsAppend(file[1..i], [file[i]]);
        assert file[1..i + 1] == file[1..i] + [file[i]];
        if WellFormed(file[i]) {
          casos := casos + [file[i]];
          inserted := inserted + 1;
        }
        i := i + 1;
      }
      assert file[1..i] == file[1..];
      return Ok(inserted);
    }
  }

  /** Creating the table and then loading a file leaves exactly its well-formed data rows, in order. */
  method CreateAndLoad(file: seq<Row>) returns (store: CasesStore, r: Result<nat, LoadError>)
    ensures fresh(store)
    ensures file != [] ==> store.casos == KeptRows(file[1..]) && r == Ok(|store.casos|)
    ensures file == [] ==> store.casos == [] && r == Err(EmptyFile)
  {
    store := new CasesStore();
    r := store.LoadRows(file);
  }

  /**
   * Loading the same file twice without `crear_tabla` in between: both loads
   * report the same number of inserted rows, and the table holds those rows twice.
   */
  method LoadTwice(file: seq<Row>) returns (store: CasesStore, first: Result<nat, LoadError>, second: Result<nat, LoadError>)
    ensures first == second
    ensures file != [] ==> store.casos == KeptRows(file[1..]) + KeptRows(file[1..])
    ensures file != [] ==> first.Ok? && |store.casos| == 2 * first.value
    ensures file == [] ==> store.casos == []
  {
    store, first := CreateAndLoad(file);
    second := store.LoadRows(file);
  }
}
