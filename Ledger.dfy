/**
 * The ledger store: one spreadsheet file per category, used as an append-only
 * log. A file is either missing, or holds the header row
 * `["Jumlah", "Deskripsi", "Waktu"]` followed by one row per recorded entry.
 */
module Ledger {
  import opened Dates

  /** One recorded amount, with its description and the second it was recorded. */
  datatype Entry = Entry(amount: real, description: string, time: Timestamp)

  /**
   * A sheet row. A data row's first cell holds the amount as a number, so it is
   * never the text `"Jumlah"`: the test `row[0] != "Jumlah"` holds exactly of
   * data rows.
   */
  datatype Row = HeaderRow | DataRow(entry: Entry)

  /** The shape every file the program writes has: missing and empty, or the header and then data rows only. */
  predicate ValidFile(present: bool, rows: seq<Row>) {
    (!present ==> rows == []) &&
    (present ==> |rows| >= 1 && rows[0] == HeaderRow && forall i :: 1 <= i < |rows| ==> rows[i].DataRow?)
  }

  /** The entries of the data rows, in file order: the header-skipping read. */
  function DataRows(rows: seq<Row>): seq<Entry> {
    if rows == [] then []
    else
      var last := rows[|rows| - 1];
      DataRows(rows[..|rows| - 1]) + (if last.DataRow? then [last.entry] else [])
  }

  /** Reading a file split in two reads the two parts one after the other. */
  lemma {:induction false} DataRowsAppend(a: seq<Row>, b: seq<Row>)
    ensures DataRows(a + b) == DataRows(a) + DataRows(b)
    decreases |b|
  {
    if b == [] {
      assert a + b == a;
    } else {
      assert (a + b)[..|a + b| - 1] == a + b[..|b| - 1];
      DataRowsAppend(a, b[..|b| - 1]);
    }
  }

  /** An entry is read exactly when its data row is in the file; header rows yield nothing. */
  lemma {:induction false} DataRowsMember(rows: seq<Row>, e: Entry)
    ensures e in DataRows(rows) <==> DataRow(e) in rows
  {
    if rows != [] {
      var init := rows[..|rows| - 1];
      assert rows == init + [rows[|rows| - 1]];
      DataRowsMember(init, e);
    }
  }

  /** In a file of the program's own shape, data row k is entry k: every row after the header is read. */
  lemma {:induction false} ValidFileEntries(present: bool, rows: seq<Row>)
    requires ValidFile(present, rows)
    ensures present ==> |DataRows(rows)| == |rows| - 1
    ensures present ==> forall k :: 0 <= k < |rows| - 1 ==> DataRows(rows)[k] == rows[k + 1].entry
    ensures !present ==> DataRows(rows) == []
    decreases |rows|
  {
    if present && |rows| > 1 {
      var init := rows[..|rows| - 1];
      assert ValidFile(true, init);
      ValidFileEntries(true, init);
    } else if present {
      assert rows == [HeaderRow];
    }
  }

  /**
   * The sheet after `save_to_excel`: a missing file is first created holding
   * the header row, then the entry's row is appended.
   */
  function SavedRows(present: bool, rows: seq<Row>, e: Entry): seq<Row> {
    (if present then rows else [HeaderRow]) + [DataRow(e)]
  }

  /**
   * Saving keeps the file's shape (the header stays row 0 and is never written
   * again), leaves every earlier row in place, and the entry reads back as the
   * last entry of the file.
   */
  lemma SaveReadsBack(present: bool, rows: seq<Row>, e: Entry)
    requires ValidFile(present, rows)
    ensures ValidFile(true, SavedRows(present, rows, e))
    ensures |SavedRows(present, rows, e)| == (if present then |rows| + 1 else 2)
    ensures present ==> SavedRows(present, rows, e)[..|rows|] == rows
    ensures DataRows(SavedRows(present, rows, e)) == DataRows(rows) + [e]
  {
    var prefix := if present then rows else [HeaderRow];
    DataRowsAppend(prefix, [DataRow(e)]);
    assert DataRows([DataRow(e)]) == [e];
    if !present {
      assert DataRows([HeaderRow]) == [];
    }
  }

  /** The file after saving each of `es` in turn. */
  function SaveAll(present: bool, rows: seq<Row>, es: seq<Entry>): seq<Row>
    decreases |es|
  {
    if es == [] then rows else SaveAll(true, SavedRows(present, rows, es[0]), es[1..])
  }

  /** Whatever is saved, in order, is what the header-skipping read returns after the earlier entries. */
  lemma {:induction false} SaveAllReadsBack(present: bool, rows: seq<Row>, es: seq<Entry>)
    requires ValidFile(present, rows)
    ensures ValidFile(present || es != [], SaveAll(present, rows, es))
    ensures DataRows(SaveAll(present, rows, es)) == DataRows(rows) + es
    decreases |es|
  {
    if es != [] {
      SaveReadsBack(present, rows, es[0]);
      SaveAllReadsBack(true, SavedRows(present, rows, es[0]), es[1..]);
      assert [es[0]] + es[1..] == es;
    }
  }

  /** One spreadsheet file: whether it exists on disk and the rows of its active sheet. */
  class LedgerFile {
    var present: bool
    var rows: seq<Row>

    ghost predicate Valid()
      reads this
    {
      ValidFile(present, rows)
    }

    constructor (present: bool, rows: seq<Row>)
      requires ValidFile(present, rows)
      ensures Valid()
      ensures this.present == present && this.rows == rows
    {
      this.present := present;
      this.rows := rows;
    }

    /** `save_to_excel`: create the file with its header when it is missing, then append the entry's row. */
    method Save(e: Entry)
      requires Valid()
      modifies this
      ensures Valid()
      ensures present
      ensures rows == SavedRows(old(present), old(rows), e)
      ensures DataRows(rows) == DataRows(old(rows)) + [e]
    {
      SaveReadsBack(present, rows, e);
      if !present {
        rows := [HeaderRow];
        present := true;
      }
      rows := rows + [DataRow(e)];
    }
  }
}
