/**
 * The table catalog shown beside the query box: `get_table_fullnames`, which
 * turns the rows of the catalog query into "schema.table" strings, and
 * `get_default_tables`, which decides what the page shows when that query
 * comes back empty.
 */
module Catalog {
  import opened Values
  import opened QueryRunner

  /** A row dictionary carrying both catalog columns. */
  predicate HasNames(row: Record)
  {
    "schemaname" in row && "tablename" in row
  }

  /** `f"{row['schemaname']}.{row['tablename']}"` */
  function FullName(row: Record): string
    requires HasNames(row)
  {
    Str(row["schemaname"]) + "." + Str(row["tablename"])
  }

  /** The full names of the rows that carry both columns, in row order. */
  function Fullnames(rows: seq<Record>): (names: seq<string>)
    ensures |names| <= |rows|
  {
    if rows == [] then []
    else (if HasNames(rows[0]) then [FullName(rows[0])] else []) + Fullnames(rows[1..])
  }

  /** The full names of a concatenation are the concatenated full names. */
  lemma {:induction false} FullnamesConcat(a: seq<Record>, b: seq<Record>)
    ensures Fullnames(a + b) == Fullnames(a) + Fullnames(b)
  {
    if a == [] {
      assert a + b == b;
    } else {
      assert (a + b)[0] == a[0];
      assert (a + b)[1..] == a[1..] + b;
      FullnamesConcat(a[1..], b);
    }
  }

  /** One row contributes its full name when it has both columns, and nothing otherwise. */
  lemma FullnamesOne(row: Record)
    ensures HasNames(row) ==> Fullnames([row]) == [FullName(row)]
    ensures !HasNames(row) ==> Fullnames([row]) == []
  {
  }

  /** The loop of `get_table_fullnames`. */
  method TableFullnames(rows: seq<Record>) returns (fullnames: seq<string>)
    ensures fullnames == Fullnames(rows)
  {
    fullnames := [];
    var i := 0;
    while i < |rows|
      invariant 0 <= i <= |rows|
      invariant fullnames == Fullnames(rows[..i])
    {
      var row := rows[i];
      FullnamesConcat(rows[..i], [row]);
      assert rows[..i + 1] == rows[..i] + [row];
      if HasNames(row) {
        fullnames := fullnames + [FullName(row)];
      }
      i := i + 1;
    }
    assert rows[..i] == rows;
  }

  /** When every row carries both columns, there is one full name per row, in order. */
  lemma {:induction false} AllNamed(rows: seq<Record>)
    requires forall i :: 0 <= i < |rows| ==> HasNames(rows[i])
    ensures |Fullnames(rows)| == |rows|
    ensures forall i :: 0 <= i < |rows| ==> Fullnames(rows)[i] == FullName(rows[i])
  {
    if rows != [] {
      AllNamed(rows[1..]);
    }
  }

  /** Error and message records have neither column, so they contribute nothing. */
  lemma ErrorAndMessageContributeNothing(text: string)
    ensures Fullnames([ErrorRecord(text)]) == []
    ensures Fullnames([MessageRecord(text)]) == []
  {
  }

  /** A run that fails to connect, or whose catalog has no tables, lists no tables:
      the error record and the "nothing useful" record carry neither column. */
  lemma NoTablesListed(query: string, driver: Driver)
    requires Answers(query, driver)
    requires driver.connectError.Some?
          || (&& driver.connectError.None? && driver.commitError.None?
              && (forall j :: 0 <= j <= |Statements(query)| ==> !driver.replies[j].Raises?)
              && Statements(query) != []
              && var last := driver.replies[|Statements(query)|];
                 last.ResultSet? && last.cols != [] && last.rows == [])
    ensures Fullnames(RunQueryResult(query, driver)) == []
  {
    if driver.connectError.None? {
      NothingUseful(query, driver);
    }
  }

  /** The catalog query's rows, zipped with its two columns, give back
      "schema.table" for every row, in row order. */
  lemma CatalogRows(rows: seq<seq<Value>>)
    requires forall i :: 0 <= i < |rows| ==> |rows[i]| >= 2
    ensures var names := Fullnames(RowsToRecords(["schemaname", "tablename"], rows));
      && |names| == |rows|
      && forall i :: 0 <= i < |rows| ==> names[i] == Str(rows[i][0]) + "." + Str(rows[i][1])
  {
    var cols := ["schemaname", "tablename"];
    var records := RowsToRecords(cols, rows);
    forall i | 0 <= i < |rows|
      ensures HasNames(records[i]) && FullName(records[i]) == Str(rows[i][0]) + "." + Str(rows[i][1])
    {
      ZipDictAt(cols, rows[i], 0);
      ZipDictAt(cols, rows[i], 1);
    }
    AllNamed(records);
  }

  /** What `get_default_tables` hands to the page: the JSON text of a message
      object or of the result list (the serialisation itself is not modelled). */
  datatype TablesJson = JsonMessage(message: string) | JsonList(records: seq<Record>)

  const NO_TABLES := "Nessuna tabella trovata nel database."

  /** `get_default_tables`' policy: the message for an empty list, the list otherwise. */
  function DefaultTables(result: seq<Record>): (json: TablesJson)
    ensures json.JsonMessage? <==> result == []
    ensures json.JsonMessage? ==> json.message == NO_TABLES
    ensures json.JsonList? ==> json.records == result
  {
    if result == [] then JsonMessage(NO_TABLES) else JsonList(result)
  }

  /** `run_query` never returns an empty list, so the "no tables" message is never
      produced: an empty catalog shows the "nothing useful" message record instead. */
  lemma NoTablesMessageUnreachable(query: string, driver: Driver)
    requires Answers(query, driver)
    ensures DefaultTables(RunQueryResult(query, driver)).JsonList?
  {
  }
}
