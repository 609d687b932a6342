/** The two report writers of blueprint-summary.py (lines 137-165). Each
    file is modelled as the sequence of rows handed to the CSV writer. */
module Report {
  import opened Fetch

  /** The header of the data file (line 141). */
  const DataHeader: seq<string> := ["ID", "Name", "Space", "LMD", "Age in Days"]

  /** The header of the error file (line 155). */
  const ErrorHeader: seq<string> := ["ID"]

  /** The record field that the data file's column `heading` is meant to hold. */
  function Column(r: Record, heading: string): string
  {
    if heading == "ID" then r.id
    else if heading == "Name" then r.name
    else if heading == "Space" then r.space
    else if heading == "LMD" then r.lastModified
    else if heading == "Age in Days" then r.age
    else ""
  }

  /** `bp_record.values()` for an export record: its values in the order its
      keys were inserted at line 115, which is the order of the header's
      columns. */
  function DataRow(r: Record): (row: seq<string>)
    ensures |row| == |DataHeader|
    ensures forall i :: 0 <= i < |row| ==> row[i] == Column(r, DataHeader[i])
  {
    [r.id, r.name, r.space, r.lastModified, r.age]
  }

  /** `bp_record.values()` for an error record: its one value, under the
      error file's one column. */
  function ErrorRow(e: ErrorRecord): (row: seq<string>)
    ensures |row| == |ErrorHeader|
    ensures row[0] == e.id
  {
    [e.id]
  }

  /** The row-writing loop (lines 143-149, repeated at 157-163): the header
      is written once, just before the first record, and only if there is
      one; then one row per record in list order. */
  method WriteTable<T>(header: seq<string>, records: seq<T>, values: T -> seq<string>) returns (rows: seq<seq<string>>)
    ensures records == [] ==> rows == []
    ensures records != [] ==> |rows| == |records| + 1 && rows[0] == header
    ensures records != [] ==> forall i :: 0 <= i < |records| ==> rows[i + 1] == values(records[i])
  {
    rows := [];
    var rowCount := 0;
    var i := 0;
    while i < |records|
      invariant 0 <= i <= |records|
      invariant rowCount == if i == 0 then 0 else 1
      invariant i == 0 ==> rows == []
      invariant i > 0 ==> |rows| == i + 1 && rows[0] == header
      invariant i > 0 ==> forall j :: 0 <= j < i ==> rows[j + 1] == values(records[j])
    {
      if rowCount == 0 {
        rows := rows + [header];
        rowCount := rowCount + 1;
      }
      rows := rows + [values(records[i])];
      i := i + 1;
    }
  }

  /** `rows` is the data file written for `exported`: nothing when there is
      no export record, otherwise the header and then one data row per
      record in list order. */
  predicate DataFile(rows: seq<seq<string>>, exported: seq<Record>)
  {
    && (exported == [] ==> rows == [])
    && (exported != [] ==>
          |rows| == |exported| + 1 && rows[0] == DataHeader &&
          forall i :: 0 <= i < |exported| ==> rows[i + 1] == DataRow(exported[i]))
  }

  /** `rows` is the error file written for `errors`: nothing when there is
      no error record, otherwise the header and then one row per record in
      list order. */
  predicate ErrorFile(rows: seq<seq<string>>, errors: seq<ErrorRecord>)
  {
    && (errors == [] ==> rows == [])
    && (errors != [] ==>
          |rows| == |errors| + 1 && rows[0] == ErrorHeader &&
          forall i :: 0 <= i < |errors| ==> rows[i + 1] == ErrorRow(errors[i]))
  }

  /** The data file (lines 138-151): nothing when no blueprint was
      exported, otherwise the header and one row per export record. */
  method SaveData(exported: seq<Record>) returns (rows: seq<seq<string>>)
    ensures DataFile(rows, exported)
  {
    rows := WriteTable(DataHeader, exported, DataRow);
  }

  /** The error file (lines 154-165): nothing when there was no error,
      otherwise the header and one row per error record. */
  method SaveErrors(errors: seq<ErrorRecord>) returns (rows: seq<seq<string>>)
    ensures ErrorFile(rows, errors)
  {
    rows := WriteTable(ErrorHeader, errors, ErrorRow);
  }

  /** The IDs a written file lists: the first cell of every row after the
      header. */
  function IdColumn(rows: seq<seq<string>>): (ids: seq<string>)
    ensures |ids| == if rows == [] then 0 else |rows| - 1
  {
    if |rows| <= 1 then []
    else seq(|rows| - 1, i requires 0 <= i < |rows| - 1 => if rows[i + 1] == [] then "" else rows[i + 1][0])
  }

  /** The record rows of a written data file list the IDs of the export
      records, in order. */
  lemma DataFileIds(exported: seq<Record>, rows: seq<seq<string>>)
    requires DataFile(rows, exported)
    ensures IdColumn(rows) == ExportIds(exported)
  {
  }

  /** The record rows of a written error file list the IDs of the error
      records, in order. */
  lemma ErrorFileIds(errors: seq<ErrorRecord>, rows: seq<seq<string>>)
    requires ErrorFile(rows, errors)
    ensures IdColumn(rows) == ErrorIds(errors)
  {
  }
}
