/**
 * `get_existing_data(worksheet)` of image-processor.py: the snapshot of the
 * spreadsheet that the sync plans against.
 *
 * The worksheet reads are inputs: the header row (`row_values(1)`), whether
 * the header repair (`worksheet.update`) went through, and the value matrix
 * (`get_all_values()`); `None` stands for a read that raised.
 */
module SheetSnapshot {
  import opened Wrappers

  /** A gspread `Cell(row, col, value)`; rows and columns count from 1 and
      a value may be Python's `None`. */
  datatype Cell = Cell(row: int, col: int, value: Option<string>)

  /** The ten columns of the sheet, in order. */
  const RequiredHeaders: seq<string> :=
    ["Year", "Client", "Title", "Subtitle", "Detail", "Tags", "Preview URL", "Thumbnail", "File ID", "Status"]

  /** A `file_map` value: the header-keyed row values and `row_num`. */
  datatype RowData = RowData(fields: map<string, string>, rowNum: int)

  /** What `get_existing_data` returns: `file_map` and `new_to_empty_cells`. */
  datatype Snapshot = Snapshot(fileMap: map<string, RowData>, newCells: seq<Cell>)

  const Empty := Snapshot(map[], [])

  /** `header_dict.get(h)`: the dict comprehension over `enumerate(headers)`
      keeps the LAST index of a repeated header. */
  function HeaderIndex(headers: seq<string>, h: string): (r: Option<nat>)
    ensures r.Some? ==> r.value < |headers| && headers[r.value] == h
    ensures r.None? <==> h !in headers
    ensures r.Some? ==> forall j | r.value < j < |headers| :: headers[j] != h
  {
    if headers == [] then None
    else if headers[|headers| - 1] == h then Some(|headers| - 1)
    else
      assert headers == headers[..|headers| - 1] + [headers[|headers| - 1]];
      HeaderIndex(headers[..|headers| - 1], h)
  }

  /** The header row is repaired when it is short or lacks a required header. */
  predicate NeedsRepair(headers: seq<string>) {
    |headers| < |RequiredHeaders| || exists i | 0 <= i < |RequiredHeaders| :: RequiredHeaders[i] !in headers
  }

  /** `row_data` before `row_num` is set: each header maps to the cell under
      its last occurrence, or "" past the end of a short row. Setting
      `row_num` afterwards replaces a header of that name. */
  function RowFields(headers: seq<string>, row: seq<string>): map<string, string> {
    (map h | h in headers :: var i := HeaderIndex(headers, h).value; if i < |row| then row[i] else "")
      - {"row_num"}
  }

  /** One data row, numbered `rowNum`, with `fid` the File ID column and
      `status` the Status column if any. Rows too short to hold a File ID
      are skipped entirely. */
  function ScanRow(acc: Snapshot, headers: seq<string>, row: seq<string>, rowNum: int, fid: nat, status: Option<nat>): Snapshot {
    if |row| <= fid then acc
    else
      var cells := if status.Some? && status.value < |row| && row[status.value] == "New"
                   then acc.newCells + [Cell(rowNum, status.value + 1, Some(""))]
                   else acc.newCells;
      var files := if row[fid] != "" then acc.fileMap[row[fid] := RowData(RowFields(headers, row), rowNum)] else acc.fileMap;
      Snapshot(files, cells)
  }

  /** The loop over the data rows, the first of them being sheet row 2. */
  function Scan(headers: seq<string>, rows: seq<seq<string>>, fid: nat, status: Option<nat>): Snapshot
    decreases |rows|
  {
    if rows == [] then Empty
    else
      var n := |rows| - 1;
      ScanRow(Scan(headers, rows[..n], fid, status), headers, rows[n], n + 2, fid, status)
  }

  /** `get_existing_data` given the worksheet reads. Without a File ID
      header, the first data row is indexed with `None`, which raises. */
  function ExistingData(headers: Option<seq<string>>, repairOk: bool, allValues: Option<seq<seq<string>>>): Snapshot {
    if headers.None? || (NeedsRepair(headers.value) && !repairOk) then Empty
    else if allValues.None? || |allValues.value| <= 1 then Empty
    else match HeaderIndex(headers.value, "File ID")
      case None => Empty
      case Some(fid) => Scan(headers.value, allValues.value[1..], fid, HeaderIndex(headers.value, "Status"))
  }

  /** The row loop of `get_existing_data`, run over the data rows. */
  method ScanRows(headers: seq<string>, rows: seq<seq<string>>, fid: nat, status: Option<nat>)
    returns (fileMap: map<string, RowData>, newCells: seq<Cell>)
    ensures Snapshot(fileMap, newCells) == Scan(headers, rows, fid, status)
  {
    fileMap, newCells := map[], [];
    var i := 0;
    while i < |rows|
      invariant 0 <= i <= |rows|
      invariant Snapshot(fileMap, newCells) == Scan(headers, rows[..i], fid, status)
    {
      var row := rows[i];
      assert rows[..i + 1][..i] == rows[..i];
      if |row| > fid {
        var fileId := row[fid];
        if status.Some? && status.value < |row| && row[status.value] == "New" {
          newCells := newCells + [Cell(i + 2, status.value + 1, Some(""))];
        }
        if fileId != "" {
          fileMap := fileMap[fileId := RowData(RowFields(headers, row), i + 2)];
        }
      }
      i := i + 1;
    }
    assert rows[..i] == rows;
  }

  /** `get_existing_data(worksheet)`. */
  method GetExistingData(headers: Option<seq<string>>, repairOk: bool, allValues: Option<seq<seq<string>>>)
    returns (fileMap: map<string, RowData>, newCells: seq<Cell>)
    ensures Snapshot(fileMap, newCells) == ExistingData(headers, repairOk, allValues)
    ensures allValues.Some? && |allValues.value| <= 1 ==> fileMap == map[] && newCells == []
  {
    if headers.None? || (NeedsRepair(headers.value) && !repairOk) {
      return map[], [];
    }
    if allValues.None? || |allValues.value| <= 1 {
      return map[], [];
    }
    var fid := HeaderIndex(headers.value, "File ID");
    if fid.None? {
      return map[], [];
    }
    fileMap, newCells := ScanRows(headers.value, allValues.value[1..], fid.value, HeaderIndex(headers.value, "Status"));
  }

  // ---------------------------------------------------------------------
  // Properties of the snapshot
  // ---------------------------------------------------------------------

  /** The cell a data row contributes to `new_to_empty_cells`, if any: the
      row must hold a File ID column and its Status must be exactly "New". */
  predicate MarkedNew(row: seq<string>, fid: nat, status: Option<nat>) {
    |row| > fid && status.Some? && status.value < |row| && row[status.value] == "New"
  }

  /** The blanking cell a data row contributes, if any. */
  function NewCellOf(row: seq<string>, rowNum: int, fid: nat, status: Option<nat>): seq<Cell> {
    if MarkedNew(row, fid, status) then [Cell(rowNum, status.value + 1, Some(""))] else []
  }

  lemma NewCellsSnoc(headers: seq<string>, rows: seq<seq<string>>, fid: nat, status: Option<nat>)
    requires rows != []
    ensures Scan(headers, rows, fid, status).newCells
         == Scan(headers, rows[..|rows| - 1], fid, status).newCells + NewCellOf(rows[|rows| - 1], |rows| + 1, fid, status)
  {
  }

  /** Every collected cell blanks the Status column of a data row marked
      "New". */
  lemma {:induction false} NewCellsSound(headers: seq<string>, rows: seq<seq<string>>, fid: nat, status: Option<nat>)
    ensures forall c | c in Scan(headers, rows, fid, status).newCells ::
              status.Some? && c.col == status.value + 1 && c.value == Some("")
              && 2 <= c.row < |rows| + 2 && MarkedNew(rows[c.row - 2], fid, status)
    decreases |rows|
  {
    if rows != [] {
      var n := |rows| - 1;
      NewCellsSound(headers, rows[..n], fid, status);
      NewCellsSnoc(headers, rows, fid, status);
      var prev := Scan(headers, rows[..n], fid, status).newCells;
      forall c | c in Scan(headers, rows, fid, status).newCells
        ensures status.Some? && c.col == status.value + 1 && c.value == Some("")
                && 2 <= c.row < |rows| + 2 && MarkedNew(rows[c.row - 2], fid, status)
      {
        if c in prev {
          assert rows[..n][c.row - 2] == rows[c.row - 2];
        }
      }
    }
  }

  /** Data row `i` (sheet row `i + 2`) marked "New" yields the cell that
      blanks its Status column. */
  lemma {:induction false} NewCellsComplete(headers: seq<string>, rows: seq<seq<string>>, fid: nat, status: Option<nat>, i: nat)
    requires i < |rows| && MarkedNew(rows[i], fid, status)
    ensures Cell(i + 2, status.value + 1, Some("")) in Scan(headers, rows, fid, status).newCells
    decreases |rows|
  {
    var n := |rows| - 1;
    NewCellsSnoc(headers, rows, fid, status);
    if i < n {
      assert rows[..n][i] == rows[i];
      NewCellsComplete(headers, rows[..n], fid, status, i);
    }
  }

  /** Every key of `file_map` is a non-empty File ID read from some data row. */
  lemma {:induction false} FileMapKeys(headers: seq<string>, rows: seq<seq<string>>, fid: nat, status: Option<nat>, k: string)
    requires k in Scan(headers, rows, fid, status).fileMap
    ensures k != ""
    ensures exists i | 0 <= i < |rows| :: |rows[i]| > fid && rows[i][fid] == k
    decreases |rows|
  {
    var n := |rows| - 1;
    var prev := Scan(headers, rows[..n], fid, status);
    if |rows[n]| > fid && rows[n][fid] == k && k != "" {
    } else {
      assert k in prev.fileMap;
      FileMapKeys(headers, rows[..n], fid, status, k);
      var i :| 0 <= i < n && |rows[..n][i]| > fid && rows[..n][i][fid] == k;
      assert rows[..n][i] == rows[i];
    }
  }

  /** A File ID maps to the last data row that carries it: a later row
      overwrites an earlier one. */
  lemma {:induction false} FileMapLastWins(headers: seq<string>, rows: seq<seq<string>>, fid: nat, status: Option<nat>, i: nat)
    requires i < |rows| && |rows[i]| > fid && rows[i][fid] != ""
    requires forall j | i < j < |rows| :: !(|rows[j]| > fid && rows[j][fid] == rows[i][fid])
    ensures rows[i][fid] in Scan(headers, rows, fid, status).fileMap
    ensures Scan(headers, rows, fid, status).fileMap[rows[i][fid]] == RowData(RowFields(headers, rows[i]), i + 2)
    decreases |rows|
  {
    var n := |rows| - 1;
    if i < n {
      forall j | i < j < n
        ensures !(|rows[..n][j]| > fid && rows[..n][j][fid] == rows[..n][i][fid])
      {
        assert rows[..n][j] == rows[j];
      }
      assert rows[..n][i] == rows[i];
      FileMapLastWins(headers, rows[..n], fid, status, i);
    }
  }

  /** Without data rows, or when a read raises, the snapshot is empty. */
  lemma NoDataNoSnapshot(headers: Option<seq<string>>, repairOk: bool, allValues: Option<seq<seq<string>>>)
    requires headers.None? || allValues.None? || |allValues.value| <= 1
    ensures ExistingData(headers, repairOk, allValues) == Empty
  {
  }

  /** The fields of a stored row: each header other than `row_num` gives the
      value under its last occurrence, "" past the end of the row. */
  lemma RowFieldsValue(headers: seq<string>, row: seq<string>, i: nat)
    requires i < |headers| && headers[i] != "row_num"
    requires forall j | i < j < |headers| :: headers[j] != headers[i]
    ensures headers[i] in RowFields(headers, row)
    ensures RowFields(headers, row)[headers[i]] == if i < |row| then row[i] else ""
  {
    LastIndexIsHeaderIndex(headers, i);
  }

  lemma {:induction false} LastIndexIsHeaderIndex(headers: seq<string>, i: nat)
    requires i < |headers|
    requires forall j | i < j < |headers| :: headers[j] != headers[i]
    ensures HeaderIndex(headers, headers[i]) == Some(i)
    decreases |headers|
  {
    var n := |headers| - 1;
    if i < n {
      assert headers[..n][i] == headers[i];
      forall j | i < j < n ensures headers[..n][j] != headers[..n][i] {
        assert headers[..n][j] == headers[j];
      }
      LastIndexIsHeaderIndex(headers[..n], i);
    }
  }
}
