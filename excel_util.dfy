/**
 * ExcelUtil: reading a window of rows from one sheet of a workbook, the sheet
 * chosen by 1-based index or by name. The workbook reader is replaced by the
 * sheets it would deliver: each sheet a name and its rows, each row its cells'
 * values as text (None for a null value), so that FieldCount is the row's length.
 */
module ExcelUtil {
  import opened Outcomes
  import opened Text
  import opened Collections
  import opened Numbers

  /** One row as the reader delivers it: `value?.ToString()` for each of its FieldCount cells. */
  type ReaderRow = seq<Option<string>>

  /** One result set of the reader: the sheet's name and its rows in order. */
  datatype Sheet = Sheet(name: string, rows: seq<ReaderRow>)

  /** What the reader stands on when the workbook has no sheet at all: no name and no rows. */
  const NoSheet := Sheet("", [])

  /** The sheet the reader stands on after `pos` successful NextResult calls. */
  function Current(sheets: seq<Sheet>, pos: nat): Sheet {
    if pos < |sheets| then sheets[pos] else NoSheet
  }

  // ------------------------------------------------------------ the window

  /** string.IsNullOrEmpty on a cell value. */
  predicate NullOrEmpty(v: Option<string>) {
    v.None? || v.value == ""
  }

  /** A cell as it is stored: trimmed when `trimCells`, a null kept as null. */
  function CellValue(v: Option<string>, trimCells: bool): (r: Option<string>)
    ensures r.None? <==> v.None?
    ensures !trimCells ==> r == v
    ensures trimCells && v.Some? ==> IsTrimmed(r.value) && (r.value == "" <==> IsBlank(v.value))
  {
    if trimCells && v.Some? then Some(Trim(v.value)) else v
  }

  /**
   * The cells a row contributes: those from column `startColumn` (1-based) to
   * its last field, in column order; none when it has fewer fields.
   */
  function TakenRow(row: ReaderRow, startColumn: nat, trimCells: bool): (r: seq<Option<string>>)
    requires startColumn >= 1
    ensures |row| < startColumn ==> r == []
    ensures |row| >= startColumn ==> |r| == |row| - startColumn + 1
    ensures forall c :: 0 <= c < |r| ==> r[c] == CellValue(row[startColumn - 1 + c], trimCells)
  {
    if |row| < startColumn then []
    else seq(|row| - startColumn + 1, c requires 0 <= c < |row| - startColumn + 1 => CellValue(row[startColumn - 1 + c], trimCells))
  }

  /** A row that ends the reading under stopAtEmptyRow: no usable column, or only null or empty cells. */
  predicate IsEmptyRow(row: ReaderRow, startColumn: nat, trimCells: bool)
    requires startColumn >= 1
  {
    |row| < startColumn ||
    forall c :: startColumn - 1 <= c < |row| ==> NullOrEmpty(CellValue(row[c], trimCells))
  }

  /** The test IsEmptyRow for fixed options. */
  function EmptyRowTest(startColumn: nat, trimCells: bool): ReaderRow -> bool
    requires startColumn >= 1
  {
    (row: ReaderRow) => IsEmptyRow(row, startColumn, trimCells)
  }

  /** The position of the first empty row, or the number of rows when none is empty. */
  function FirstEmpty(rows: seq<ReaderRow>, startColumn: nat, trimCells: bool): (r: nat)
    requires startColumn >= 1
    ensures r <= |rows|
    ensures forall k :: 0 <= k < r ==> !IsEmptyRow(rows[k], startColumn, trimCells)
    ensures r < |rows| ==> IsEmptyRow(rows[r], startColumn, trimCells)
  {
    var test := EmptyRowTest(startColumn, trimCells);
    match FirstMatch(rows, test)
    case Some(k) => k
    case None => |rows|
  }

  /** A start row or column below 1 counts as 1. */
  function AtLeastOne(n: int): (r: nat)
    ensures r >= 1 && (n >= 1 ==> r == n)
  {
    if n < 1 then 1 else n
  }

  /**
   * The row number below which rows are skipped: the start row, or the one
   * after it when skipHeader, computed in unchecked Int32 arithmetic.
   */
  function EffectiveStartRow(startRow: nat, skipHeader: bool): int {
    if skipHeader then Int32Wrap(startRow + 1) else startRow
  }

  /**
   * The 1-based number of the first row that can be taken: the start row, or
   * the one after it when skipHeader. For a start row of Int32.MaxValue the
   * sum wraps to Int32.MinValue, below every row number, so no row is skipped.
   */
  function FirstRow(startRow: int, skipHeader: bool): (r: nat)
    ensures r >= 1
    ensures !skipHeader ==> r == AtLeastOne(startRow)
    ensures skipHeader && AtLeastOne(startRow) < Int32Max ==> r == AtLeastOne(startRow) + 1
    ensures skipHeader && AtLeastOne(startRow) == Int32Max ==> r == 1
  {
    var e := EffectiveStartRow(AtLeastOne(startRow), skipHeader);
    if e < 1 then 1 else e
  }

  /** With skipHeader, a start row of Int32.MaxValue skips nothing: every row of the sheet can be taken. */
  lemma SkipHeaderAtInt32Max(rows: seq<ReaderRow>)
    ensures Candidates(rows, Int32Max, true) == rows
  {
  }

  /** The rows that can be taken, in order: every row from FirstRow on. */
  function Candidates(rows: seq<ReaderRow>, startRow: int, skipHeader: bool): (r: seq<ReaderRow>)
    ensures FirstRow(startRow, skipHeader) - 1 <= |rows| ==> r == rows[FirstRow(startRow, skipHeader) - 1..]
    ensures FirstRow(startRow, skipHeader) - 1 > |rows| ==> r == []
  {
    var first := FirstRow(startRow, skipHeader);
    if first - 1 <= |rows| then rows[first - 1..] else []
  }

  /** maxRows as a count: a negative limit takes no row at all. */
  function Limit(maxRows: int): nat {
    if maxRows < 0 then 0 else maxRows
  }

  /** How many candidate rows are taken: up to the first empty one under stopAtEmptyRow, and at most maxRows. */
  function TakenCount(cands: seq<ReaderRow>, startColumn: nat, trimCells: bool, stopAtEmptyRow: bool,
                      maxRows: Option<int>): (n: nat)
    requires startColumn >= 1
    ensures n <= |cands|
    ensures maxRows.Some? ==> n <= Limit(maxRows.value)
    ensures stopAtEmptyRow ==> forall k :: 0 <= k < n ==> !IsEmptyRow(cands[k], startColumn, trimCells)
  {
    var m := if stopAtEmptyRow then FirstEmpty(cands, startColumn, trimCells) else |cands|;
    if maxRows.Some? && Limit(maxRows.value) < m then Limit(maxRows.value) else m
  }

  /**
   * ReadSheet's result for the rows of one sheet: row i is built from
   * candidate row i alone (so skipped rows are not counted), there are never
   * more rows than maxRows allows, under stopAtEmptyRow no taken row is
   * empty, and reading ends before the last candidate only at the limit or at
   * an empty row, which is not taken.
   */
  function SheetWindow(rows: seq<ReaderRow>, startRow: int, startColumn: int, skipHeader: bool, trimCells: bool,
                       stopAtEmptyRow: bool, maxRows: Option<int>): (r: seq<seq<Option<string>>>)
    ensures var cands := Candidates(rows, startRow, skipHeader);
            |r| <= |cands| &&
            forall i :: 0 <= i < |r| ==> r[i] == TakenRow(cands[i], AtLeastOne(startColumn), trimCells)
    ensures maxRows.Some? ==> |r| <= Limit(maxRows.value)
    ensures var cands := Candidates(rows, startRow, skipHeader);
            stopAtEmptyRow ==> forall i :: 0 <= i < |r| ==> !IsEmptyRow(cands[i], AtLeastOne(startColumn), trimCells)
    ensures var cands := Candidates(rows, startRow, skipHeader);
            |r| < |cands| && (maxRows.None? || |r| < Limit(maxRows.value)) ==>
              stopAtEmptyRow && IsEmptyRow(cands[|r|], AtLeastOne(startColumn), trimCells)
  {
    var cands := Candidates(rows, startRow, skipHeader);
    var sc := AtLeastOne(startColumn);
    var n := TakenCount(cands, sc, trimCells, stopAtEmptyRow, maxRows);
    seq(n, i requires 0 <= i < n => TakenRow(cands[i], sc, trimCells))
  }

  /**
   * A count of taken rows that ends at the last candidate, at the limit or at
   * an empty row, with no empty row before it, is the count ReadSheet takes.
   */
  lemma TakenCountExact(cands: seq<ReaderRow>, startColumn: nat, trimCells: bool, stopAtEmptyRow: bool,
                        maxRows: Option<int>, k: nat)
    requires startColumn >= 1 && k <= |cands|
    requires stopAtEmptyRow ==> forall i :: 0 <= i < k ==> !IsEmptyRow(cands[i], startColumn, trimCells)
    requires maxRows.Some? ==> k <= Limit(maxRows.value)
    requires k == |cands| || (maxRows.Some? && k >= maxRows.value) ||
             (stopAtEmptyRow && IsEmptyRow(cands[k], startColumn, trimCells))
    ensures k == TakenCount(cands, startColumn, trimCells, stopAtEmptyRow, maxRows)
  {
    if stopAtEmptyRow {
      var first := FirstEmpty(cands, startColumn, trimCells);
      assert first >= k;
    }
  }

  /** The cell loop of ReadSheet over a row with at least `startColumn` fields. */
  method ReadCells(record: ReaderRow, startColumn: nat, trimCells: bool) returns (row: seq<Option<string>>, entireRowEmpty: bool)
    requires 1 <= startColumn <= |record|
    ensures row == TakenRow(record, startColumn, trimCells)
    ensures entireRowEmpty <==> IsEmptyRow(record, startColumn, trimCells)
  {
    row := [];
    entireRowEmpty := true;
    for c := startColumn - 1 to |record|
      invariant |row| == c - (startColumn - 1)
      invariant forall k :: 0 <= k < |row| ==> row[k] == CellValue(record[startColumn - 1 + k], trimCells)
      invariant entireRowEmpty <==> forall k :: startColumn - 1 <= k < c ==> NullOrEmpty(CellValue(record[k], trimCells))
    {
      var val := record[c];
      if trimCells && val.Some? {
        val := Some(Trim(val.value));
      }
      if !NullOrEmpty(val) {
        entireRowEmpty := false;
      }
      row := row + [val];
    }
  }

  /**
   * The row loop of ReadSheet, for start bounds already raised to 1: it takes
   * `TakenCount` of the candidate rows, each as `TakenRow`.
   */
  method ReadRows(sheet: seq<ReaderRow>, sr: nat, sc: nat, skipHeader: bool, trimCells: bool,
                  stopAtEmptyRow: bool, maxRows: Option<int>) returns (rows: seq<seq<Option<string>>>)
    requires sr >= 1 && sc >= 1
    ensures |rows| == TakenCount(Candidates(sheet, sr, skipHeader), sc, trimCells, stopAtEmptyRow, maxRows)
    ensures forall i :: 0 <= i < |rows| ==> rows[i] == TakenRow(Candidates(sheet, sr, skipHeader)[i], sc, trimCells)
  {
    ghost var cands := Candidates(sheet, sr, skipHeader);
    ghost var skipped := FirstRow(sr, skipHeader) - 1;
    rows := [];
    var currentRowIndex := 0;
    var rowsTaken := 0;
    ghost var counted := false;
    while currentRowIndex < |sheet|
      invariant currentRowIndex <= |sheet|
      invariant rowsTaken == |rows| == if currentRowIndex > skipped then currentRowIndex - skipped else 0
      invariant forall i :: 0 <= i < |rows| ==> rows[i] == TakenRow(cands[i], sc, trimCells)
      invariant stopAtEmptyRow ==> forall i :: 0 <= i < |rows| ==> !IsEmptyRow(cands[i], sc, trimCells)
      invariant maxRows.Some? ==> |rows| <= Limit(maxRows.value)
      invariant !counted
    {
      var record := sheet[currentRowIndex];
      currentRowIndex := currentRowIndex + 1;
      var effectiveStartRow := if skipHeader then Int32Wrap(sr + 1) else sr;
      if currentRowIndex < effectiveStartRow {
        continue;
      }
      assert cands[rowsTaken] == record;
      if maxRows.Some? && rowsTaken >= maxRows.value {
        TakenCountExact(cands, sc, trimCells, stopAtEmptyRow, maxRows, rowsTaken);
        counted := true;
        break;
      }
      var fieldCount := |record|;
      if fieldCount < sc {
        if stopAtEmptyRow {
          TakenCountExact(cands, sc, trimCells, stopAtEmptyRow, maxRows, rowsTaken);
          counted := true;
          break;
        }
        rows := rows + [[]];
        rowsTaken := rowsTaken + 1;
        continue;
      }
      var row, entireRowEmpty := ReadCells(record, sc, trimCells);
      if stopAtEmptyRow && entireRowEmpty {
        TakenCountExact(cands, sc, trimCells, stopAtEmptyRow, maxRows, rowsTaken);
        counted := true;
        break;
      }
      rows := rows + [row];
      rowsTaken := rowsTaken + 1;
    }
    if !counted {
      TakenCountExact(cands, sc, trimCells, stopAtEmptyRow, maxRows, rowsTaken);
    }
  }

  /** ReadSheet: start bounds below 1 are raised to 1, then the rows are read. */
  method ReadSheet(sheet: seq<ReaderRow>, startRow: int, startColumn: int, skipHeader: bool, trimCells: bool,
                   stopAtEmptyRow: bool, maxRows: Option<int>) returns (rows: seq<seq<Option<string>>>)
    ensures rows == SheetWindow(sheet, startRow, startColumn, skipHeader, trimCells, stopAtEmptyRow, maxRows)
  {
    var sr := startRow;
    var sc := startColumn;
    if sr < 1 {
      sr := 1;
    }
    if sc < 1 {
      sc := 1;
    }
    assert Candidates(sheet, sr, skipHeader) == Candidates(sheet, startRow, skipHeader);
    rows := ReadRows(sheet, sr, sc, skipHeader, trimCells, stopAtEmptyRow, maxRows);
  }

  // ------------------------------------------------------------ sheet selection

  /**
   * The do-while over the reader's result sets looking for the 1-based
   * `sheetIndex`: the first result set is visited even when the workbook
   * reports none, so index 1 is always found.
   */
  method FindByIndex(sheets: seq<Sheet>, sheetIndex: int) returns (found: Option<nat>)
    requires sheetIndex >= 1
    ensures sheetIndex == 1 || sheetIndex <= |sheets| ==> found == Some(sheetIndex - 1)
    ensures !(sheetIndex == 1 || sheetIndex <= |sheets|) ==> found == None
  {
    var currentSheetIndex := 1;
    var pos := 0;
    while true
      invariant currentSheetIndex == pos + 1 <= sheetIndex
      invariant pos == 0 || pos < |sheets|
      decreases |sheets| - pos
    {
      if currentSheetIndex == sheetIndex {
        return Some(pos);
      }
      currentSheetIndex := currentSheetIndex + 1;
      if pos + 1 < |sheets| {
        pos := pos + 1;
      } else {
        break;
      }
    }
    return None;
  }

  /**
   * ReadExcelToStringArray by 1-based sheet index. `workbook` is None when the
   * file cannot be opened; an index past the last sheet is an ArgumentException
   * without a parameter name.
   */
  method ReadByIndex(excelPath: string, workbook: Option<seq<Sheet>>, sheetIndex: int, startRow: int, startColumn: int,
                     skipHeader: bool, trimCells: bool, stopAtEmptyRow: bool, maxRows: Option<int>)
      returns (result: Result<seq<seq<Option<string>>>>)
    ensures excelPath == "" ==> result == Err(Argument("excelPath"))
    ensures excelPath != "" && sheetIndex < 1 ==> result == Err(ArgumentOutOfRange("sheetIndex"))
    ensures excelPath != "" && sheetIndex >= 1 && workbook.None? ==> result == Err(FileNotFound(excelPath))
    ensures excelPath != "" && sheetIndex >= 1 && workbook.Some? ==>
              if sheetIndex == 1 || sheetIndex <= |workbook.value| then
                result == Ok(SheetWindow(Current(workbook.value, sheetIndex - 1).rows, startRow, startColumn,
                                         skipHeader, trimCells, stopAtEmptyRow, maxRows))
              else result == Err(Argument(""))
  {
    if excelPath == "" {
      return Err(Argument("excelPath"));
    }
    if sheetIndex < 1 {
      return Err(ArgumentOutOfRange("sheetIndex"));
    }
    if workbook.None? {
      return Err(FileNotFound(excelPath));
    }
    var found := FindByIndex(workbook.value, sheetIndex);
    if found.None? {
      return Err(Argument(""));
    }
    var sheet := Current(workbook.value, found.value);
    assert sheet == Current(workbook.value, sheetIndex - 1);
    var rows := ReadSheet(sheet.rows, startRow, startColumn, skipHeader, trimCells, stopAtEmptyRow, maxRows);
    return Ok(rows);
  }

  /** The test that the sheet is called `name`, ignoring case. */
  function NamedAs(name: string): Sheet -> bool {
    (sheet: Sheet) => EqualsIgnoreCase(sheet.name, name)
  }

  /** The do-while over the reader's result sets looking for a sheet called `sheetName`, ignoring case. */
  method FindByName(sheets: seq<Sheet>, sheetName: string) returns (found: Option<nat>)
    requires !IsBlank(sheetName)
    ensures found == FirstMatch(sheets, NamedAs(sheetName))
  {
    var pos := 0;
    while true
      invariant pos == 0 || pos < |sheets|
      invariant forall k :: 0 <= k < pos ==> !NamedAs(sheetName)(sheets[k])
      decreases |sheets| - pos
    {
      if EqualsIgnoreCase(Current(sheets, pos).name, sheetName) {
        return Some(pos);
      }
      if pos + 1 < |sheets| {
        pos := pos + 1;
      } else {
        break;
      }
    }
    return None;
  }

  /**
   * ReadExcelToStringArray by sheet name: the first sheet whose name matches
   * ignoring case is read; none matching is an ArgumentException without a
   * parameter name.
   */
  method ReadByName(excelPath: string, workbook: Option<seq<Sheet>>, sheetName: string, startRow: int, startColumn: int,
                    skipHeader: bool, trimCells: bool, stopAtEmptyRow: bool, maxRows: Option<int>)
      returns (result: Result<seq<seq<Option<string>>>>)
    ensures excelPath == "" ==> result == Err(Argument("excelPath"))
    ensures excelPath != "" && IsBlank(sheetName) ==> result == Err(Argument("sheetName"))
    ensures excelPath != "" && !IsBlank(sheetName) && workbook.None? ==> result == Err(FileNotFound(excelPath))
    ensures excelPath != "" && !IsBlank(sheetName) && workbook.Some? ==>
              match FirstMatch(workbook.value, NamedAs(sheetName))
              case None => result == Err(Argument(""))
              case Some(k) => result == Ok(SheetWindow(workbook.value[k].rows, startRow, startColumn,
                                                       skipHeader, trimCells, stopAtEmptyRow, maxRows))
  {
    if excelPath == "" {
      return Err(Argument("excelPath"));
    }
    if IsBlank(sheetName) {
      return Err(Argument("sheetName"));
    }
    if workbook.None? {
      return Err(FileNotFound(excelPath));
    }
    var found := FindByName(workbook.value, sheetName);
    if found.None? {
      return Err(Argument(""));
    }
    var rows := ReadSheet(workbook.value[found.value].rows, startRow, startColumn, skipHeader, trimCells,
                          stopAtEmptyRow, maxRows);
    return Ok(rows);
  }
}
