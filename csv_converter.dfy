/**
 * CsvConverter: quoting of CSV fields, the CSV import state machine with the
 * padding of its records to a rectangle, and the export of a worksheet range
 * to an array and to CSV text. The file system and the workbook reader are
 * replaced by values: the CSV file by its text (None when it does not exist),
 * the workbook by its worksheets, and the written file by the returned text.
 */
module CsvConverter {
  import opened Outcomes
  import opened Text
  import opened Collections
  import opened Grid

  // ------------------------------------------------------------ quoting

  /** A field is quoted when it holds a quote, a comma, a line feed or a carriage return. */
  predicate MustQuote(field: string) {
    '"' in field || ',' in field || '\n' in field || '\r' in field
  }

  /** EscapeCsv: null becomes "", and a field that must be quoted is wrapped in quotes with every quote doubled. */
  function EscapeCsv(field: Option<string>): (r: string)
    ensures field.None? ==> r == ""
    ensures field.Some? && !MustQuote(field.value) ==> r == field.value
    ensures field.Some? && MustQuote(field.value) ==> |r| >= 2 && r[0] == '"' && r[|r| - 1] == '"'
  {
    match field
    case None => ""
    case Some(f) => if MustQuote(f) then "\"" + ReplaceChar(f, '"', "\"\"") + "\"" else f
  }

  /** The escaped form of a cell text (never null on the export path). */
  function EscapeCell(text: string): string {
    EscapeCsv(Some(text))
  }

  // ------------------------------------------------------------ import

  /** The parser's variables: the committed rows, the current row, the field buffer and the quote flag. */
  datatype Scan = Scan(rows: seq<seq<string>>, current: seq<string>, field: string, inQuotes: bool)

  const Start := Scan([], [], "", false)

  /**
   * One turn of the read loop on a non-empty rest of the input: the new state
   * and the number of characters read (two for an escaped quote and for CRLF).
   */
  function Step(rest: string, s: Scan): (r: (Scan, nat))
    requires rest != []
    ensures 1 <= r.1 <= |rest|
  {
    var ch := rest[0];
    if s.inQuotes then
      if ch == '"' then
        if |rest| > 1 && rest[1] == '"' then (s.(field := s.field + ['"']), 2)
        else (s.(inQuotes := false), 1)
      else (s.(field := s.field + [ch]), 1)
    else if ch == '"' then (s.(inQuotes := true), 1)
    else if ch == ',' then (s.(current := s.current + [s.field], field := ""), 1)
    else if ch == '\r' || ch == '\n' then
      (s.(rows := s.rows + [s.current + [s.field]], current := [], field := ""),
       if ch == '\r' && |rest| > 1 && rest[1] == '\n' then 2 else 1)
    else (s.(field := s.field + [ch]), 1)
  }

  /**
   * End of input: an open quote is closed, and the pending record is committed
   * only when its buffer is non-empty or it already has fields.
   */
  function Flush(s: Scan): seq<seq<string>> {
    if |s.field| > 0 || |s.current| > 0 then s.rows + [s.current + [s.field]] else s.rows
  }

  /** The rows the loop ends with when it resumes in state `s` with `rest` unread. */
  function Run(rest: string, s: Scan): seq<seq<string>>
    decreases |rest|
  {
    if rest == [] then Flush(s)
    else
      var (t, n) := Step(rest, s);
      Run(rest[n..], t)
  }

  /** The records of a CSV text, before padding. */
  function Records(text: string): seq<seq<string>> {
    Run(text, Start)
  }

  /** Every record the parser commits has at least one field. */
  lemma {:induction false} RunRecordsNonEmpty(rest: string, s: Scan)
    requires forall k :: 0 <= k < |s.rows| ==> s.rows[k] != []
    ensures forall k :: 0 <= k < |Run(rest, s)| ==> Run(rest, s)[k] != []
    decreases |rest|
  {
    if rest != [] {
      var (t, n) := Step(rest, s);
      RunRecordsNonEmpty(rest[n..], t);
    }
  }

  lemma RecordsNonEmpty(text: string)
    ensures forall k :: 0 <= k < |Records(text)| ==> Records(text)[k] != []
  {
    RunRecordsNonEmpty(text, Start);
  }

  /** The loop of ImportFromCsv, reading `text` character by character. */
  method ReadRecords(text: string) returns (rows: seq<seq<string>>)
    ensures rows == Records(text)
  {
    rows := [];
    var currentRow: seq<string> := [];
    var field: string := "";
    var inQuotes := false;
    var i := 0;
    while true
      invariant i <= |text|
      invariant Run(text[i..], Scan(rows, currentRow, field, inQuotes)) == Records(text)
      decreases |text| - i
    {
      if i == |text| {
        if inQuotes {
          inQuotes := false;
        }
        if |field| > 0 || |currentRow| > 0 {
          currentRow := currentRow + [field];
          rows := rows + [currentRow];
        }
        break;
      }
      ghost var before := Scan(rows, currentRow, field, inQuotes);
      ghost var rest := text[i..];
      assert rest[0] == text[i];
      assert |rest| > 1 ==> rest[1] == text[i + 1];
      var ch := text[i];
      i := i + 1;
      if inQuotes {
        if ch == '"' {
          if i < |text| && text[i] == '"' {
            i := i + 1;
            field := field + ['"'];
          } else {
            inQuotes := false;
          }
        } else {
          field := field + [ch];
        }
      } else {
        if ch == '"' {
          inQuotes := true;
        } else if ch == ',' {
          currentRow := currentRow + [field];
          field := "";
        } else if ch == '\r' || ch == '\n' {
          if ch == '\r' && i < |text| && text[i] == '\n' {
            i := i + 1;
          }
          currentRow := currentRow + [field];
          field := "";
          rows := rows + [currentRow];
          currentRow := [];
        } else {
          field := field + [ch];
        }
      }
      assert Step(rest, before) == (Scan(rows, currentRow, field, inQuotes), i - |text| + |rest|);
      assert rest[i - |text| + |rest|..] == text[i..];
    }
  }

  /** The largest field count among the records, 0 when there are none. */
  function MaxFields(rows: seq<seq<string>>): (r: nat)
    ensures forall k :: 0 <= k < |rows| ==> |rows[k]| <= r
    ensures rows == [] ==> r == 0
    ensures rows != [] ==> exists k :: 0 <= k < |rows| && |rows[k]| == r
  {
    if rows == [] then 0
    else
      var m := MaxFields(rows[..|rows| - 1]);
      if |rows[|rows| - 1]| > m then |rows[|rows| - 1]| else m
  }

  /**
   * The imported array: one row per record and as many columns as the widest
   * record, short records padded with "", and 0×0 when there are no records
   * or no columns.
   */
  function Imported(rows: seq<seq<string>>): (g: Grid)
    ensures g.width == MaxFields(rows)
    ensures g.height == (if MaxFields(rows) == 0 then 0 else |rows|)
    ensures forall r, c :: 0 <= r < g.height && 0 <= c < g.width ==>
              g.cells[r][c] == Some(if c < |rows[r]| then rows[r][c] else "")
  {
    var w := MaxFields(rows);
    var h := if |rows| == 0 || w == 0 then 0 else |rows|;
    Table(h, w, seq(h, r requires 0 <= r < h => seq(w, c requires 0 <= c < w => Some(if c < |rows[r]| then rows[r][c] else ""))))
  }

  /** The array `a` holds the grid `g`, which has no null cells. */
  ghost predicate Holds(a: array2<string>, g: Grid)
    reads a
  {
    a.Length0 == g.height && a.Length1 == g.width &&
    forall r, c :: 0 <= r < g.height && 0 <= c < g.width ==> g.cells[r][c] == Some(a[r, c])
  }

  /** The loop that finds the widest record. */
  method CountColumns(rows: seq<seq<string>>) returns (colCount: nat)
    ensures colCount == MaxFields(rows)
  {
    colCount := 0;
    for i := 0 to |rows|
      invariant colCount == MaxFields(rows[..i])
    {
      assert rows[..i + 1][..i] == rows[..i];
      if |rows[i]| > colCount {
        colCount := |rows[i]|;
      }
    }
    assert rows[..|rows|] == rows;
  }

  /** The padding loops of ImportFromCsv. */
  method Pad(rows: seq<seq<string>>) returns (result: array2<string>)
    ensures fresh(result) && Holds(result, Imported(rows))
  {
    var rowCount := |rows|;
    var colCount := CountColumns(rows);
    if rowCount == 0 || colCount == 0 {
      result := new string[0, 0];
      return;
    }
    result := new string[rowCount, colCount];
    for r := 0 to rowCount
      invariant forall r', c :: 0 <= r' < r && 0 <= c < colCount ==>
                  result[r', c] == (if c < |rows[r']| then rows[r'][c] else "")
    {
      var record := rows[r];
      for c := 0 to colCount
        invariant forall r', c' :: 0 <= r' < r && 0 <= c' < colCount ==>
                    result[r', c'] == (if c' < |rows[r']| then rows[r'][c'] else "")
        invariant forall c' :: 0 <= c' < c ==> result[r, c'] == (if c' < |record| then record[c'] else "")
      {
        result[r, c] := if c < |record| then record[c] else "";
      }
    }
  }

  /**
   * ImportFromCsv: a blank path and a missing file are rejected; otherwise the
   * text is split into records and padded to a rectangle.
   */
  method ImportFromCsv(csvFilePath: string, contents: Option<string>) returns (result: Result<array2<string>>)
    ensures IsBlank(csvFilePath) ==> result == Err(Argument("csvFilePath"))
    ensures !IsBlank(csvFilePath) && contents.None? ==> result == Err(FileNotFound(csvFilePath))
    ensures !IsBlank(csvFilePath) && contents.Some? ==>
              result.Ok? && fresh(result.value) && Holds(result.value, Imported(Records(contents.value)))
  {
    if IsBlank(csvFilePath) {
      return Err(Argument("csvFilePath"));
    }
    if contents.None? {
      return Err(FileNotFound(csvFilePath));
    }
    var rows := ReadRecords(contents.value);
    var a := Pad(rows);
    return Ok(a);
  }

  // ------------------------------------------------------------ export text

  /** One exported row: the escaped cells joined by commas. */
  function RowText(cells: seq<string>): string {
    Join(Map(EscapeCell, cells), ",")
  }

  /** The exported text: the rows joined by line breaks, with no break after the last. */
  function CsvText(data: seq<seq<string>>): string {
    Join(Map(RowText, data), "\n")
  }

  // ------------------------------------------------------------ round trip

  /** An unquoted field without separators is read into the buffer as it is. */
  lemma {:induction false} PlainRun(f: string, t: string, s: Scan)
    requires !s.inQuotes && !MustQuote(f)
    ensures Run(f + t, s) == Run(t, s.(field := s.field + f))
    decreases |f|
  {
    if f == [] {
      assert f + t == t;
      assert s.field + f == s.field;
    } else {
      assert (f + t)[0] == f[0] && (f + t)[1..] == f[1..] + t;
      assert f[0] in f;
      assert Step(f + t, s) == (s.(field := s.field + [f[0]]), 1);
      PlainRun(f[1..], t, s.(field := s.field + [f[0]]));
      assert s.field + [f[0]] + f[1..] == s.field + f;
    }
  }

  /**
   * Inside quotes, the doubled-quote body of `f` and the closing quote are read
   * as `f`, provided the closing quote is not followed by another quote.
   */
  lemma {:induction false} QuotedRun(f: string, t: string, s: Scan)
    requires s.inQuotes && (t == [] || t[0] != '"')
    ensures Run(ReplaceChar(f, '"', "\"\"") + "\"" + t, s) == Run(t, s.(field := s.field + f, inQuotes := false))
    decreases |f|
  {
    if f == [] {
      QuotedCloseStep(t, s);
      QuotedGlue(f, s, s);
    } else {
      var next := s.(field := s.field + [f[0]]);
      QuotedCharStep(f, t, s);
      QuotedRun(f[1..], t, next);
      QuotedGlue(f, s, next);
    }
  }

  /** The buffer after the rest of the field is the buffer after the whole field. */
  lemma QuotedGlue(f: string, s: Scan, next: Scan)
    requires next == if f == [] then s else s.(field := s.field + [f[0]])
    ensures f == [] ==> s.(field := s.field + f, inQuotes := false) == s.(inQuotes := false)
    ensures f != [] ==> next.(field := next.field + f[1..], inQuotes := false) == s.(field := s.field + f, inQuotes := false)
  {
    if f == [] {
      assert s.field + f == s.field;
    } else {
      assert s.field + [f[0]] + f[1..] == s.field + f;
    }
  }

  /** Inside quotes, a quote not followed by another closes the quoted section. */
  lemma QuotedCloseStep(t: string, s: Scan)
    requires s.inQuotes && (t == [] || t[0] != '"')
    ensures Run(ReplaceChar([], '"', "\"\"") + "\"" + t, s) == Run(t, s.(inQuotes := false))
  {
    var text := ReplaceChar([], '"', "\"\"") + "\"" + t;
    assert text == "\"" + t;
    assert Step(text, s) == (s.(inQuotes := false), 1);
    assert text[1..] == t;
  }

  /** Inside quotes, the escaped form of a character, a doubled quote for a quote, adds it to the buffer. */
  lemma QuotedCharStep(f: string, t: string, s: Scan)
    requires s.inQuotes && f != []
    ensures Run(ReplaceChar(f, '"', "\"\"") + "\"" + t, s)
         == Run(ReplaceChar(f[1..], '"', "\"\"") + "\"" + t, s.(field := s.field + [f[0]]))
  {
    var text := ReplaceChar(f, '"', "\"\"") + "\"" + t;
    var tail := ReplaceChar(f[1..], '"', "\"\"") + "\"" + t;
    var next := s.(field := s.field + [f[0]]);
    if f[0] == '"' {
      assert text == "\"\"" + tail;
      assert Step(text, s) == (next, 2);
      assert text[2..] == tail;
    } else {
      assert text == [f[0]] + tail;
      assert Step(text, s) == (next, 1);
      assert text[1..] == tail;
    }
  }

  /** An escaped field followed by a separator or the end is read back into an empty buffer as the field. */
  lemma FieldRun(f: string, t: string, s: Scan)
    requires !s.inQuotes && s.field == ""
    requires t == [] || t[0] == ',' || t[0] == '\n'
    ensures Run(EscapeCell(f) + t, s) == Run(t, s.(field := f))
  {
    if MustQuote(f) {
      QuotedFieldRun(f, t, s);
    } else {
      assert EscapeCell(f) == f;
      PlainRun(f, t, s);
      assert s.field + f == f;
    }
  }

  /** The quoted case of `FieldRun`. */
  lemma QuotedFieldRun(f: string, t: string, s: Scan)
    requires !s.inQuotes && s.field == "" && MustQuote(f)
    requires t == [] || t[0] == ',' || t[0] == '\n'
    ensures Run(EscapeCell(f) + t, s) == Run(t, s.(field := f))
  {
    var quoted := ReplaceChar(f, '"', "\"\"");
    var body := quoted + "\"" + t;
    assert EscapeCell(f) + t == "\"" + body by {
      assert EscapeCell(f) == "\"" + quoted + "\"";
    }
    OpenQuoteStep(body, s);
    QuotedRun(f, t, s.(inQuotes := true));
    assert s.(inQuotes := true).(field := s.field + f, inQuotes := false) == s.(field := f);
  }

  /** Outside quotes, a quote opens a quoted section. */
  lemma OpenQuoteStep(tail: string, s: Scan)
    requires !s.inQuotes
    ensures Run("\"" + tail, s) == Run(tail, s.(inQuotes := true))
  {
    assert Step("\"" + tail, s) == (s.(inQuotes := true), 1);
    assert ("\"" + tail)[1..] == tail;
  }

  /** Outside quotes, a comma moves the buffer into the current row. */
  lemma CommaStep(tail: string, s: Scan)
    requires !s.inQuotes
    ensures Run("," + tail, s) == Run(tail, s.(current := s.current + [s.field], field := ""))
  {
    assert Step("," + tail, s) == (s.(current := s.current + [s.field], field := ""), 1);
    assert ("," + tail)[1..] == tail;
  }

  /** Outside quotes, a line feed commits the current row. */
  lemma LineFeedStep(tail: string, s: Scan)
    requires !s.inQuotes
    ensures Run("\n" + tail, s) == Run(tail, s.(rows := s.rows + [s.current + [s.field]], current := [], field := ""))
  {
    assert Step("\n" + tail, s) == (s.(rows := s.rows + [s.current + [s.field]], current := [], field := ""), 1);
    assert ("\n" + tail)[1..] == tail;
  }

  /** Dropping the first element of a sequence commutes with dropping its last. */
  lemma DropFirstInit<T>(xs: seq<T>)
    requires |xs| >= 2
    ensures xs[1..][..|xs| - 2] == xs[1..|xs| - 1]
    ensures [xs[0]] + xs[1..|xs| - 1] == xs[..|xs| - 1]
    ensures [xs[0]] + xs[1..] == xs
  {
  }

  /** Moving the first element of `xs` onto `prefix` keeps prefix-and-init the same. */
  lemma ShiftIntoPrefix<T>(prefix: seq<T>, xs: seq<T>)
    requires |xs| >= 2
    ensures prefix + [xs[0]] + xs[1..][..|xs| - 2] == prefix + xs[..|xs| - 1]
  {
    DropFirstInit(xs);
    assert prefix + [xs[0]] + xs[1..|xs| - 1] == prefix + ([xs[0]] + xs[1..|xs| - 1]);
  }

  /** Joining `[x] + rest` puts the separator after `x`. */
  lemma JoinCons(x: string, rest: seq<string>, sep: string)
    requires rest != []
    ensures Join([x] + rest, sep) == x + sep + Join(rest, sep)
  {
    assert ([x] + rest)[1..] == rest;
  }

  /** The state after reading a row of cells: all but the last in the current row, the last in the buffer. */
  function AfterRow(s: Scan, cells: seq<string>): Scan
    requires cells != []
  {
    s.(current := s.current + cells[..|cells| - 1], field := cells[|cells| - 1])
  }

  /** A one-cell row is read like its field. */
  lemma RowRunOne(cells: seq<string>, t: string, s: Scan)
    requires |cells| == 1 && !s.inQuotes && s.field == ""
    requires t == [] || t[0] == '\n'
    ensures Run(RowText(cells) + t, s) == Run(t, AfterRow(s, cells))
  {
    assert Map(EscapeCell, cells) == [EscapeCell(cells[0])];
    assert RowText(cells) == EscapeCell(cells[0]);
    FieldRun(cells[0], t, s);
    assert s.current + cells[..0] == s.current;
  }

  /** Reading the first cell and its comma leads to the state in which the rest of the row is read. */
  lemma RowRunFirst(cells: seq<string>, t: string, s: Scan)
    requires |cells| >= 2 && !s.inQuotes && s.field == ""
    ensures Run(RowText(cells) + t, s) ==
            Run(RowText(cells[1..]) + t, s.(current := s.current + [cells[0]], field := ""))
  {
    var tail := RowText(cells[1..]) + t;
    RowTextCons(cells);
    AppendAssoc(EscapeCell(cells[0]), ",", RowText(cells[1..]));
    AppendAssoc(EscapeCell(cells[0]) + ",", RowText(cells[1..]), t);
    AppendAssoc(EscapeCell(cells[0]), ",", tail);
    FieldRun(cells[0], "," + tail, s);
    CommaStep(tail, s.(field := cells[0]));
  }

  /** A row of two or more cells is its first escaped cell, a comma and the rest of the row. */
  lemma RowTextCons(cells: seq<string>)
    requires |cells| >= 2
    ensures RowText(cells) == EscapeCell(cells[0]) + "," + RowText(cells[1..])
  {
    assert Map(EscapeCell, cells) == [EscapeCell(cells[0])] + Map(EscapeCell, cells[1..]);
    JoinCons(EscapeCell(cells[0]), Map(EscapeCell, cells[1..]), ",");
  }

  /** The state after the rest of a row, from the state after its first cell, is the state after the row. */
  lemma AfterRowCons(cells: seq<string>, s: Scan)
    requires |cells| >= 2
    ensures AfterRow(s.(current := s.current + [cells[0]], field := ""), cells[1..]) == AfterRow(s, cells)
  {
    ShiftIntoPrefix(s.current, cells);
  }

  /**
   * A row of escaped cells followed by a line break or the end leaves every
   * cell but the last in the current row and the last one in the buffer.
   */
  lemma {:induction false} RowRun(cells: seq<string>, t: string, s: Scan)
    requires cells != [] && !s.inQuotes && s.field == ""
    requires t == [] || t[0] == '\n'
    ensures Run(RowText(cells) + t, s) == Run(t, AfterRow(s, cells))
    decreases |cells|
  {
    if |cells| == 1 {
      RowRunOne(cells, t, s);
    } else {
      var next := s.(current := s.current + [cells[0]], field := "");
      RowRunFirst(cells, t, s);
      RowRun(cells[1..], t, next);
      AfterRowCons(cells, s);
    }
  }

  /** A one-row text commits its row at the end of input, unless the row is one empty cell. */
  lemma RowsRunOne(data: seq<seq<string>>, s: Scan)
    requires |data| == 1 && data[0] != []
    requires s.current == [] && s.field == "" && !s.inQuotes
    ensures Run(CsvText(data), s) == s.rows + (if data[0] == [""] then [] else data)
  {
    var row := data[0];
    var held := AfterRow(s, row);
    CsvTextOne(data);
    assert RowText(row) + [] == RowText(row);
    RowRun(row, [], s);
    assert Run([], held) == Flush(held);
    FlushAfterRow(s, row, data);
  }

  /** The text of one row is that row's text. */
  lemma CsvTextOne(data: seq<seq<string>>)
    requires |data| == 1
    ensures CsvText(data) == RowText(data[0])
  {
    assert Map(RowText, data) == [RowText(data[0])];
  }

  /** At the end of input the held row is committed, unless it is one empty cell. */
  lemma FlushAfterRow(s: Scan, row: seq<string>, data: seq<seq<string>>)
    requires row != [] && s.current == [] && data == [row]
    ensures Flush(AfterRow(s, row)) == s.rows + (if row == [""] then [] else data)
  {
    var held := AfterRow(s, row);
    assert held.current + [held.field] == row;
    assert |held.field| > 0 || |held.current| > 0 <==> row != [""];
  }

  /** Reading the first row and its line break leads to the state in which the rest is read. */
  lemma RowsRunFirst(data: seq<seq<string>>, s: Scan)
    requires |data| >= 2 && data[0] != []
    requires s.current == [] && s.field == "" && !s.inQuotes
    ensures Run(CsvText(data), s) == Run(CsvText(data[1..]), s.(rows := s.rows + [data[0]], current := [], field := ""))
  {
    var row, rest := data[0], data[1..];
    var held := AfterRow(s, row);
    assert held.current + [held.field] == row;
    assert Map(RowText, data) == [RowText(row)] + Map(RowText, rest);
    JoinCons(RowText(row), Map(RowText, rest), "\n");
    var tail := CsvText(rest);
    assert CsvText(data) == RowText(row) + ("\n" + tail);
    RowRun(row, "\n" + tail, s);
    LineFeedStep(tail, held);
  }

  /** Moving the first element of `xs` onto `prefix` keeps prefix-and-rest the same. */
  lemma ConsIntoPrefix<T>(prefix: seq<T>, xs: seq<T>)
    requires xs != []
    ensures prefix + [xs[0]] + xs[1..] == prefix + xs
  {
    assert [xs[0]] + xs[1..] == xs;
    assert prefix + [xs[0]] + xs[1..] == prefix + ([xs[0]] + xs[1..]);
  }

  /**
   * Reading the exported text of non-empty rows, starting between records,
   * commits every row, except a last row holding one empty cell.
   */
  lemma {:induction false} RowsRun(data: seq<seq<string>>, s: Scan)
    requires data != [] && forall k :: 0 <= k < |data| ==> data[k] != []
    requires s.current == [] && s.field == "" && !s.inQuotes
    ensures Run(CsvText(data), s) ==
            s.rows + (if data[|data| - 1] == [""] then data[..|data| - 1] else data)
    decreases |data|
  {
    if |data| == 1 {
      RowsRunOne(data, s);
      assert data[..0] == [];
    } else {
      var next := s.(rows := s.rows + [data[0]], current := [], field := "");
      RowsRunFirst(data, s);
      RowsRun(data[1..], next);
      assert data[1..][|data| - 2] == data[|data| - 1];
      if data[|data| - 1] == [""] {
        ShiftIntoPrefix(s.rows, data);
      } else {
        ConsIntoPrefix(s.rows, data);
      }
    }
  }

  /**
   * Parsing the export text gives back the rows, except that a last row
   * consisting of a single empty cell is lost.
   */
  lemma ExportRecordsRoundTrip(data: seq<seq<string>>)
    requires forall k :: 0 <= k < |data| ==> data[k] != []
    ensures Records(CsvText(data)) ==
            if data != [] && data[|data| - 1] == [""] then data[..|data| - 1] else data
  {
    if data == [] {
      assert CsvText(data) == "";
    } else {
      RowsRun(data, Start);
    }
  }

  /** The grid of a rectangular array of strings, without nulls. */
  function StringGrid(data: seq<seq<string>>, w: nat): (g: Grid)
    requires forall k :: 0 <= k < |data| ==> |data[k]| == w
    ensures g.height == |data| && g.width == w
    ensures forall r, c :: 0 <= r < |data| && 0 <= c < w ==> g.cells[r][c] == Some(data[r][c])
  {
    Table(|data|, w, seq(|data|, r requires 0 <= r < |data| => seq(w, c requires 0 <= c < w => Some(data[r][c]))))
  }

  /** Padding records that are already rectangular and non-empty changes nothing. */
  lemma ImportedRectangular(data: seq<seq<string>>, w: nat)
    requires data != [] && w >= 1 && forall k :: 0 <= k < |data| ==> |data[k]| == w
    ensures Imported(data) == StringGrid(data, w)
  {
    var g, h := Imported(data), StringGrid(data, w);
    assert g.width == w;
    forall r | 0 <= r < |data|
      ensures g.cells[r] == h.cells[r]
    {
    }
  }

  /**
   * Importing the exported text of a rectangular grid with at least one column
   * gives back the grid, except that a last row holding one empty cell is
   * lost (and a grid of that one row comes back 0×0).
   */
  lemma ExportImportRoundTrip(data: seq<seq<string>>, w: nat)
    requires data != [] && w >= 1 && forall k :: 0 <= k < |data| ==> |data[k]| == w
    ensures data[|data| - 1] != [""] ==> Imported(Records(CsvText(data))) == StringGrid(data, w)
    ensures data[|data| - 1] == [""] && |data| > 1 ==>
              Imported(Records(CsvText(data))) == StringGrid(data[..|data| - 1], w)
    ensures data == [[""]] ==> Imported(Records(CsvText(data))) == Table(0, 0, [])
  {
    ExportRecordsRoundTrip(data);
    if data[|data| - 1] != [""] {
      ImportedRectangular(data, w);
    } else if |data| > 1 {
      ImportedRectangular(data[..|data| - 1], w);
    } else {
      assert Records(CsvText(data)) == [];
    }
  }

  /** A single non-empty field, escaped, parses as one record holding that field. */
  lemma EscapeCsvRoundTrip(f: string)
    requires f != ""
    ensures Records(EscapeCell(f)) == [[f]]
  {
    ExportRecordsRoundTrip([[f]]);
    assert Map(EscapeCell, [f]) == [EscapeCell(f)];
    assert Map(RowText, [[f]]) == [RowText([f])];
  }

  // ------------------------------------------------------------ export

  /**
   * A worksheet as the export sees it: its name, the formatted text of its
   * stored cells (row-major, from row 1 and column 1) and its last used row
   * and column, if any.
   */
  datatype Worksheet = Worksheet(name: string, text: seq<seq<string>>, lastRowUsed: Option<nat>, lastColumnUsed: Option<nat>)

  /** cell.GetFormattedString() for the 1-based (row, col): "" outside the stored cells. */
  function CellText(ws: Worksheet, row: int, col: int): string {
    if 1 <= row <= |ws.text| && 1 <= col <= |ws.text[row - 1]| then ws.text[row - 1][col - 1] else ""
  }

  /**
   * The end row and column of the exported range: a negative end is replaced
   * by the last used one (by the start when the sheet has none); an end before
   * the start is rejected.
   */
  function EndBounds(ws: Worksheet, startRow: int, startColumn: int, endRow: int, endColumn: int): (r: Result<(int, int)>)
    ensures r.Ok? ==> startRow <= r.value.0 && startColumn <= r.value.1
    ensures r.Ok? && endRow >= 0 ==> r.value.0 == endRow
    ensures r.Ok? && endColumn >= 0 ==> r.value.1 == endColumn
    ensures endRow >= 0 && endColumn >= 0 ==> (r.Ok? <==> startRow <= endRow && startColumn <= endColumn)
    ensures r.Err? ==> r.error in {ArgumentOutOfRange("endRow"), ArgumentOutOfRange("endColumn")}
  {
    var lastRow := if ws.lastRowUsed.Some? then ws.lastRowUsed.value else startRow;
    var lastCol := if ws.lastColumnUsed.Some? then ws.lastColumnUsed.value else startColumn;
    var er := if endRow < 0 then lastRow else endRow;
    var ec := if endColumn < 0 then lastCol else endColumn;
    if er < startRow then Err(ArgumentOutOfRange("endRow"))
    else if ec < startColumn then Err(ArgumentOutOfRange("endColumn"))
    else Ok((er, ec))
  }

  /** The cell texts of row `row` of the range, from column `startColumn` on. */
  function RangeRow(ws: Worksheet, row: int, startColumn: int, colCount: nat): (cells: seq<string>)
    ensures |cells| == colCount
    ensures forall cc :: 0 <= cc < colCount ==> cells[cc] == CellText(ws, row, startColumn + cc)
  {
    seq(colCount, cc requires 0 <= cc < colCount => CellText(ws, row, startColumn + cc))
  }

  /** The cell texts of the range starting at (startRow, startColumn). */
  function RangeText(ws: Worksheet, startRow: int, startColumn: int, rowCount: nat, colCount: nat): (g: seq<seq<string>>)
    ensures |g| == rowCount
    ensures forall rr :: 0 <= rr < rowCount ==> g[rr] == RangeRow(ws, startRow + rr, startColumn, colCount)
  {
    seq(rowCount, rr requires 0 <= rr < rowCount => RangeRow(ws, startRow + rr, startColumn, colCount))
  }

  /** What the export loops have appended after `k` of the parts: those parts joined, and a separator when more follow. */
  function JoinedPrefix(parts: seq<string>, k: nat, sep: string): string
    requires k <= |parts|
  {
    Join(parts[..k], sep) + (if 0 < k < |parts| then sep else "")
  }

  /** Appending part `k`, and the separator when it is not the last, extends the joined prefix by one part. */
  lemma JoinedPrefixStep(parts: seq<string>, k: nat, sep: string)
    requires k < |parts|
    ensures JoinedPrefix(parts, k + 1, sep) ==
            JoinedPrefix(parts, k, sep) + parts[k] + (if k < |parts| - 1 then sep else "")
  {
    assert parts[..k + 1] == parts[..k] + [parts[k]];
    if k > 0 {
      JoinSnoc(parts[..k], parts[k], sep);
    } else {
      assert parts[..1] == [parts[0]];
    }
  }

  /** The loop step on an accumulator holding `prefix` and the first `k` parts. */
  lemma AppendPartNext(prefix: string, parts: seq<string>, k: nat, n: nat, sep: string, acc: string, acc': string)
    requires k < |parts| && n == k + 1 && acc == prefix + JoinedPrefix(parts, k, sep)
    requires acc' == acc + parts[k] + (if k < |parts| - 1 then sep else "")
    ensures acc' == prefix + JoinedPrefix(parts, n, sep)
  {
    JoinedPrefixStep(parts, k, sep);
  }

  /** After all parts, the joined prefix is the whole join. */
  lemma JoinedPrefixAll(parts: seq<string>, sep: string)
    ensures JoinedPrefix(parts, |parts|, sep) == Join(parts, sep)
  {
    assert parts[..|parts|] == parts;
  }

  /** What an export returns: the data array, and the CSV text written to the file. */
  datatype Export = Export(data: array2<string>, csv: string)

  /** `e` holds the range from (startRow, startColumn) to (endRow, endColumn) of `ws` and its CSV text. */
  ghost predicate Exported(e: Export, ws: Worksheet, startRow: int, startColumn: int, endRow: int, endColumn: int)
    reads e.data
  {
    var rowCount, colCount := endRow - startRow + 1, endColumn - startColumn + 1;
    rowCount >= 1 && colCount >= 1 &&
    e.data.Length0 == rowCount && e.data.Length1 == colCount &&
    (forall rr, cc :: 0 <= rr < rowCount && 0 <= cc < colCount ==>
       e.data[rr, cc] == CellText(ws, startRow + rr, startColumn + cc)) &&
    e.csv == CsvText(RangeText(ws, startRow, startColumn, rowCount, colCount))
  }

  /** The first `rows` rows of `data` hold the cell texts of the range that starts at (startRow, startColumn). */
  ghost predicate Filled(data: array2<string>, ws: Worksheet, startRow: int, startColumn: int, rows: nat)
    reads data
  {
    forall r, c :: 0 <= r < rows && r < data.Length0 && 0 <= c < data.Length1 ==>
      data[r, c] == CellText(ws, startRow + r, startColumn + c)
  }

  /** The inner loop of the export: fills row `rr` of `data` and appends that row's text. */
  method AppendRow(ws: Worksheet, data: array2<string>, rr: nat, startRow: int, startColumn: int, sb: string)
      returns (sb': string)
    requires rr < data.Length0
    requires Filled(data, ws, startRow, startColumn, rr)
    modifies data
    ensures sb' == sb + RowText(RangeRow(ws, startRow + rr, startColumn, data.Length1))
    ensures Filled(data, ws, startRow, startColumn, rr + 1)
  {
    var colCount := data.Length1;
    ghost var cells := RangeRow(ws, startRow + rr, startColumn, colCount);
    ghost var escaped := Map(EscapeCell, cells);
    sb' := sb;
    var cc := 0;
    while cc != colCount
      invariant 0 <= cc <= colCount
      invariant sb' == sb + JoinedPrefix(escaped, cc, ",")
      invariant forall c :: 0 <= c < cc ==> data[rr, c] == CellText(ws, startRow + rr, startColumn + c)
      invariant forall r, c :: 0 <= r < data.Length0 && r != rr && 0 <= c < colCount ==> data[r, c] == old(data[r, c])
      decreases colCount - cc
    {
      ghost var before := sb';
      sb' := WriteCell(ws, data, rr, cc, startRow, startColumn, sb');
      ghost var done := cc;
      cc := cc + 1;
      AppendPartNext(sb, escaped, done, cc, ",", before, sb');
    }
    JoinedPrefixAll(escaped, ",");
    forall r, c | 0 <= r < rr + 1 && r < data.Length0 && 0 <= c < data.Length1
      ensures data[r, c] == CellText(ws, startRow + r, startColumn + c)
    {
      if r < rr {
        assert old(data[r, c]) == CellText(ws, startRow + r, startColumn + c);
      }
    }
  }

  /** One turn of the inner export loop: the cell's text into `data`, its escaped form and a comma unless last onto `sb`. */
  method WriteCell(ws: Worksheet, data: array2<string>, rr: nat, cc: nat, startRow: int, startColumn: int, sb: string)
      returns (sb': string)
    requires rr < data.Length0 && cc < data.Length1
    modifies data
    ensures data[rr, cc] == CellText(ws, startRow + rr, startColumn + cc)
    ensures forall r, c :: 0 <= r < data.Length0 && 0 <= c < data.Length1 && (r != rr || c != cc) ==>
              data[r, c] == old(data[r, c])
    ensures sb' == sb + EscapeCell(CellText(ws, startRow + rr, startColumn + cc)) + (if cc < data.Length1 - 1 then "," else "")
  {
    var text := CellText(ws, startRow + rr, startColumn + cc);
    data[rr, cc] := text;
    sb' := sb + EscapeCsv(Some(text));
    if cc < data.Length1 - 1 {
      sb' := sb' + ",";
    }
  }

  lemma LineAt(ws: Worksheet, startRow: int, startColumn: int, rowCount: nat, colCount: nat, rr: nat)
    requires rr < rowCount
    ensures Map(RowText, RangeText(ws, startRow, startColumn, rowCount, colCount))[rr]
         == RowText(RangeRow(ws, startRow + rr, startColumn, colCount))
  {
  }

  /** The export loops over a range whose bounds have been checked. */
  method ExportRange(ws: Worksheet, startRow: int, startColumn: int, endRow: int, endColumn: int)
      returns (e: Export)
    requires startRow <= endRow && startColumn <= endColumn
    ensures fresh(e.data) && Exported(e, ws, startRow, startColumn, endRow, endColumn)
  {
    var rowCount := endRow - startRow + 1;
    var colCount := endColumn - startColumn + 1;
    var data := new string[rowCount, colCount];
    ghost var lines := Map(RowText, RangeText(ws, startRow, startColumn, rowCount, colCount));
    var sb := "";
    var rr := 0;
    while rr != rowCount
      invariant 0 <= rr <= rowCount
      invariant sb == JoinedPrefix(lines, rr, "\n")
      invariant Filled(data, ws, startRow, startColumn, rr)
      decreases rowCount - rr
    {
      ghost var before := sb;
      LineAt(ws, startRow, startColumn, rowCount, colCount, rr);
      sb := AppendRow(ws, data, rr, startRow, startColumn, sb);
      if rr < rowCount - 1 {
        sb := sb + "\n";
      }
      ghost var done := rr;
      rr := rr + 1;
      AppendPartNext("", lines, done, rr, "\n", before, sb);
    }
    JoinedPrefixAll(lines, "\n");
    ExportedIntro(data, sb, ws, startRow, startColumn, endRow, endColumn, rowCount, colCount);
    e := Export(data, sb);
  }

  lemma ExportedIntro(data: array2<string>, csv: string, ws: Worksheet, startRow: int, startColumn: int,
                      endRow: int, endColumn: int, rowCount: nat, colCount: nat)
    requires rowCount == endRow - startRow + 1 && colCount == endColumn - startColumn + 1
    requires rowCount >= 1 && colCount >= 1
    requires data.Length0 == rowCount && data.Length1 == colCount
    requires Filled(data, ws, startRow, startColumn, rowCount)
    requires csv == Join(Map(RowText, RangeText(ws, startRow, startColumn, rowCount, colCount)), "\n")
    ensures Exported(Export(data, csv), ws, startRow, startColumn, endRow, endColumn)
  {
  }

  /** The start-bound checks the export overloads share, after the sheet argument. */
  function StartChecks(startRow: int, startColumn: int, csvFilePath: string): (r: Option<Exception>)
    ensures r.None? <==> startRow >= 1 && startColumn >= 1 && !IsBlank(csvFilePath)
  {
    if startRow <= 0 then Some(ArgumentOutOfRange("startRow"))
    else if startColumn <= 0 then Some(ArgumentOutOfRange("startColumn"))
    else if IsBlank(csvFilePath) then Some(Argument("csvFilePath"))
    else None
  }

  /**
   * The checks of ExportToCsv by sheet index, in the order they are made:
   * the workbook path, its existence, the sheet index, the start bounds and
   * the CSV path.
   */
  function IndexChecks(excelFilePath: string, workbook: Option<seq<Worksheet>>, sheetIndex: int,
                       csvFilePath: string, startRow: int, startColumn: int): (r: Option<Exception>)
    ensures r.None? <==> !IsBlank(excelFilePath) && workbook.Some? && sheetIndex >= 1 &&
                         startRow >= 1 && startColumn >= 1 && !IsBlank(csvFilePath)
  {
    if IsBlank(excelFilePath) then Some(Argument("excelFilePath"))
    else if workbook.None? then Some(FileNotFound(excelFilePath))
    else if sheetIndex <= 0 then Some(ArgumentOutOfRange("sheetIndex"))
    else StartChecks(startRow, startColumn, csvFilePath)
  }

  /**
   * ExportToCsv by 1-based sheet index. `workbook` is None when the file does
   * not exist. A missing sheet is an ArgumentException on "sheetIndex".
   */
  method ExportToCsvByIndex(excelFilePath: string, workbook: Option<seq<Worksheet>>, sheetIndex: int,
                            csvFilePath: string, startRow: int, startColumn: int, endRow: int, endColumn: int)
      returns (result: Result<Export>)
    ensures IndexChecks(excelFilePath, workbook, sheetIndex, csvFilePath, startRow, startColumn).Some? ==>
              result == Err(IndexChecks(excelFilePath, workbook, sheetIndex, csvFilePath, startRow, startColumn).value)
    ensures IndexChecks(excelFilePath, workbook, sheetIndex, csvFilePath, startRow, startColumn).None? ==>
              if sheetIndex > |workbook.value| then result == Err(Argument("sheetIndex"))
              else
                var ws := workbook.value[sheetIndex - 1];
                var bounds := EndBounds(ws, startRow, startColumn, endRow, endColumn);
                if bounds.Err? then result == Err(bounds.error)
                else result.Ok? && fresh(result.value.data) &&
                     Exported(result.value, ws, startRow, startColumn, bounds.value.0, bounds.value.1)
  {
    var failure := IndexChecks(excelFilePath, workbook, sheetIndex, csvFilePath, startRow, startColumn);
    if failure.Some? {
      return Err(failure.value);
    }
    if sheetIndex > |workbook.value| {
      return Err(Argument("sheetIndex"));
    }
    var ws := workbook.value[sheetIndex - 1];
    var bounds := EndBounds(ws, startRow, startColumn, endRow, endColumn);
    if bounds.Err? {
      return Err(bounds.error);
    }
    var e := ExportRange(ws, startRow, startColumn, bounds.value.0, bounds.value.1);
    return Ok(e);
  }

  /** The checks of ExportToCsv by sheet name, in the order they are made. */
  function NameChecks(excelFilePath: string, workbook: Option<seq<Worksheet>>, sheetName: string,
                      csvFilePath: string, startRow: int, startColumn: int): (r: Option<Exception>)
    ensures r.None? <==> !IsBlank(excelFilePath) && workbook.Some? && !IsBlank(sheetName) &&
                         startRow >= 1 && startColumn >= 1 && !IsBlank(csvFilePath)
  {
    if IsBlank(excelFilePath) then Some(Argument("excelFilePath"))
    else if workbook.None? then Some(FileNotFound(excelFilePath))
    else if IsBlank(sheetName) then Some(Argument("sheetName"))
    else StartChecks(startRow, startColumn, csvFilePath)
  }

  /** The test that a worksheet is called `name`, ignoring case. */
  function NamedAs(name: string): Worksheet -> bool {
    (ws: Worksheet) => EqualsIgnoreCase(ws.name, name)
  }

  /** ExportToCsv by sheet name; a missing sheet is an ArgumentException on "sheetName". */
  method ExportToCsvByName(excelFilePath: string, workbook: Option<seq<Worksheet>>, sheetName: string,
                           csvFilePath: string, startRow: int, startColumn: int, endRow: int, endColumn: int)
      returns (result: Result<Export>)
    ensures NameChecks(excelFilePath, workbook, sheetName, csvFilePath, startRow, startColumn).Some? ==>
              result == Err(NameChecks(excelFilePath, workbook, sheetName, csvFilePath, startRow, startColumn).value)
    ensures NameChecks(excelFilePath, workbook, sheetName, csvFilePath, startRow, startColumn).None? ==>
              if FirstMatch(workbook.value, NamedAs(sheetName)).None? then result == Err(Argument("sheetName"))
              else
                var ws := workbook.value[FirstMatch(workbook.value, NamedAs(sheetName)).value];
                var bounds := EndBounds(ws, startRow, startColumn, endRow, endColumn);
                if bounds.Err? then result == Err(bounds.error)
                else result.Ok? && fresh(result.value.data) &&
                     Exported(result.value, ws, startRow, startColumn, bounds.value.0, bounds.value.1)
  {
    var failure := NameChecks(excelFilePath, workbook, sheetName, csvFilePath, startRow, startColumn);
    if failure.Some? {
      return Err(failure.value);
    }
    var found := FirstMatch(workbook.value, NamedAs(sheetName));
    if found.None? {
      return Err(Argument("sheetName"));
    }
    var ws := workbook.value[found.value];
    var bounds := EndBounds(ws, startRow, startColumn, endRow, endColumn);
    if bounds.Err? {
      return Err(bounds.error);
    }
    var e := ExportRange(ws, startRow, startColumn, bounds.value.0, bounds.value.1);
    return Ok(e);
  }

  /** The exported text of a range imports back as that range, unless its last row is one empty cell. */
  lemma ExportThenImport(ws: Worksheet, startRow: int, startColumn: int, endRow: int, endColumn: int)
    requires startRow <= endRow && startColumn <= endColumn
    requires !(startColumn == endColumn && CellText(ws, endRow, startColumn) == "")
    ensures
      var rowCount, colCount := endRow - startRow + 1, endColumn - startColumn + 1;
      var range := RangeText(ws, startRow, startColumn, rowCount, colCount);
      Imported(Records(CsvText(range))) == StringGrid(range, colCount)
  {
    var rowCount, colCount := endRow - startRow + 1, endColumn - startColumn + 1;
    var range := RangeText(ws, startRow, startColumn, rowCount, colCount);
    assert range[rowCount - 1][0] == CellText(ws, endRow, startColumn);
    ExportImportRoundTrip(range, colCount);
  }
}
