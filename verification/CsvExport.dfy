/**
  The CSV printer of `exportAnalyticsCSV` in src/lib/data-room.ts, and a parser for the format of section 2 of
  RFC 4180 with LF as the line break and CR as ordinary data.
  */
module CsvExport {
  import opened Wrappers
  import opened Text

  const HEADERS: seq<string> :=
    ["Email", "Name", "Company", "Document", "Folder", "Event Type", "Page", "Duration (s)", "Time"]

  /** A row of the analytics query; numbers are given by their text, and None stands for null. */
  datatype AnalyticsEvent = AnalyticsEvent(
    email: Option<string>, name: Option<string>, company: Option<string>,
    documentName: Option<string>, folder: Option<string>, eventType: Option<string>,
    pageNumber: Option<string>, durationSeconds: Option<string>, eventTime: Option<string>)

  function CellText(cell: Option<string>): string {
    match cell
    case None => ""
    case Some(text) => text
  }

  function Cells(e: AnalyticsEvent): (cells: seq<string>)
    ensures |cells| == |HEADERS|
  {
    [ CellText(e.email), CellText(e.name), CellText(e.company), CellText(e.documentName), CellText(e.folder),
      CellText(e.eventType), CellText(e.pageNumber), CellText(e.durationSeconds), CellText(e.eventTime) ]
  }

  // ---------------------------------------------------------------------------
  // The printer

  function DoubleQuotes(s: string): string {
    if s == "" then "" else (if s[0] == '\"' then "\"\"" else [s[0]]) + DoubleQuotes(s[1..])
  }

  function PrintCell(s: string): string {
    if ',' in s || '\"' in s || '\n' in s then "\"" + DoubleQuotes(s) + "\"" else s
  }

  function PrintCells(row: seq<string>): seq<string> {
    if row == [] then [] else [PrintCell(row[0])] + PrintCells(row[1..])
  }

  function PrintRow(row: seq<string>): string {
    Unsplit(PrintCells(row), ",")
  }

  function PrintRows(rows: seq<seq<string>>): seq<string> {
    if rows == [] then [] else [PrintRow(rows[0])] + PrintRows(rows[1..])
  }

  function PrintTable(rows: seq<seq<string>>): string {
    Unsplit(PrintRows(rows), "\n")
  }

  function Rows(events: seq<AnalyticsEvent>): seq<seq<string>> {
    if events == [] then [] else [Cells(events[0])] + Rows(events[1..])
  }

  function ExportAnalyticsCsv(events: seq<AnalyticsEvent>): string {
    PrintTable([HEADERS] + Rows(events))
  }

  // ---------------------------------------------------------------------------
  // The parser

  datatype Parsed<+T> = Malformed | Parsed(value: T, rest: string)

  /** The rest of a quoted field (rules 5 to 7): up to a quote that is not doubled. */
  function ParseQuoted(s: string): (p: Parsed<string>)
    ensures p.Parsed? ==> |p.rest| < |s|
  {
    if s == "" then Malformed
    else if s[0] != '\"' then
      match ParseQuoted(s[1..])
      case Malformed => Malformed
      case Parsed(field, rest) => Parsed([s[0]] + field, rest)
    else if "\"\"" <= s then
      match ParseQuoted(s[2..])
      case Malformed => Malformed
      case Parsed(field, rest) => Parsed("\"" + field, rest)
    else Parsed("", s[1..])
  }

  /** A field without quotes: a quote inside it is an error. */
  function ParsePlain(s: string): (p: Parsed<string>)
    ensures p.Parsed? ==> |p.rest| <= |s|
  {
    if s == "" || s[0] == ',' || s[0] == '\n' then Parsed("", s)
    else if s[0] == '\"' then Malformed
    else
      match ParsePlain(s[1..])
      case Malformed => Malformed
      case Parsed(field, rest) => Parsed([s[0]] + field, rest)
  }

  function ParseField(s: string): (p: Parsed<string>)
    ensures p.Parsed? ==> |p.rest| <= |s|
  {
    if "\"" <= s then ParseQuoted(s[1..]) else ParsePlain(s)
  }

  /** Fields separated by commas (rule 4), up to a line break or the end. */
  function ParseRecord(s: string): (p: Parsed<seq<string>>)
    ensures p.Parsed? ==> |p.rest| <= |s| && (p.rest == "" || p.rest[0] == '\n')
    decreases |s|
  {
    match ParseField(s)
    case Malformed => Malformed
    case Parsed(field, rest) =>
      if rest == "" || rest[0] == '\n' then Parsed([field], rest)
      else if rest[0] != ',' then Malformed
      else
        match ParseRecord(rest[1..])
        case Malformed => Malformed
        case Parsed(fields, rest') => Parsed([field] + fields, rest')
  }

  /** Records on separate lines (rule 1); the last may or may not end in a line break (rule 2). */
  function ParseTable(s: string): Option<seq<seq<string>>>
    decreases |s|
  {
    match ParseRecord(s)
    case Malformed => None
    case Parsed(record, rest) =>
      if |rest| <= 1 then Some([record])
      else
        match ParseTable(rest[1..])
        case None => None
        case Some(records) => Some([record] + records)
  }

  // ---------------------------------------------------------------------------
  // The round trip

  predicate EndsField(rest: string) {
    rest == "" || rest[0] == ',' || rest[0] == '\n'
  }

  lemma {:induction false} QuotedRoundTrip(s: string, rest: string)
    requires EndsField(rest)
    ensures ParseQuoted(DoubleQuotes(s) + "\"" + rest) == Parsed(s, rest)
  {
    var text := DoubleQuotes(s) + "\"" + rest;
    if s == "" {
      assert text[1..] == rest;
    } else {
      QuotedRoundTrip(s[1..], rest);
      var tail := DoubleQuotes(s[1..]) + "\"" + rest;
      assert [s[0]] + s[1..] == s;
      if s[0] == '\"' {
        assert text == "\"\"" + tail && text[2..] == tail;
      } else {
        assert text == [s[0]] + tail && text[1..] == tail;
      }
    }
  }

  lemma {:induction false} PlainRoundTrip(s: string, rest: string)
    requires EndsField(rest) && ',' !in s && '\"' !in s && '\n' !in s
    ensures ParsePlain(s + rest) == Parsed(s, rest)
  {
    if s == "" {
      assert s + rest == rest;
    } else {
      assert (s + rest)[1..] == s[1..] + rest && [s[0]] + s[1..] == s;
      PlainRoundTrip(s[1..], rest);
    }
  }

  lemma FieldRoundTrip(s: string, rest: string)
    requires EndsField(rest)
    ensures ParseField(PrintCell(s) + rest) == Parsed(s, rest)
  {
    hide ParseQuoted, ParsePlain, DoubleQuotes;
    if ',' in s || '\"' in s || '\n' in s {
      var text := "\"" + DoubleQuotes(s) + "\"" + rest;
      assert text[0] == '\"' && text[1..] == DoubleQuotes(s) + "\"" + rest;
      QuotedRoundTrip(s, rest);
    } else {
      assert (s + rest) == "" || (s + rest)[0] != '\"';
      PlainRoundTrip(s, rest);
    }
  }

  /** A cell is printed as it is exactly if it has no comma, no quote and no line break. */
  lemma OnlySpecialCellsAreQuoted(s: string)
    ensures PrintCell(s) == s <==> forall i :: 0 <= i < |s| ==> s[i] != ',' && s[i] != '\"' && s[i] != '\n'
  {
    DoublingGrows(s);
    assert PrintCell(s) == s <==> |PrintCell(s)| == |s|;
  }

  lemma {:induction false} DoublingGrows(s: string)
    ensures |DoubleQuotes(s)| >= |s|
  {
    if s != "" {
      DoublingGrows(s[1..]);
    }
  }

  lemma PrintRowStep(row: seq<string>)
    requires row != []
    ensures PrintRow(row) == if |row| == 1 then PrintCell(row[0]) else PrintCell(row[0]) + "," + PrintRow(row[1..])
  {
    assert PrintCells(row)[1..] == PrintCells(row[1..]);
    assert |row| > 1 ==> |PrintCells(row[1..])| > 0;
  }

  lemma {:induction false} RecordRoundTrip(row: seq<string>, rest: string)
    requires row != [] && (rest == "" || rest[0] == '\n')
    ensures ParseRecord(PrintRow(row) + rest) == Parsed(row, rest)
  {
    hide ParseField, PrintCell, PrintRow;
    PrintRowStep(row);
    if |row| == 1 {
      FieldRoundTrip(row[0], rest);
      assert row == [row[0]];
    } else {
      var tail := "," + PrintRow(row[1..]) + rest;
      assert PrintRow(row) + rest == PrintCell(row[0]) + tail;
      FieldRoundTrip(row[0], tail);
      assert tail[1..] == PrintRow(row[1..]) + rest;
      RecordRoundTrip(row[1..], rest);
      assert [row[0]] + row[1..] == row;
    }
  }

  /** A printed row is empty only if the row is a single empty cell. */
  lemma PrintsEmpty(row: seq<string>)
    requires row != []
    ensures PrintRow(row) == "" <==> row == [""]
  {
    hide PrintRow;
    PrintRowStep(row);
  }

  lemma PrintTableStep(rows: seq<seq<string>>)
    requires rows != []
    ensures PrintTable(rows) == if |rows| == 1 then PrintRow(rows[0]) else PrintRow(rows[0]) + "\n" + PrintTable(rows[1..])
  {
    hide PrintRow;
    assert PrintRows(rows)[1..] == PrintRows(rows[1..]);
    assert |rows| > 1 ==> |PrintRows(rows[1..])| > 0;
  }

  predicate RowsHaveCells(rows: seq<seq<string>>) {
    forall i :: 0 <= i < |rows| ==> rows[i] != []
  }

  /** The last of several rows is a single empty cell: a reader takes its line for a final line break. */
  predicate EndsInEmptyLine(rows: seq<seq<string>>) {
    |rows| > 1 && rows[|rows| - 1] == [""]
  }

  lemma PrintsEmptyTable(rows: seq<seq<string>>)
    requires rows != [] && RowsHaveCells(rows)
    ensures PrintTable(rows) == "" <==> rows == [[""]]
  {
    hide PrintTable, PrintRow;
    PrintTableStep(rows);
    PrintsEmpty(rows[0]);
  }

  /**
    For every table of rows with at least one cell, parsing the printed text returns the table exactly when the
    table does not end in an empty line.
    */
  lemma {:induction false} TableRoundTrip(rows: seq<seq<string>>)
    requires rows != [] && RowsHaveCells(rows)
    ensures ParseTable(PrintTable(rows)) == Some(rows) <==> !EndsInEmptyLine(rows)
  {
    hide ParseRecord, PrintTable, PrintRow;
    var row, text := rows[0], PrintTable(rows);
    PrintTableStep(rows);
    if |rows| == 1 {
      assert text + "" == text;
      RecordRoundTrip(row, "");
      assert rows == [row];
    } else {
      var others := rows[1..];
      var rest := "\n" + PrintTable(others);
      assert text == PrintRow(row) + rest && rest[1..] == PrintTable(others);
      RecordRoundTrip(row, rest);
      PrintsEmptyTable(others);
      if others != [[""]] {
        TableRoundTrip(others);
        assert EndsInEmptyLine(rows) <==> EndsInEmptyLine(others);
        var parsed := ParseTable(PrintTable(others));
        assert parsed.Some? ==> ([row] + parsed.value)[1..] == parsed.value;
        assert rows == [row] + others;
      }
    }
  }

  lemma {:induction false} RowsAreCells(events: seq<AnalyticsEvent>)
    ensures |Rows(events)| == |events| && forall i :: 0 <= i < |events| ==> Rows(events)[i] == Cells(events[i])
  {
    hide Cells;
    if events != [] {
      RowsAreCells(events[1..]);
    }
  }

  /** The exported text reads back as the headers and the cells of every event, whatever the cells contain. */
  lemma ExportRoundTrip(events: seq<AnalyticsEvent>)
    ensures ParseTable(ExportAnalyticsCsv(events)) == Some([HEADERS] + Rows(events))
  {
    hide Cells, PrintTable, ParseTable;
    var rows := [HEADERS] + Rows(events);
    RowsAreCells(events);
    assert RowsHaveCells(rows) && !EndsInEmptyLine(rows) by {
      assert forall i :: 0 < i < |rows| ==> |rows[i]| == 9;
    }
    hide Rows, RowsHaveCells, EndsInEmptyLine;
    TableRoundTrip(rows);
  }

  predicate Shows(cell: string, value: Option<string>) {
    (value == None ==> cell == "") && (value.Some? ==> cell == value.value)
  }

  /** In the table that is read back, the column under each header holds that property of every event, in order. */
  lemma ExportColumns(events: seq<AnalyticsEvent>, i: nat, column: nat)
    requires i < |events| && column < 9
    ensures ParseTable(ExportAnalyticsCsv(events)).Some?
    ensures
      var table := ParseTable(ExportAnalyticsCsv(events)).value;
      |table| == |events| + 1 && |table[0]| == |table[i + 1]| == 9 &&
      var cell, e := table[i + 1][column], events[i];
      match table[0][column]
      case "Email" => Shows(cell, e.email)
      case "Name" => Shows(cell, e.name)
      case "Company" => Shows(cell, e.company)
      case "Document" => Shows(cell, e.documentName)
      case "Folder" => Shows(cell, e.folder)
      case "Event Type" => Shows(cell, e.eventType)
      case "Page" => Shows(cell, e.pageNumber)
      case "Duration (s)" => Shows(cell, e.durationSeconds)
      case "Time" => Shows(cell, e.eventTime)
      case _ => false
  {
    hide ParseTable, ExportAnalyticsCsv;
    ExportRoundTrip(events);
    RowsAreCells(events);
  }
}
