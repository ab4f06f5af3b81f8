/** The CSV writer of the report jobs and the parser the spreadsheet and PDF writers read it back with.

    The main result says what the parser makes of every written table; the table itself comes back exactly
    when three conditions on its shape hold. */
module Csv {
  type Row = seq<string>

  // ---- writing ----

  /** The characters that make csvCell quote a cell. */
  predicate Special(c: char) {
    c == '"' || c == ',' || c == '\n' || c == ';'
  }

  predicate NeedsQuotes(text: string) {
    exists i :: 0 <= i < |text| && Special(text[i])
  }

  function DoubleQuotes(text: string): string {
    if text == [] then [] else (if text[0] == '"' then "\"\"" else [text[0]]) + DoubleQuotes(text[1..])
  }

  function CsvCell(text: string): string {
    if NeedsQuotes(text) then "\"" + DoubleQuotes(text) + "\"" else text
  }

  /** A cell is written as it is if and only if it holds no quote, comma, line feed or semicolon. */
  lemma WrittenPlainlyIff(text: string)
    ensures CsvCell(text) == text <==> '"' !in text && ',' !in text && '\n' !in text && ';' !in text
  {
    if NeedsQuotes(text) {
      NeverShorter(text);
      assert |CsvCell(text)| > |text|;
      var i :| 0 <= i < |text| && Special(text[i]);
      assert text[i] in text;
    }
  }

  lemma {:induction false} NeverShorter(text: string)
    ensures |DoubleQuotes(text)| >= |text|
    decreases |text|
  {
    if text != [] {
      NeverShorter(text[1..]);
    }
  }

  function Join(parts: seq<string>, separator: string): string {
    if parts == [] then []
    else if |parts| == 1 then parts[0]
    else parts[0] + separator + Join(parts[1..], separator)
  }

  function Cells(row: Row): seq<string>
    ensures |Cells(row)| == |row|
  {
    if row == [] then [] else [CsvCell(row[0])] + Cells(row[1..])
  }

  function RowText(row: Row): string {
    Join(Cells(row), ",")
  }

  function RowTexts(table: seq<Row>): seq<string>
    ensures |RowTexts(table)| == |table|
  {
    if table == [] then [] else [RowText(table[0])] + RowTexts(table[1..])
  }

  function TableText(table: seq<Row>): string {
    Join(RowTexts(table), "\r\n")
  }

  function ToCsv(headers: Row, rows: seq<Row>): string {
    TableText([headers] + rows)
  }

  // ---- parsing ----

  /** replace(/\r$/, ''): one final carriage return is dropped. */
  function StripCR(cell: string): string {
    if cell != [] && cell[|cell| - 1] == '\r' then cell[..|cell| - 1] else cell
  }

  datatype State = State(rows: seq<Row>, row: Row, cell: string, quoted: bool)

  const START := State([], [], [], false)

  /** What the loop does with the text that is left. */
  function Scan(text: string, s: State): State
    decreases |text|
  {
    if text == [] then s
    else
      var c, rest := text[0], text[1..];
      if s.quoted then
        if c == '"' && rest != [] && rest[0] == '"' then Scan(rest[1..], s.(cell := s.cell + "\""))
        else if c == '"' then Scan(rest, s.(quoted := false))
        else Scan(rest, s.(cell := s.cell + [c]))
      else if c == '"' then Scan(rest, s.(quoted := true))
      else if c == ',' then Scan(rest, s.(row := s.row + [s.cell], cell := []))
      else if c == '\n' then Scan(rest, s.(rows := s.rows + [s.row + [StripCR(s.cell)]], row := [], cell := []))
      else Scan(rest, s.(cell := s.cell + [c]))
  }

  function Finish(s: State): seq<Row> {
    if s.cell != [] || s.row != [] then s.rows + [s.row + [StripCR(s.cell)]] else s.rows
  }

  function Parse(text: string): seq<Row> {
    Finish(Scan(text, START))
  }

  method ParseCsvRows(csv: string) returns (rows: seq<Row>)
    ensures rows == Parse(csv)
  {
    rows := [];
    var row: Row, cell, quoted := [], "", false;
    var index := 0;
    while index < |csv|
      invariant index <= |csv|
      invariant Scan(csv[index..], State(rows, row, cell, quoted)) == Scan(csv, START)
    {
      var c := csv[index];
      assert csv[index..][1..] == csv[index + 1..];
      if quoted {
        if c == '"' && index + 1 < |csv| && csv[index + 1] == '"' {
          assert csv[index..][1..][1..] == csv[index + 2..];
          cell := cell + "\"";
          index := index + 2;
          continue;
        }
        if c == '"' {
          quoted := false;
          index := index + 1;
          continue;
        }
        cell := cell + [c];
        index := index + 1;
        continue;
      }
      index := index + 1;
      if c == '"' {
        quoted := true;
      } else if c == ',' {
        row, cell := row + [cell], "";
      } else if c == '\n' {
        rows, row, cell := rows + [row + [StripCR(cell)]], [], "";
      } else {
        cell := cell + [c];
      }
    }
    if cell != [] || row != [] {
      rows := rows + [row + [StripCR(cell)]];
    }
  }

  // ---- what comes back ----

  /** An empty row is written as an empty line and read as one empty cell. */
  function ReadRow(row: Row): (read: Row)
    ensures read != []
  {
    if row == [] then [""] else row
  }

  /** The last line has no line end: one empty cell disappears, and a final carriage return is taken for a line end. */
  function ReadLastRow(row: Row): seq<Row> {
    if ReadRow(row) == [""] then []
    else [row[..|row| - 1] + [StripCR(row[|row| - 1])]]
  }

  function ReadTable(table: seq<Row>): seq<Row>
    requires table != []
  {
    if |table| == 1 then ReadLastRow(table[0]) else [ReadRow(table[0])] + ReadTable(table[1..])
  }

  lemma {:induction false} ScanDoubled(text: string, rest: string, s: State)
    requires s.quoted && (rest == [] || rest[0] != '"')
    ensures Scan(DoubleQuotes(text) + "\"" + rest, s) == Scan(rest, s.(cell := s.cell + text, quoted := false))
    decreases |text|
  {
    var all := DoubleQuotes(text) + "\"" + rest;
    if text == [] {
      assert all == "\"" + rest;
      assert all[1..] == rest;
      assert s.cell + text == s.cell;
    } else {
      var tail := DoubleQuotes(text[1..]) + "\"" + rest;
      ScanDoubled(text[1..], rest, s.(cell := s.cell + [text[0]]));
      assert s.cell + [text[0]] + text[1..] == s.cell + text;
      if text[0] == '"' {
        assert all == "\"\"" + tail;
        assert all[1..][1..] == tail;
      } else {
        assert all == [text[0]] + tail;
        assert all[1..] == tail;
      }
    }
  }

  lemma {:induction false} ScanPlain(text: string, rest: string, s: State)
    requires !s.quoted && !NeedsQuotes(text)
    ensures Scan(text + rest, s) == Scan(rest, s.(cell := s.cell + text))
    decreases |text|
  {
    if text == [] {
      assert text + rest == rest && s.cell + text == s.cell;
    } else {
      assert !Special(text[0]);
      forall i | 0 <= i < |text[1..]| ensures !Special(text[1..][i]) {
        assert text[1..][i] == text[i + 1];
      }
      ScanPlain(text[1..], rest, s.(cell := s.cell + [text[0]]));
      assert (text + rest)[1..] == text[1..] + rest;
      assert s.cell + [text[0]] + text[1..] == s.cell + text;
    }
  }

  lemma ScanOne(c: char, rest: string, s: State)
    requires !s.quoted
    ensures Scan([c] + rest, s) == Scan(rest,
      if c == '"' then s.(quoted := true)
      else if c == ',' then s.(row := s.row + [s.cell], cell := [])
      else if c == '\n' then s.(rows := s.rows + [s.row + [StripCR(s.cell)]], row := [], cell := [])
      else s.(cell := s.cell + [c]))
  {
    assert ([c] + rest)[1..] == rest;
  }

  lemma ScanCell(text: string, rest: string, s: State)
    requires !s.quoted && s.cell == [] && (rest == [] || rest[0] != '"')
    ensures Scan(CsvCell(text) + rest, s) == Scan(rest, s.(cell := text))
  {
    hide Scan, DoubleQuotes, NeedsQuotes;
    if NeedsQuotes(text) {
      var tail := DoubleQuotes(text) + "\"" + rest;
      assert CsvCell(text) + rest == ['"'] + tail;
      ScanOne('"', tail, s);
      ScanDoubled(text, rest, s.(quoted := true));
    } else {
      ScanPlain(text, rest, s);
    }
    assert s.cell + text == text;
  }

  /** After a row's text the parser holds all its cells, the last one still open. */
  lemma {:induction false} ScanRow(row: Row, rest: string, s: State)
    requires !s.quoted && s.cell == [] && row != [] && (rest == [] || rest[0] == '\r')
    ensures Scan(RowText(row) + rest, s) == Scan(rest, s.(row := s.row + row[..|row| - 1], cell := row[|row| - 1]))
    decreases |row|
  {
    hide Scan, CsvCell;
    var cells := Cells(row);
    if |row| == 1 {
      assert RowText(row) == CsvCell(row[0]);
      ScanCell(row[0], rest, s);
      assert s.row + row[..0] == s.row;
    } else {
      var tail := RowText(row[1..]) + rest;
      assert cells[1..] == Cells(row[1..]);
      assert RowText(row) + rest == CsvCell(row[0]) + ("," + tail);
      ScanCell(row[0], "," + tail, s);
      ScanOne(',', tail, s.(cell := row[0]));
      assert "," + tail == [','] + tail;
      var s' := s.(row := s.row + [row[0]]);
      ScanRow(row[1..], rest, s');
      assert s'.row + row[1..][..|row| - 2] == s.row + row[..|row| - 1];
    }
  }

  lemma ScanLineEnd(rest: string, s: State)
    requires !s.quoted
    ensures Scan("\r\n" + rest, s) == Scan(rest, s.(rows := s.rows + [s.row + [s.cell]], row := [], cell := []))
  {
    hide Scan;
    assert "\r\n" + rest == ['\r'] + (['\n'] + rest);
    ScanOne('\r', ['\n'] + rest, s);
    ScanOne('\n', rest, s.(cell := s.cell + ['\r']));
    assert StripCR(s.cell + ['\r']) == s.cell;
  }

  lemma RowTextOfRead(row: Row)
    ensures RowText(row) == RowText(ReadRow(row))
  {
    assert RowText([""]) == Join(Cells([""]), ",") == CsvCell("");
  }

  lemma TableTextUnfold(table: seq<Row>)
    requires table != []
    ensures TableText(table) == RowText(table[0]) + (if |table| == 1 then [] else "\r\n" + TableText(table[1..]))
  {
    hide RowText;
    assert RowTexts(table)[1..] == RowTexts(table[1..]);
  }

  lemma {:induction false} ScanTable(table: seq<Row>, s: State)
    requires !s.quoted && s.cell == [] && s.row == [] && table != []
    ensures Finish(Scan(TableText(table), s)) == s.rows + ReadTable(table)
    decreases |table|
  {
    hide Scan, RowText, TableText, Finish, ReadRow, ReadLastRow;
    var row := ReadRow(table[0]);
    RowTextOfRead(table[0]);
    TableTextUnfold(table);
    var init, last := row[..|row| - 1], row[|row| - 1];
    assert s.row + init == init;
    if |table| == 1 {
      ScanRow(row, [], s);
      LastLine(table[0], s);
      EmptyText(s.(row := init, cell := last));
    } else {
      var tail := TableText(table[1..]);
      ScanRow(row, "\r\n" + tail, s);
      ScanLineEnd(tail, s.(row := init, cell := last));
      assert init + [last] == row;
      ScanTable(table[1..], s.(rows := s.rows + [row]));
      assert s.rows + [row] + ReadTable(table[1..]) == s.rows + ReadTable(table);
    }
  }

  lemma EmptyText(s: State)
    ensures Scan([], s) == s
  {
  }

  lemma LastLine(row: Row, s: State)
    ensures var read := ReadRow(row);
      Finish(s.(row := read[..|read| - 1], cell := read[|read| - 1])) == s.rows + ReadLastRow(row)
  {
    var read := ReadRow(row);
    var init, last := read[..|read| - 1], read[|read| - 1];
    if read == [""] {
      assert init == [];
    } else {
      assert last != [] || init != [];
    }
  }

  /** What the parser makes of any written table. */
  lemma ParseOfCsv(headers: Row, rows: seq<Row>)
    ensures Parse(ToCsv(headers, rows)) == ReadTable([headers] + rows)
  {
    hide Scan, Finish, TableText, ReadTable;
    ScanTable([headers] + rows, START);
    assert [] + ReadTable([headers] + rows) == ReadTable([headers] + rows);
  }

  /** Every row has a cell, the last row is more than one empty cell, and it does not end in a carriage return. */
  predicate Survives(table: seq<Row>)
    requires table != []
  {
    var last := table[|table| - 1];
    && (forall i :: 0 <= i < |table| ==> table[i] != [])
    && last != [""]
    && (last[|last| - 1] != [] ==> last[|last| - 1][|last[|last| - 1]| - 1] != '\r')
  }

  lemma LastRowFixpoint(row: Row)
    ensures ReadLastRow(row) == [row] <==> Survives([row])
  {
    if ReadRow(row) != [""] {
      var init, last := row[..|row| - 1], row[|row| - 1];
      assert row == init + [last];
      assert (init + [StripCR(last)])[|row| - 1] == StripCR(last);
      assert ReadLastRow(row)[0] == init + [StripCR(last)];
    } else {
      assert [row][|[row]| - 1] == row;
    }
  }

  lemma SurvivesTail(table: seq<Row>)
    requires |table| > 1
    ensures Survives(table) <==> table[0] != [] && Survives(table[1..])
  {
    assert table[1..][|table| - 2] == table[|table| - 1];
    assert forall i :: 0 <= i < |table| - 1 ==> table[1..][i] == table[i + 1];
    if table[0] != [] && Survives(table[1..]) {
      forall i | 0 <= i < |table| ensures table[i] != [] {
        assert i > 0 ==> table[i] == table[1..][i - 1];
      }
    }
  }

  lemma {:induction false} ReadTableFixpoint(table: seq<Row>)
    requires table != []
    ensures ReadTable(table) == table <==> Survives(table)
    decreases |table|
  {
    hide Survives;
    assert table == [table[0]] + table[1..];
    if |table| == 1 {
      assert table == [table[0]];
      LastRowFixpoint(table[0]);
    } else {
      ReadTableFixpoint(table[1..]);
      SurvivesTail(table);
      assert ReadTable(table)[0] == ReadRow(table[0]) && ReadTable(table)[1..] == ReadTable(table[1..]);
    }
  }

  /** A written table comes back unchanged exactly when it has none of the three excluded shapes. */
  lemma RoundTrip(headers: Row, rows: seq<Row>)
    ensures Parse(ToCsv(headers, rows)) == [headers] + rows <==> Survives([headers] + rows)
  {
    ParseOfCsv(headers, rows);
    ReadTableFixpoint([headers] + rows);
  }
}
