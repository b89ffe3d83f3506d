/**
 CSV text: the reader's character loop, and the printer it reads back. A text is a
 sequence of characters and the delimiter is one of them.
 */
module Csv {
  import opened Texts

  type Row = seq<string>

  // ---- reading ----

  datatype State = State(rows: seq<Row>, row: Row, cell: string, quoted: bool, rowStart: nat)

  const START: State := State([], [], "", false, 0)

  predicate EndsRow(c: char) {
    c == '\n' || c == '\r'
  }

  /** The place after the line break at `i`; CR and LF together are one. */
  function AfterBreak(text: string, i: nat): nat
    requires i < |text|
  {
    if text[i] == '\r' && i + 1 < |text| && text[i + 1] == '\n' then i + 2 else i + 1
  }

  /** One turn of the loop: what the character at `i` makes of the state, and the place after it. */
  function Turn(text: string, delimiter: char, i: nat, s: State): (State, nat)
    requires i < |text|
  {
    var c := text[i];
    if s.quoted then
      if c == '"' && i + 1 < |text| && text[i + 1] == '"' then (s.(cell := s.cell + ['"']), i + 2)
      else if c == '"' then (s.(quoted := false), i + 1)
      else (s.(cell := s.cell + [c]), i + 1)
    else if c == '"' then (s.(quoted := true), i + 1)
    else if c == delimiter then (s.(row := s.row + [s.cell], cell := ""), i + 1)
    else if EndsRow(c) then
      (State(s.rows + [s.row + [s.cell]], [], "", false, AfterBreak(text, i)), AfterBreak(text, i))
    else (s.(cell := s.cell + [c]), i + 1)
  }

  function Run(text: string, delimiter: char, i: nat, s: State): State
    decreases |text| - i
  {
    if i >= |text| then s
    else
      var (next, j) := Turn(text, delimiter, i, s);
      Run(text, delimiter, j, next)
  }

  /** The last row counts when its line began before the end of the text. */
  function Finish(text: string, s: State): seq<Row> {
    if s.rowStart < |text| then s.rows + [s.row + [s.cell]] else s.rows
  }

  function Rows(text: string, delimiter: char): seq<Row> {
    Finish(text, Run(text, delimiter, 0, START))
  }

  method CsvRows(text: string, delimiter: char) returns (rows: seq<Row>)
    ensures rows == Rows(text, delimiter)
  {
    rows := [];
    var row: Row := [];
    var cell, quoted, rowStart := "", false, 0;
    var i := 0;
    while i < |text|
      invariant Run(text, delimiter, i, State(rows, row, cell, quoted, rowStart)) == Run(text, delimiter, 0, START)
      decreases |text| - i
    {
      var c := text[i];
      if quoted {
        if c == '"' && i + 1 < |text| && text[i + 1] == '"' {
          cell := cell + ['"'];
          i := i + 1;
        } else if c == '"' {
          quoted := false;
        } else {
          cell := cell + [c];
        }
      } else if c == '"' {
        quoted := true;
      } else if c == delimiter {
        row, cell := row + [cell], "";
      } else if EndsRow(c) {
        if c == '\r' && i + 1 < |text| && text[i + 1] == '\n' {
          i := i + 1;
        }
        row := row + [cell];
        rows := rows + [row];
        row, cell, rowStart := [], "", i + 1;
      } else {
        cell := cell + [c];
      }
      i := i + 1;
    }
    if rowStart < |text| {
      rows := rows + [row + [cell]];
    }
  }

  // ---- printing ----

  function Doubled(s: string): string {
    if s == [] then [] else (if s[0] == '"' then ['"', '"'] else [s[0]]) + Doubled(s[1..])
  }

  predicate NeedsQuotes(s: string, delimiter: char) {
    delimiter in s || '"' in s || '\r' in s || '\n' in s
  }

  function PrintedCell(s: string, delimiter: char): string {
    if NeedsQuotes(s, delimiter) then ['"'] + Doubled(s) + ['"'] else s
  }

  function PrintedRow(row: Row, delimiter: char): string {
    if row == [] then ""
    else if |row| == 1 then PrintedCell(row[0], delimiter)
    else PrintedCell(row[0], delimiter) + [delimiter] + PrintedRow(row[1..], delimiter)
  }

  /** Every row printed with a line end after it. */
  function PrintedLines(rows: seq<Row>, delimiter: char, eol: string): string {
    if rows == [] then "" else PrintedRow(rows[0], delimiter) + (eol + PrintedLines(rows[1..], delimiter, eol))
  }

  /** Rows joined by a line end: each but the last has one after it. */
  function Printed(rows: seq<Row>, delimiter: char, eol: string): string {
    if rows == [] then ""
    else PrintedLines(rows[..|rows| - 1], delimiter, eol) + PrintedRow(rows[|rows| - 1], delimiter)
  }

  const CRLF: string := "\r\n"

  function CsvOf(rows: seq<Row>, delimiter: char): string {
    Printed(rows, delimiter, CRLF)
  }

  // ---- a printed cell is read ----

  predicate Plain(delimiter: char) {
    delimiter != '"' && delimiter != '\r' && delimiter != '\n'
  }

  /** The text goes on at `i` with something that ends a cell, or not at all. */
  predicate CellEnds(text: string, delimiter: char, i: nat) {
    i == |text| || (i < |text| && (text[i] == delimiter || EndsRow(text[i])))
  }

  lemma {:induction false} PlainCellIsRead(text: string, delimiter: char, i: nat, s: State, cell: string)
    requires StartsAt(text, cell, i) && !NeedsQuotes(cell, delimiter) && !s.quoted
    ensures Run(text, delimiter, i, s) == Run(text, delimiter, i + |cell|, s.(cell := s.cell + cell))
    decreases |cell|
  {
    if cell == [] {
      assert s.cell + cell == s.cell;
    } else {
      assert cell == [cell[0]] + cell[1..];
      PartsStart(text, [cell[0]], cell[1..], i);
      CharAt(text, cell, i, 0);
      var next := s.(cell := s.cell + [cell[0]]);
      assert Turn(text, delimiter, i, s) == (next, i + 1);
      PlainCellIsRead(text, delimiter, i + 1, next, cell[1..]);
      assert next.cell + cell[1..] == s.cell + cell;
    }
  }

  lemma QuotedCharIsRead(text: string, delimiter: char, i: nat, s: State, c: char)
    requires s.quoted && StartsAt(text, if c == '"' then ['"', '"'] else [c], i)
    ensures Run(text, delimiter, i, s)
         == Run(text, delimiter, i + (if c == '"' then 2 else 1), s.(cell := s.cell + [c]))
  {
    var head := if c == '"' then ['"', '"'] else [c];
    CharAt(text, head, i, 0);
    if c == '"' {
      CharAt(text, head, i, 1);
    }
  }

  lemma ClosingQuoteIsRead(text: string, delimiter: char, i: nat, s: State)
    requires s.quoted && i < |text| && text[i] == '"' && (i + 1 == |text| || text[i + 1] != '"')
    ensures Run(text, delimiter, i, s) == Run(text, delimiter, i + 1, s.(quoted := false))
  {
  }

  lemma OpeningQuoteIsRead(text: string, delimiter: char, i: nat, s: State)
    requires !s.quoted && i < |text| && text[i] == '"'
    ensures Run(text, delimiter, i, s) == Run(text, delimiter, i + 1, s.(quoted := true))
  {
  }

  lemma DelimiterIsRead(text: string, delimiter: char, i: nat, s: State)
    requires Plain(delimiter) && !s.quoted && i < |text| && text[i] == delimiter
    ensures Run(text, delimiter, i, s) == Run(text, delimiter, i + 1, s.(row := s.row + [s.cell], cell := ""))
  {
  }

  lemma BreakIsRead(text: string, delimiter: char, i: nat, s: State)
    requires Plain(delimiter) && !s.quoted && i < |text| && EndsRow(text[i])
    ensures Run(text, delimiter, i, s)
         == Run(text, delimiter, AfterBreak(text, i),
                State(s.rows + [s.row + [s.cell]], [], "", false, AfterBreak(text, i)))
  {
  }

  lemma {:induction false} QuotedCellIsRead(text: string, delimiter: char, i: nat, s: State, cell: string)
    requires StartsAt(text, Doubled(cell) + ['"'], i) && s.quoted
    requires var end := i + |Doubled(cell)| + 1; end == |text| || text[end] != '"'
    ensures Run(text, delimiter, i, s)
         == Run(text, delimiter, i + |Doubled(cell)| + 1, s.(cell := s.cell + cell, quoted := false))
    decreases |cell|
  {
    if cell == [] {
      CharAt(text, ['"'], i, 0);
      assert s.cell + cell == s.cell;
      ClosingQuoteIsRead(text, delimiter, i, s);
    } else {
      var head := if cell[0] == '"' then ['"', '"'] else [cell[0]];
      assert Doubled(cell) + ['"'] == head + (Doubled(cell[1..]) + ['"']);
      PartsStart(text, head, Doubled(cell[1..]) + ['"'], i);
      QuotedCharIsRead(text, delimiter, i, s, cell[0]);
      var next := s.(cell := s.cell + [cell[0]]);
      QuotedCellIsRead(text, delimiter, i + |head|, next, cell[1..]);
      assert next.cell + cell[1..] == s.cell + cell;
    }
  }

  lemma QuotesAreRead(text: string, delimiter: char, i: nat, s: State, cell: string)
    requires !s.quoted && s.cell == "" && StartsAt(text, ['"'] + (Doubled(cell) + ['"']), i)
    requires var end := i + |Doubled(cell)| + 2; end == |text| || text[end] != '"'
    ensures Run(text, delimiter, i, s) == Run(text, delimiter, i + |Doubled(cell)| + 2, s.(cell := cell))
  {
    PartsStart(text, ['"'], Doubled(cell) + ['"'], i);
    CharAt(text, ['"'], i, 0);
    OpeningQuoteIsRead(text, delimiter, i, s);
    QuotedCellIsRead(text, delimiter, i + 1, s.(quoted := true), cell);
    assert "" + cell == cell;
  }

  lemma CellIsRead(text: string, delimiter: char, i: nat, s: State, cell: string)
    requires Plain(delimiter) && !s.quoted && s.cell == ""
    requires StartsAt(text, PrintedCell(cell, delimiter), i)
    requires CellEnds(text, delimiter, i + |PrintedCell(cell, delimiter)|)
    ensures Run(text, delimiter, i, s)
         == Run(text, delimiter, i + |PrintedCell(cell, delimiter)|, s.(cell := cell))
  {
    if NeedsQuotes(cell, delimiter) {
      assert PrintedCell(cell, delimiter) == ['"'] + (Doubled(cell) + ['"']);
      QuotesAreRead(text, delimiter, i, s, cell);
    } else {
      assert "" + cell == cell;
      PlainCellIsRead(text, delimiter, i, s, cell);
    }
  }

  /** A printed cell and the delimiter after it put the cell in the row. */
  lemma CellAndDelimiterAreRead(text: string, delimiter: char, i: nat, s: State, cell: string, rest: string)
    requires Plain(delimiter) && !s.quoted && s.cell == ""
    requires StartsAt(text, PrintedCell(cell, delimiter) + ([delimiter] + rest), i)
    ensures StartsAt(text, rest, i + |PrintedCell(cell, delimiter)| + 1)
    ensures Run(text, delimiter, i, s)
         == Run(text, delimiter, i + |PrintedCell(cell, delimiter)| + 1, s.(row := s.row + [cell]))
  {
    var end := i + |PrintedCell(cell, delimiter)|;
    PartsStart(text, PrintedCell(cell, delimiter), [delimiter] + rest, i);
    PartsStart(text, [delimiter], rest, end);
    CharAt(text, [delimiter], end, 0);
    CellIsRead(text, delimiter, i, s, cell);
    DelimiterIsRead(text, delimiter, end, s.(cell := cell));
  }

  /** The state at the end of a row's text: all its cells but the last are in the row, and the last is being read. */
  function InLastCell(s: State, row: Row): State
    requires row != []
  {
    s.(row := s.row + row[..|row| - 1], cell := row[|row| - 1])
  }

  lemma LastCellOfMore(s: State, row: Row)
    requires |row| > 1
    ensures InLastCell(s.(row := s.row + [row[0]]), row[1..]) == InLastCell(s, row)
  {
    assert s.row + row[..|row| - 1] == s.row + [row[0]] + row[1..][..|row| - 2];
  }

  /** A printed row is read up to its last cell, which is still being read at its end. */
  lemma {:induction false} RowIsRead(text: string, delimiter: char, i: nat, s: State, row: Row)
    requires Plain(delimiter) && !s.quoted && s.cell == "" && row != []
    requires StartsAt(text, PrintedRow(row, delimiter), i)
    requires CellEnds(text, delimiter, i + |PrintedRow(row, delimiter)|)
    ensures Run(text, delimiter, i, s) == Run(text, delimiter, i + |PrintedRow(row, delimiter)|, InLastCell(s, row))
    decreases |row|
  {
    if |row| == 1 {
      CellIsRead(text, delimiter, i, s, row[0]);
      assert s.row + row[..0] == s.row;
    } else {
      var next := FirstCellIsRead(text, delimiter, i, s, row);
      RowIsRead(text, delimiter, next, s.(row := s.row + [row[0]]), row[1..]);
      LastCellOfMore(s, row);
    }
  }

  lemma FirstCellIsRead(text: string, delimiter: char, i: nat, s: State, row: Row) returns (next: nat)
    requires Plain(delimiter) && !s.quoted && s.cell == "" && |row| > 1
    requires StartsAt(text, PrintedRow(row, delimiter), i)
    ensures Run(text, delimiter, i, s) == Run(text, delimiter, next, s.(row := s.row + [row[0]]))
    ensures StartsAt(text, PrintedRow(row[1..], delimiter), next)
    ensures next + |PrintedRow(row[1..], delimiter)| == i + |PrintedRow(row, delimiter)|
  {
    next := i + |PrintedCell(row[0], delimiter)| + 1;
    MoreThanOneCell(row, delimiter, PrintedRow(row[1..], delimiter));
    CellAndDelimiterAreRead(text, delimiter, i, s, row[0], PrintedRow(row[1..], delimiter));
  }

  lemma MoreThanOneCell(row: Row, delimiter: char, rest: string)
    requires |row| > 1 && rest == PrintedRow(row[1..], delimiter)
    ensures PrintedRow(row, delimiter) == PrintedCell(row[0], delimiter) + ([delimiter] + rest)
    ensures |PrintedRow(row, delimiter)| == |PrintedCell(row[0], delimiter)| + 1 + |rest|
  {
  }

  // ---- printed rows are read ----

  predicate IsEol(eol: string) {
    eol == "\n" || eol == "\r" || eol == "\r\n"
  }

  /** At the start of a line, with so many rows read. */
  function AtLine(rows: seq<Row>, i: nat): State {
    State(rows, [], "", false, i)
  }

  /** The line end, whichever it is, is one break. */
  lemma EolIsOneBreak(text: string, eol: string, i: nat)
    requires IsEol(eol) && StartsAt(text, eol, i) && (eol == "\r" ==> NoBreakAt(text, i + 1))
    ensures i < |text| && EndsRow(text[i]) && AfterBreak(text, i) == i + |eol|
  {
    CharAt(text, eol, i, 0);
    if |eol| == 2 {
      CharAt(text, eol, i, 1);
    }
  }

  lemma RowEnds(s: State, row: Row)
    requires row != [] && s.row == []
    ensures var last := InLastCell(s, row); last.row + [last.cell] == row && last.rows == s.rows
  {
  }

  lemma RowBreakIsRead(text: string, delimiter: char, stop: nat, s: State, row: Row, next: nat)
    requires Plain(delimiter) && !s.quoted && s.row == [] && row != []
    requires stop < |text| && EndsRow(text[stop]) && AfterBreak(text, stop) == next
    ensures Run(text, delimiter, stop, InLastCell(s, row)) == Run(text, delimiter, next, AtLine(s.rows + [row], next))
  {
    RowEnds(s, row);
    BreakIsRead(text, delimiter, stop, InLastCell(s, row));
  }

  /** A row and the line end after it are read as one row. */
  lemma LineIsRead(text: string, delimiter: char, eol: string, i: nat, rows: seq<Row>, row: Row)
    requires Plain(delimiter) && IsEol(eol) && row != []
    requires StartsAt(text, PrintedRow(row, delimiter), i)
    requires StartsAt(text, eol, i + |PrintedRow(row, delimiter)|)
    requires eol == "\r" ==> NoBreakAt(text, i + |PrintedRow(row, delimiter)| + 1)
    ensures var end := i + |PrintedRow(row, delimiter)| + |eol|;
      Run(text, delimiter, i, AtLine(rows, i)) == Run(text, delimiter, end, AtLine(rows + [row], end))
  {
    var stop := i + |PrintedRow(row, delimiter)|;
    assert stop < |text| && EndsRow(text[stop]) && AfterBreak(text, stop) == stop + |eol| by {
      EolIsOneBreak(text, eol, stop);
    }
    RowIsRead(text, delimiter, i, AtLine(rows, i), row);
    RowBreakIsRead(text, delimiter, stop, AtLine(rows, i), row, stop + |eol|);
  }

  /** No LF stands at `i`, so a CR before it is a line end of its own. */
  predicate NoBreakAt(text: string, i: nat) {
    i >= |text| || text[i] != '\n'
  }

  lemma PrintedCellStart(cell: string, delimiter: char)
    ensures PrintedCell(cell, delimiter) != [] ==> PrintedCell(cell, delimiter)[0] != '\n'
  {
  }

  lemma PrintedRowStart(row: Row, delimiter: char)
    requires Plain(delimiter)
    ensures PrintedRow(row, delimiter) != [] ==> PrintedRow(row, delimiter)[0] != '\n'
  {
    if row != [] {
      PrintedCellStart(row[0], delimiter);
    }
  }

  predicate NoEmptyRow(rows: seq<Row>) {
    forall i :: 0 <= i < |rows| ==> rows[i] != []
  }

  lemma LinesStart(text: string, rows: seq<Row>, delimiter: char, i: nat)
    requires Plain(delimiter) && StartsAt(text, PrintedLines(rows, delimiter, "\r"), i)
    requires NoBreakAt(text, i + |PrintedLines(rows, delimiter, "\r")|)
    ensures NoBreakAt(text, i)
  {
    if rows != [] {
      var (line, all) := (PrintedRow(rows[0], delimiter), PrintedLines(rows, delimiter, "\r"));
      PrintedRowStart(rows[0], delimiter);
      assert all[0] == if line == [] then '\r' else line[0];
      CharAt(text, all, i, 0);
    }
  }

  lemma FirstLine(text: string, rows: seq<Row>, delimiter: char, eol: string, i: nat, next: nat)
    requires rows != [] && StartsAt(text, PrintedLines(rows, delimiter, eol), i)
    requires next == i + |PrintedRow(rows[0], delimiter)| + |eol|
    ensures StartsAt(text, PrintedRow(rows[0], delimiter), i)
    ensures StartsAt(text, eol, i + |PrintedRow(rows[0], delimiter)|)
    ensures StartsAt(text, PrintedLines(rows[1..], delimiter, eol), next)
    ensures i + |PrintedLines(rows, delimiter, eol)| == next + |PrintedLines(rows[1..], delimiter, eol)|
  {
    var (line, rest) := (PrintedRow(rows[0], delimiter), PrintedLines(rows[1..], delimiter, eol));
    PartsStart(text, line, eol + rest, i);
    PartsStart(text, eol, rest, i + |line|);
  }

  /** From the start of the line at `i` to that at `j`, the reader adds rows and nothing else. */
  predicate ReadTo(text: string, delimiter: char, i: nat, before: seq<Row>, j: nat, after: seq<Row>) {
    Run(text, delimiter, i, AtLine(before, i)) == Run(text, delimiter, j, AtLine(after, j))
  }

  lemma FirstLineIsRead(
      text: string, delimiter: char, eol: string, i: nat, before: seq<Row>, rows: seq<Row>)
      returns (next: nat)
    requires Plain(delimiter) && IsEol(eol) && NoEmptyRow(rows) && rows != []
    requires StartsAt(text, PrintedLines(rows, delimiter, eol), i)
    requires NoBreakAt(text, i + |PrintedLines(rows, delimiter, eol)|)
    ensures ReadTo(text, delimiter, i, before, next, before + [rows[0]])
    ensures StartsAt(text, PrintedLines(rows[1..], delimiter, eol), next)
    ensures i + |PrintedLines(rows, delimiter, eol)| == next + |PrintedLines(rows[1..], delimiter, eol)|
  {
    next := i + |PrintedRow(rows[0], delimiter)| + |eol|;
    FirstLine(text, rows, delimiter, eol, i, next);
    assert eol == "\r" ==> NoBreakAt(text, next) by {
      if eol == "\r" {
        LinesStart(text, rows[1..], delimiter, next);
      }
    }
    LineReadsTo(text, delimiter, eol, i, before, rows[0], next);
  }

  lemma LineReadsTo(text: string, delimiter: char, eol: string, i: nat, rows: seq<Row>, row: Row, next: nat)
    requires Plain(delimiter) && IsEol(eol) && row != []
    requires StartsAt(text, PrintedRow(row, delimiter), i) && StartsAt(text, eol, i + |PrintedRow(row, delimiter)|)
    requires next == i + |PrintedRow(row, delimiter)| + |eol| && (eol == "\r" ==> NoBreakAt(text, next))
    ensures ReadTo(text, delimiter, i, rows, next, rows + [row])
  {
    LineIsRead(text, delimiter, eol, i, rows, row);
  }

  /** Printed lines are read as their rows, and the reader then stands at the start of a line. */
  lemma {:induction false} LinesAreRead(
      text: string, delimiter: char, eol: string, i: nat, before: seq<Row>, rows: seq<Row>)
    requires Plain(delimiter) && IsEol(eol) && NoEmptyRow(rows)
    requires StartsAt(text, PrintedLines(rows, delimiter, eol), i)
    requires NoBreakAt(text, i + |PrintedLines(rows, delimiter, eol)|)
    ensures ReadTo(text, delimiter, i, before, i + |PrintedLines(rows, delimiter, eol)|, before + rows)
    decreases |rows|
  {
    if rows == [] {
      assert before + rows == before;
    } else {
      var next := FirstLineIsRead(text, delimiter, eol, i, before, rows);
      LinesAreRead(text, delimiter, eol, next, before + [rows[0]], rows[1..]);
      assert before + [rows[0]] + rows[1..] == before + rows;
    }
  }

  /** Text whose every row has a line end after it reads back, whichever line end it uses. */
  lemma LinesReadBack(rows: seq<Row>, delimiter: char, eol: string)
    requires Plain(delimiter) && IsEol(eol) && NoEmptyRow(rows)
    ensures Rows(PrintedLines(rows, delimiter, eol), delimiter) == rows
  {
    var text := PrintedLines(rows, delimiter, eol);
    assert text[0..|text|] == text;
    LinesAreRead(text, delimiter, eol, 0, [], rows);
    assert [] + rows == rows;
  }

  /** A row that prints as nothing is the row of one empty cell, or has no cell. */
  lemma BlankRow(row: Row, delimiter: char)
    ensures PrintedRow(row, delimiter) == "" <==> row == [] || row == [""]
  {
  }

  /**
   What the printed text of a table without empty rows reads back as: the table, less a last row
   of one empty cell.
   */
  lemma PrintedReadsAs(rows: seq<Row>, delimiter: char, eol: string)
    requires Plain(delimiter) && IsEol(eol) && NoEmptyRow(rows) && rows != []
    ensures Rows(Printed(rows, delimiter, eol), delimiter)
         == if rows[|rows| - 1] == [""] then rows[..|rows| - 1] else rows
  {
    var n := |rows| - 1;
    var (lines, line) := (PrintedLines(rows[..n], delimiter, eol), PrintedRow(rows[n], delimiter));
    var text := lines + line;
    assert Rows(text, delimiter) == if line == "" then rows[..n] else rows[..n] + [rows[n]] by {
      assert text[0..|text|] == text;
      PartsStart(text, lines, line, 0);
      LastLineIsRead(text, delimiter, eol, rows[..n], rows[n]);
    }
    BlankRow(rows[n], delimiter);
    assert rows[..n] + [rows[n]] == rows;
  }

  lemma LastLineIsRead(text: string, delimiter: char, eol: string, rows: seq<Row>, row: Row)
    requires Plain(delimiter) && IsEol(eol) && NoEmptyRow(rows) && row != []
    requires text == PrintedLines(rows, delimiter, eol) + PrintedRow(row, delimiter)
    requires StartsAt(text, PrintedLines(rows, delimiter, eol), 0)
    requires StartsAt(text, PrintedRow(row, delimiter), |PrintedLines(rows, delimiter, eol)|)
    ensures Rows(text, delimiter) == if PrintedRow(row, delimiter) == "" then rows else rows + [row]
  {
    var i := |PrintedLines(rows, delimiter, eol)|;
    assert NoBreakAt(text, i) by {
      PrintedRowStart(row, delimiter);
    }
    LinesAreRead(text, delimiter, eol, 0, [], rows);
    assert [] + rows == rows;
    if PrintedRow(row, delimiter) != "" {
      Unended(text, delimiter, i, rows, row);
    }
  }

  /** A last row without a line end is read at the end of the text. */
  lemma Unended(text: string, delimiter: char, i: nat, rows: seq<Row>, row: Row)
    requires Plain(delimiter) && row != [] && i < |text|
    requires StartsAt(text, PrintedRow(row, delimiter), i) && i + |PrintedRow(row, delimiter)| == |text|
    ensures Finish(text, Run(text, delimiter, i, AtLine(rows, i))) == rows + [row]
  {
    RowIsRead(text, delimiter, i, AtLine(rows, i), row);
    RowEnds(AtLine(rows, i), row);
  }

  // ---- reading never makes an empty row ----

  lemma {:induction false} RunMakesNoEmptyRow(text: string, delimiter: char, i: nat, s: State)
    requires NoEmptyRow(s.rows)
    ensures NoEmptyRow(Run(text, delimiter, i, s).rows)
    decreases |text| - i
  {
    if i < |text| {
      var (next, j) := Turn(text, delimiter, i, s);
      RunMakesNoEmptyRow(text, delimiter, j, next);
    }
  }

  /** Printed CSV reads back as its rows exactly when no row is empty and the last is not one empty cell. */
  lemma PrintedReadsBackWhen(rows: seq<Row>, delimiter: char)
    requires Plain(delimiter)
    ensures Rows(CsvOf(rows, delimiter), delimiter) == rows
       <==> NoEmptyRow(rows) && (rows != [] ==> rows[|rows| - 1] != [""])
  {
    RunMakesNoEmptyRow(CsvOf(rows, delimiter), delimiter, 0, START);
    if NoEmptyRow(rows) && rows != [] {
      PrintedReadsAs(rows, delimiter, CRLF);
      assert |rows[..|rows| - 1]| != |rows|;
    }
  }
}
