/**
 The CSV reader of packages/sdk/src/display.ts, a character machine, against the
 texts RFC 4180 allows for the same records.
 */
module Csv {
  import opened Sequences

  datatype Result = Records(rows: seq<seq<string>>) | Invalid

  const MAX_LENGTH := 64_000

  /** The variables of the loop: finished rows, the row and field being read, and whether a quote is open. */
  datatype State = State(rows: seq<seq<string>>, row: seq<string>, field: string, quoted: bool)

  const START := State([], [], "", false)

  /** `field.replace(/\r$/, '')` */
  function StripCr(field: string): string {
    if field != "" && field[|field| - 1] == '\r' then field[..|field| - 1] else field
  }

  predicate HasText(row: seq<string>) {
    exists i :: 0 <= i < |row| && row[i] != ""
  }

  /** A finished row is kept when some field of it has text. */
  function Keep(rows: seq<seq<string>>, row: seq<string>): seq<seq<string>> {
    if HasText(row) then rows + [row] else rows
  }

  function EndRow(st: State): State {
    State(Keep(st.rows, st.row + [StripCr(st.field)]), [], "", false)
  }

  /** One turn of the loop: the result, or the text left and the next state. */
  datatype Move = Stop(result: Result) | Next(rest: string, st: State)

  function Step(csv: string, st: State): (m: Move)
    ensures m.Next? ==> |m.rest| < |csv|
  {
    if csv == "" then
      if st.quoted then Stop(Invalid)
      else if st.field != "" || st.row != [] then Stop(Records(EndRow(st).rows))
      else Stop(Records(st.rows))
    else if st.quoted then
      if csv[0] == '"' && |csv| >= 2 && csv[1] == '"' then Next(csv[2..], st.(field := st.field + ['"']))
      else if csv[0] == '"' then Next(csv[1..], st.(quoted := false))
      else Next(csv[1..], st.(field := st.field + [csv[0]]))
    else if csv[0] == '"' then
      if st.field != "" then Stop(Invalid) else Next(csv[1..], st.(quoted := true))
    else if csv[0] == ',' then Next(csv[1..], st.(row := st.row + [st.field], field := ""))
    else if csv[0] == '\n' then Next(csv[1..], EndRow(st))
    else Next(csv[1..], st.(field := st.field + [csv[0]]))
  }

  /** The machine from a state over the text that is left. */
  function Parse(csv: string, st: State): Result
    decreases |csv|
  {
    match Step(csv, st)
    case Stop(result) => result
    case Next(rest, next) => Parse(rest, next)
  }

  function RecordsOf(csv: string): Result {
    if |csv| > MAX_LENGTH then Invalid else Parse(csv, START)
  }

  /** `csvRecords(csv)`: the index loop, `Invalid` being its throws. */
  method CsvRecords(csv: string) returns (result: Result)
    ensures result == RecordsOf(csv)
  {
    if |csv| > MAX_LENGTH {
      return Invalid;
    }
    var rows: seq<seq<string>> := [];
    var row: seq<string> := [];
    var field := "";
    var quoted := false;
    var index := 0;
    assert csv[0..] == csv;
    while index < |csv|
      invariant 0 <= index <= |csv|
      invariant Parse(csv, START) == Parse(csv[index..], State(rows, row, field, quoted))
    {
      var character := csv[index];
      var rest := csv[index..];
      assert rest[1..] == csv[index + 1..];
      if quoted {
        if character == '"' && index + 1 < |csv| && csv[index + 1] == '"' {
          assert rest[2..] == csv[index + 2..];
          field := field + ['"'];
          index := index + 1;
        } else if character == '"' {
          quoted := false;
        } else {
          field := field + [character];
        }
      } else if character == '"' {
        if field != "" {
          return Invalid;
        }
        quoted := true;
      } else if character == ',' {
        row := row + [field];
        field := "";
      } else if character == '\n' {
        row := row + [StripCr(field)];
        if HasText(row) {
          rows := rows + [row];
        }
        row := [];
        field := "";
      } else {
        field := field + [character];
      }
      index := index + 1;
    }
    assert csv[index..] == "";
    if quoted {
      return Invalid;
    }
    if field != "" || row != [] {
      row := row + [StripCr(field)];
      if HasText(row) {
        rows := rows + [row];
      }
    }
    return Records(rows);
  }

  // ------------------------------------------------------------------- spellings

  /** A field written between quotes, its quotes doubled, or as it is when nothing in it needs quoting. */
  datatype Cell = Cell(text: string, quoted: bool)
  {
    predicate Valid() {
      !quoted ==> NeedsNoQuotes(text)
    }
  }

  predicate NeedsNoQuotes(text: string) {
    forall i :: 0 <= i < |text| ==> text[i] !in "\",\r\n"
  }

  datatype Ending = CrLf | Lf

  datatype Line = Line(cells: seq<Cell>, ending: Ending)

  function Doubled(text: string): string {
    if text == "" then "" else (if text[0] == '"' then "\"\"" else [text[0]]) + Doubled(text[1..])
  }

  function WriteCell(cell: Cell): string {
    if cell.quoted then "\"" + Doubled(cell.text) + "\"" else cell.text
  }

  function WriteCells(cells: seq<Cell>): string {
    if cells == [] then ""
    else if |cells| == 1 then WriteCell(cells[0])
    else WriteCell(cells[0]) + "," + WriteCells(cells[1..])
  }

  function EndingText(ending: Ending): string {
    if ending == CrLf then "\r\n" else "\n"
  }

  function WriteLines(lines: seq<Line>): string {
    if lines == [] then "" else WriteCells(lines[0].cells) + EndingText(lines[0].ending) + WriteLines(lines[1..])
  }

  predicate ValidCells(cells: seq<Cell>) {
    forall i :: 0 <= i < |cells| ==> cells[i].Valid()
  }

  predicate ValidLines(lines: seq<Line>) {
    forall i :: 0 <= i < |lines| ==> ValidCells(lines[i].cells)
  }

  function Texts(cells: seq<Cell>): (texts: seq<string>)
    ensures |texts| == |cells|
  {
    if cells == [] then [] else [cells[0].text] + Texts(cells[1..])
  }

  /** The record a line is read as: without CRLF, a carriage return that ends its last field is lost. */
  function ReadAs(cells: seq<Cell>, ending: Ending): seq<string> {
    var texts := Texts(cells);
    if texts == [] then [""]
    else if ending == CrLf then texts
    else texts[..|texts| - 1] + [StripCr(texts[|texts| - 1])]
  }

  /** The records of lines, blank ones dropped. */
  function ReadLines(lines: seq<Line>): seq<seq<string>> {
    if lines == [] then [] else Keep([], ReadAs(lines[0].cells, lines[0].ending)) + ReadLines(lines[1..])
  }

  // ---------------------------------------------------------------------- proofs

  /** One character of a quoted field, its quote doubled. */
  lemma {:induction false} ParseQuotedChar(c: char, tail: string, st: State)
    requires st.quoted
    ensures Parse((if c == '"' then "\"\"" else [c]) + tail, st) == Parse(tail, st.(field := st.field + [c]))
  {
    assert ("\"\"" + tail)[2..] == tail && ([c] + tail)[1..] == tail;
  }

  lemma {:induction false} ParseClosingQuote(rest: string, st: State)
    requires st.quoted && (rest == "" || rest[0] != '"')
    ensures Parse("\"" + rest, st) == Parse(rest, st.(quoted := false))
  {
    assert ("\"" + rest)[1..] == rest;
  }

  /** Behind an open quote, the doubled text up to its closing quote. */
  lemma {:induction false} ParseQuoted(text: string, rest: string, st: State)
    requires st.quoted && (rest == "" || rest[0] != '"')
    ensures Parse(Doubled(text) + "\"" + rest, st) == Parse(rest, st.(field := st.field + text, quoted := false))
  {
    if text == "" {
      ParseClosingQuote(rest, st);
      assert Doubled(text) + "\"" + rest == "\"" + rest;
      assert st.field + text == st.field;
    } else {
      QuotedHead(text, rest);
      ParseQuotedChar(text[0], Doubled(text[1..]) + "\"" + rest, st);
      ParseQuoted(text[1..], rest, st.(field := st.field + [text[0]]));
      FieldGrows(st.field, text);
    }
  }

  lemma {:induction false} QuotedHead(text: string, rest: string)
    requires text != ""
    ensures Doubled(text) + "\"" + rest == (if text[0] == '"' then "\"\"" else [text[0]])
      + (Doubled(text[1..]) + "\"" + rest)
  {
    RegroupFour(if text[0] == '"' then "\"\"" else [text[0]], Doubled(text[1..]), "\"", rest);
  }

  lemma {:induction false} FieldGrows(field: string, text: string)
    requires text != ""
    ensures field + [text[0]] + text[1..] == field + text
  {
  }

  lemma {:induction false} ParseRaw(text: string, rest: string, st: State)
    requires !st.quoted && NeedsNoQuotes(text)
    ensures Parse(text + rest, st) == Parse(rest, st.(field := st.field + text))
  {
    if text == "" {
      assert text + rest == rest && st.field + text == st.field;
    } else {
      var next := st.(field := st.field + [text[0]]);
      assert (text + rest)[1..] == text[1..] + rest;
      assert text[0] !in "\",\r\n";
      ParseRaw(text[1..], rest, next);
      assert next.field + text[1..] == st.field + text;
    }
  }

  lemma {:induction false} ParseCell(cell: Cell, rest: string, st: State)
    requires cell.Valid() && !st.quoted && st.field == "" && (rest == "" || rest[0] != '"')
    ensures Parse(WriteCell(cell) + rest, st) == Parse(rest, st.(field := cell.text))
  {
    assert st.field + cell.text == cell.text;
    if cell.quoted {
      var open := st.(quoted := true);
      RegroupFour("\"", Doubled(cell.text), "\"", rest);
      var inner := Doubled(cell.text) + "\"" + rest;
      assert ("\"" + inner)[1..] == inner;
      ParseQuoted(cell.text, rest, open);
    } else {
      ParseRaw(cell.text, rest, st);
    }
  }

  lemma {:induction false} ParseCellAndComma(cell: Cell, more: string, st: State)
    requires cell.Valid() && !st.quoted && st.field == ""
    ensures Parse(WriteCell(cell) + ("," + more), st) == Parse(more, st.(row := st.row + [cell.text]))
  {
    ParseCell(cell, "," + more, st);
    assert ("," + more)[1..] == more;
  }

  /** Between cells: all texts but the last are in the row, the last is the field. */
  function AfterCells(st: State, texts: seq<string>): State
    requires texts != []
  {
    st.(row := st.row + texts[..|texts| - 1], field := texts[|texts| - 1])
  }

  lemma {:induction false} AfterFirstCell(st: State, texts: seq<string>)
    requires |texts| >= 2
    ensures AfterCells(st.(row := st.row + [texts[0]]), texts[1..]) == AfterCells(st, texts)
  {
    assert st.row + [texts[0]] + texts[1..][..|texts| - 2] == st.row + texts[..|texts| - 1];
  }

  lemma {:induction false} ParseCells(cells: seq<Cell>, rest: string, st: State)
    requires cells != [] && ValidCells(cells)
    requires !st.quoted && st.field == "" && (rest == "" || rest[0] != '"')
    ensures Parse(WriteCells(cells) + rest, st) == Parse(rest, AfterCells(st, Texts(cells)))
  {
    var texts := Texts(cells);
    if |cells| == 1 {
      ParseCell(cells[0], rest, st);
      assert st.row + texts[..0] == st.row;
    } else {
      var first, more := WriteCell(cells[0]), WriteCells(cells[1..]);
      RegroupFour(first, ",", more, rest);
      assert first + "," + more == first + ("," + more);
      ParseCellAndComma(cells[0], more + rest, st);
      ParseCells(cells[1..], rest, st.(row := st.row + [cells[0].text]));
      AfterFirstCell(st, texts);
      assert texts[1..] == Texts(cells[1..]);
    }
  }

  lemma {:induction false} ParseLine(line: Line, rest: string, rows: seq<seq<string>>)
    requires ValidCells(line.cells)
    ensures
      var row := ReadAs(line.cells, line.ending);
      Parse(WriteCells(line.cells) + EndingText(line.ending) + rest, State(rows, [], "", false))
        == Parse(rest, State(Keep(rows, row), [], "", false))
  {
    var written, ending := WriteCells(line.cells), EndingText(line.ending);
    var st := State(rows, [], "", false);
    if line.cells == [] {
      assert written + ending + rest == ending + rest;
      ParseEnding(line.ending, rest, st);
    } else {
      assert written + ending + rest == written + (ending + rest);
      ParseCells(line.cells, ending + rest, st);
      ParseEnding(line.ending, rest, AfterCells(st, Texts(line.cells)));
      RowAfterCells(line, st);
    }
  }

  lemma {:induction false} RowAfterCells(line: Line, st: State)
    requires line.cells != [] && st.row == []
    ensures
      var after := AfterCells(st, Texts(line.cells));
      after.row + [if line.ending == CrLf then after.field else StripCr(after.field)] == ReadAs(line.cells, line.ending)
  {
    var texts := Texts(line.cells);
    assert texts[..|texts| - 1] + [texts[|texts| - 1]] == texts;
    assert [] + texts[..|texts| - 1] == texts[..|texts| - 1];
  }

  /** A line ending closes the row; the carriage return of a CRLF is the one that is stripped. */
  lemma {:induction false} ParseEnding(ending: Ending, rest: string, st: State)
    requires !st.quoted
    ensures
      var row := st.row + [if ending == CrLf then st.field else StripCr(st.field)];
      Parse(EndingText(ending) + rest, st)
        == Parse(rest, State(Keep(st.rows, row), [], "", false))
  {
    if ending == CrLf {
      var next := st.(field := st.field + ['\r']);
      assert ("\r\n" + rest)[1..] == "\n" + rest && ("\n" + rest)[1..] == rest;
      assert StripCr(next.field) == st.field;
    } else {
      assert ("\n" + rest)[1..] == rest;
    }
  }

  lemma {:induction false} ParseLines(lines: seq<Line>, rest: string, rows: seq<seq<string>>)
    requires ValidLines(lines)
    ensures Parse(WriteLines(lines) + rest, State(rows, [], "", false))
      == Parse(rest, State(rows + ReadLines(lines), [], "", false))
  {
    if lines == [] {
      assert WriteLines(lines) + rest == rest && rows + ReadLines(lines) == rows;
    } else {
      var row := ReadAs(lines[0].cells, lines[0].ending);
      var more := WriteLines(lines[1..]) + rest;
      assert WriteLines(lines) + rest == WriteCells(lines[0].cells) + EndingText(lines[0].ending) + more;
      ParseLine(lines[0], more, rows);
      ParseLines(lines[1..], rest, Keep(rows, row));
      KeepThen(rows, row, ReadLines(lines[1..]));
    }
  }

  lemma {:induction false} KeepThen(rows: seq<seq<string>>, row: seq<string>, more: seq<seq<string>>)
    ensures Keep(rows, row) + more == rows + (Keep([], row) + more)
    ensures rows + Keep([], row) == Keep(rows, row)
  {
  }

  /**
   Every spelling of lines within the length limit, whichever fields are quoted,
   with a last line that may lack its ending, is read as their records.
   */
  lemma {:induction false} ReadsEverySpelling(lines: seq<Line>, last: seq<Cell>)
    requires ValidLines(lines) && ValidCells(last)
    requires |WriteLines(lines) + WriteCells(last)| <= MAX_LENGTH
    ensures RecordsOf(WriteLines(lines) + WriteCells(last))
      == Records(ReadLines(lines) + if last == [] then [] else ReadLines([Line(last, Lf)]))
  {
    ParseLines(lines, WriteCells(last), []);
    assert [] + ReadLines(lines) == ReadLines(lines);
    ParseLastLine(last, ReadLines(lines));
    WithinLimit(WriteLines(lines) + WriteCells(last));
  }

  lemma {:induction false} WithinLimit(csv: string)
    requires |csv| <= MAX_LENGTH
    ensures RecordsOf(csv) == Parse(csv, START)
  {
  }

  lemma {:induction false} ParseLastLine(cells: seq<Cell>, rows: seq<seq<string>>)
    requires ValidCells(cells)
    ensures Parse(WriteCells(cells), State(rows, [], "", false))
      == Records(rows + if cells == [] then [] else ReadLines([Line(cells, Lf)]))
  {
    if cells == [] {
      assert rows + [] == rows;
    } else {
      var st := State(rows, [], "", false);
      ParseCells(cells, "", st);
      assert WriteCells(cells) + "" == WriteCells(cells);
      EndOfText(AfterCells(st, Texts(cells)));
      RowAfterCells(Line(cells, Lf), st);
      OneLine(Line(cells, Lf));
      KeepThen(rows, ReadAs(cells, Lf), []);
    }
  }

  lemma {:induction false} OneLine(line: Line)
    ensures ReadLines([line]) == Keep([], ReadAs(line.cells, line.ending))
  {
    assert [line][1..] == [] && ReadLines([]) == [];
  }

  lemma {:induction false} EndOfText(st: State)
    requires !st.quoted
    ensures
      var row := st.row + [StripCr(st.field)];
      Parse("", st) == Records(Keep(st.rows, row))
  {
    if st.field == "" && st.row == [] {
      assert !HasText([""]);
      assert st.row + [StripCr(st.field)] == [""];
    }
  }

  /** A row as RFC 4180 section 2 prints it when every field is quoted and every row ends in CRLF. */
  function QuotedLine(row: seq<string>): (line: Line)
    ensures |line.cells| == |row| && ValidCells(line.cells)
  {
    Line(seq(|row|, i requires 0 <= i < |row| => Cell(row[i], true)), CrLf)
  }

  function QuotedLines(rows: seq<seq<string>>): (lines: seq<Line>)
    ensures ValidLines(lines)
  {
    if rows == [] then [] else [QuotedLine(rows[0])] + QuotedLines(rows[1..])
  }

  lemma {:induction false} TextsOf(cells: seq<Cell>, row: seq<string>)
    requires |cells| == |row| && forall i :: 0 <= i < |row| ==> cells[i].text == row[i]
    ensures Texts(cells) == row
  {
    if cells != [] {
      TextsOf(cells[1..], row[1..]);
    }
  }

  lemma {:induction false} QuotedLinesReadBack(rows: seq<seq<string>>)
    requires forall i :: 0 <= i < |rows| ==> HasText(rows[i])
    ensures ReadLines(QuotedLines(rows)) == rows
  {
    if rows != [] {
      TextsOf(QuotedLine(rows[0]).cells, rows[0]);
      QuotedLinesReadBack(rows[1..]);
      assert QuotedLines(rows)[1..] == QuotedLines(rows[1..]);
    }
  }

  /** The reader inverts the quoting printer on all rows that are not blank. */
  lemma {:induction false} ReadsBackQuoted(rows: seq<seq<string>>)
    requires forall i :: 0 <= i < |rows| ==> HasText(rows[i])
    requires |WriteLines(QuotedLines(rows))| <= MAX_LENGTH
    ensures RecordsOf(WriteLines(QuotedLines(rows))) == Records(rows)
  {
    QuotedLinesReadBack(rows);
    ReadsEverySpelling(QuotedLines(rows), []);
    assert WriteLines(QuotedLines(rows)) + "" == WriteLines(QuotedLines(rows));
    assert rows + [] == rows;
  }

  /** A record survives its line exactly when the line ends in CRLF or its last field in no carriage return. */
  lemma {:induction false} LineKeepsRecordIff(cells: seq<Cell>, ending: Ending)
    requires cells != [] && ValidCells(cells)
    requires |WriteLines([Line(cells, ending)])| <= MAX_LENGTH && HasText(Texts(cells))
    ensures RecordsOf(WriteLines([Line(cells, ending)])) == Records([Texts(cells)]) <==>
      ending == CrLf || StripCr(Texts(cells)[|cells| - 1]) == Texts(cells)[|cells| - 1]
  {
    var line := Line(cells, ending);
    ReadsEverySpelling([line], []);
    assert WriteLines([line]) + "" == WriteLines([line]);
    OneLine(line);
    assert Keep([], ReadAs(cells, ending)) + [] == Keep([], ReadAs(cells, ending));
    SameRecordIff(cells, ending, Texts(cells), ReadAs(cells, ending));
  }

  lemma {:induction false} ReturnLine(line: Line)
    requires line == Line([Cell("a\r", true)], Lf)
    ensures WriteLines([line]) == "\"a\r\"\n" && ReadAs(line.cells, Lf) == ["a"]
  {
    assert Doubled("\r") == "\r" + Doubled("") && "a\r"[1..] == "\r";
    assert Doubled("a\r") == "a\r";
    assert WriteLines([line]) == "\"a\r\"\n" + WriteLines([]);
    assert "a\r"[..1] == "a" && Texts(line.cells) == ["a\r"] && ["a\r"][..0] == [];
  }

  /** A bare line feed takes the carriage return off a quoted field. */
  lemma {:induction false} LineFeedTakesReturn()
    ensures RecordsOf("\"a\r\"\n") == Records([["a"]])
  {
    var line := Line([Cell("a\r", true)], Lf);
    ReturnLine(line);
    ReadsEverySpelling([line], []);
    OneLine(line);
    assert "\"a\r\"\n" + "" == "\"a\r\"\n" && [["a"]] + [] == [["a"]];
    assert ["a"][0] != "";
  }

  lemma {:induction false} SameRecordIff(cells: seq<Cell>, ending: Ending, texts: seq<string>, row: seq<string>)
    requires cells != [] && texts == Texts(cells) && row == ReadAs(cells, ending) && HasText(texts)
    ensures Keep([], row) == [texts] <==> ending == CrLf || StripCr(texts[|texts| - 1]) == texts[|texts| - 1]
  {
    ReadAsIff(cells, ending, texts);
    KeptIs(row, texts);
  }

  lemma {:induction false} ReadAsIff(cells: seq<Cell>, ending: Ending, texts: seq<string>)
    requires cells != [] && texts == Texts(cells)
    ensures ReadAs(cells, ending) == texts <==>
      ending == CrLf || StripCr(texts[|texts| - 1]) == texts[|texts| - 1]
  {
    ReplacedLast(texts, StripCr(texts[|texts| - 1]));
  }

  lemma {:induction false} ReplacedLast(texts: seq<string>, x: string)
    requires texts != []
    ensures texts[..|texts| - 1] + [x] == texts <==> x == texts[|texts| - 1]
  {
    assert (texts[..|texts| - 1] + [x])[|texts| - 1] == x;
  }

  lemma {:induction false} KeptIs(row: seq<string>, texts: seq<string>)
    requires HasText(texts)
    ensures Keep([], row) == [texts] <==> row == texts
  {
    assert [row][0] == row && [texts][0] == texts;
  }
}
