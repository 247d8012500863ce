/** The CSV reader of the credential import and the cell writer that matches it:
    what is written is read back. */
module CsvText {
  import opened JsText

  type Row = seq<string>

  // ---------------------------------------------------------------------
  // Reading

  /** The reader's variables: finished rows, the open row and field, and whether
      it is inside quotes. */
  datatype State = State(rows: seq<Row>, row: Row, field: string, quoted: bool)

  /** One turn of the loop: how many characters it takes and the state after. */
  function Step(s: string, st: State): (r: (nat, State))
    requires s != ""
    ensures 1 <= r.0 <= |s|
  {
    var c := s[0];
    if st.quoted then
      if c == '"' then
        if |s| > 1 && s[1] == '"' then (2, st.(field := st.field + "\""))
        else (1, st.(quoted := false))
      else (1, st.(field := st.field + [c]))
    else if c == '"' then (1, st.(quoted := true))
    else if c == ',' then (1, st.(row := st.row + [st.field], field := ""))
    else if c == '\n' || c == '\r' then
      (if c == '\r' && |s| > 1 && s[1] == '\n' then 2 else 1,
       State(st.rows + [st.row + [st.field]], [], "", false))
    else (1, st.(field := st.field + [c]))
  }

  function Scan(s: string, st: State): State
    decreases |s|
  {
    if s == "" then st
    else
      var r := Step(s, st);
      Scan(s[r.0..], r.1)
  }

  function Finish(st: State): seq<Row> {
    if st.field != "" || st.row != [] then st.rows + [st.row + [st.field]] else st.rows
  }

  predicate BlankRow(row: Row) {
    forall i :: 0 <= i < |row| ==> Trim(row[i]) == ""
  }

  function NonBlank(rows: seq<Row>): seq<Row> {
    if rows == [] then []
    else (if BlankRow(rows[0]) then [] else [rows[0]]) + NonBlank(rows[1..])
  }

  const BOM := '\U{FEFF}'

  function StripBom(text: string): string {
    if text != "" && text[0] == BOM then text[1..] else text
  }

  const START := State([], [], "", false)

  /** Every row of the file, as a spreadsheet shows them. */
  function RawRows(text: string): seq<Row> { Finish(Scan(StripBom(text), START)) }

  function ParseCsv(text: string): seq<Row> { NonBlank(RawRows(text)) }

  // ---------------------------------------------------------------------
  // Where a row that is not blank stands in the file

  /** The index, blank rows included, of the k-th row that is not blank. */
  function Pos(rows: seq<Row>, k: nat): (p: nat)
    requires k < |NonBlank(rows)|
    ensures k <= p < |rows| && rows[p] == NonBlank(rows)[k] && !BlankRow(rows[p])
  {
    if BlankRow(rows[0]) then 1 + Pos(rows[1..], k) else if k == 0 then 0 else 1 + Pos(rows[1..], k - 1)
  }

  function Blanks(rows: seq<Row>): (n: nat)
    ensures n == 0 <==> forall j :: 0 <= j < |rows| ==> !BlankRow(rows[j])
  {
    if rows == [] then 0
    else
      assert rows == [rows[0]] + rows[1..];
      (if BlankRow(rows[0]) then 1 else 0) + Blanks(rows[1..])
  }

  /** That index counts the rows kept before it and the blank ones dropped. */
  lemma {:induction false} PosCounts(rows: seq<Row>, k: nat)
    requires k < |NonBlank(rows)|
    ensures Pos(rows, k) == k + Blanks(rows[..Pos(rows, k)])
  {
    hide BlankRow;
    var p := Pos(rows, k);
    if p > 0 {
      assert rows[..p][0] == rows[0] && rows[..p][1..] == rows[1..][..p - 1];
      PosCounts(rows[1..], if BlankRow(rows[0]) then k else k - 1);
    }
  }

  /** The k-th row read is at row k of the file exactly if no blank row is before it,
      and otherwise as many rows further on as there are. */
  lemma ReadRowAt(text: string, k: nat)
    requires k < |ParseCsv(text)|
    ensures var rows, p := RawRows(text), Pos(RawRows(text), k);
            && rows[p] == ParseCsv(text)[k] && p == k + Blanks(rows[..p])
            && (p == k <==> forall j :: 0 <= j < p ==> !BlankRow(rows[j]))
  {
    hide BlankRow, RawRows;
    PosCounts(RawRows(text), k);
  }

  /** A row is dropped exactly if every character of every cell is white space. */
  lemma BlankRowExact(row: Row)
    ensures BlankRow(row) <==> forall cell, c :: cell in row && c in cell ==> IsSpace(c)
  {
    hide IsSpace;
    if BlankRow(row) {
      forall cell, c | cell in row && c in cell
        ensures IsSpace(c)
      {
        var i :| 0 <= i < |row| && row[i] == cell;
        assert Trim(row[i]) == "";
      }
    } else {
      var i :| 0 <= i < |row| && Trim(row[i]) != "";
      var j :| 0 <= j < |row[i]| && !IsSpace(row[i][j]);
      assert row[i] in row && row[i][j] in row[i];
    }
  }

  /** Every row that is not blank is kept, and the kept ones stay in order. */
  lemma {:induction false} KeptInOrder(rows: seq<Row>, p: nat) returns (k: nat)
    requires p < |rows| && !BlankRow(rows[p])
    ensures k < |NonBlank(rows)| && Pos(rows, k) == p
    ensures forall l :: 0 <= l < |NonBlank(rows)| ==> (l < k <==> Pos(rows, l) < p)
  {
    hide BlankRow;
    k := 0;
    if p > 0 {
      k := KeptInOrder(rows[1..], p - 1);
      if !BlankRow(rows[0]) {
        k := k + 1;
      }
    }
  }

  lemma ScanNothing(s: string, st: State)
    requires s == ""
    ensures Scan(s, st) == st
  {
  }

  lemma ScanStep(s: string, i: nat, st: State)
    requires i < |s|
    ensures var r := Step(s[i..], st);
            i + r.0 <= |s| && Scan(s[i..], st) == Scan(s[i + r.0..], r.1)
  {
    hide Step;
    assert s[i..][Step(s[i..], st).0..] == s[i + Step(s[i..], st).0..];
  }

  method ReadCsv(text: string) returns (result: seq<Row>)
    ensures result == ParseCsv(text)
  {
    hide Scan, NonBlank;
    var rows: seq<Row> := [];
    var row: Row := [];
    var field := "";
    var quoted := false;
    var source := StripBom(text);
    var i := 0;
    assert source[0..] == source;
    while i < |source|
      invariant 0 <= i <= |source|
      invariant Scan(source[i..], State(rows, row, field, quoted)) == Scan(source, START)
    {
      ScanStep(source, i, State(rows, row, field, quoted));
      var c := source[i];
      if quoted {
        if c == '"' {
          if i + 1 < |source| && source[i + 1] == '"' {
            field := field + "\"";
            i := i + 1;
          } else {
            quoted := false;
          }
        } else {
          field := field + [c];
        }
      } else if c == '"' {
        quoted := true;
      } else if c == ',' {
        row := row + [field];
        field := "";
      } else if c == '\n' || c == '\r' {
        if c == '\r' && i + 1 < |source| && source[i + 1] == '\n' {
          i := i + 1;
        }
        row := row + [field];
        rows := rows + [row];
        row := [];
        field := "";
      } else {
        field := field + [c];
      }
      i := i + 1;
    }
    ScanNothing(source[i..], State(rows, row, field, quoted));
    if |field| > 0 || |row| > 0 {
      row := row + [field];
      rows := rows + [row];
    }
    result := NonBlank(rows);
  }

  // ---------------------------------------------------------------------
  // Writing

  predicate NeedsQuotes(text: string) {
    exists i :: 0 <= i < |text| && text[i] in {'"', ',', '\r', '\n'}
  }

  function Doubled(text: string): string {
    if text == "" then "" else (if text[0] == '"' then "\"\"" else text[..1]) + Doubled(text[1..])
  }

  function CsvCell(text: string): string {
    if NeedsQuotes(text) then "\"" + Doubled(text) + "\"" else text
  }

  /** A cell is written as it is exactly if it holds no quote, comma or line break. */
  lemma CellPlain(text: string)
    ensures CsvCell(text) == text <==> '"' !in text && ',' !in text && '\r' !in text && '\n' !in text
    ensures CsvCell(text) != text ==> |CsvCell(text)| >= 2 && CsvCell(text)[0] == '"'
  {
    if NeedsQuotes(text) {
      DoubledLonger(text);
    }
  }

  lemma {:induction false} DoubledLonger(text: string)
    ensures |Doubled(text)| >= |text|
  {
    if text != "" {
      DoubledLonger(text[1..]);
    }
  }

  function PrintRow(cells: Row): string {
    if cells == [] then "" else if |cells| == 1 then CsvCell(cells[0])
    else CsvCell(cells[0]) + "," + PrintRow(cells[1..])
  }

  /** A table with the row end to write after each of its rows. */
  datatype Line = Line(cells: Row, end: string)

  predicate RowEnd(end: string) { end == "\r" || end == "\n" || end == "\r\n" }

  /** Any of the three row ends after each row, optional after the last. */
  predicate Printable(lines: seq<Line>) {
    forall i :: 0 <= i < |lines| ==> RowEnd(lines[i].end) || (i == |lines| - 1 && lines[i].end == "")
  }

  function Print(lines: seq<Line>): string {
    if lines == [] then "" else PrintRow(lines[0].cells) + (lines[0].end + Print(lines[1..]))
  }

  function Cells(lines: seq<Line>): (rows: seq<Row>)
    ensures |rows| == |lines| && forall i :: 0 <= i < |rows| ==> rows[i] == lines[i].cells
  {
    seq(|lines|, i requires 0 <= i < |lines| => lines[i].cells)
  }

  // ---------------------------------------------------------------------
  // Reading what was written

  /** A field can end here. */
  predicate EndsField(rest: string) { rest == "" || rest[0] in {',', '\r', '\n'} }

  predicate EndsRow(rest: string) { rest == "" || rest[0] in {'\r', '\n'} }

  lemma {:induction false} ScanPlain(text: string, rest: string, st: State)
    requires !NeedsQuotes(text) && !st.quoted
    ensures Scan(text + rest, st) == Scan(rest, st.(field := st.field + text))
    decreases |text|
  {
    if text == "" {
      assert text + rest == rest && st.field + text == st.field;
    } else {
      assert text[0] !in {'"', ',', '\r', '\n'};
      assert forall i :: 0 <= i < |text| - 1 ==> text[1..][i] == text[i + 1];
      assert (text + rest)[1..] == text[1..] + rest;
      ScanPlain(text[1..], rest, st.(field := st.field + [text[0]]));
      assert st.field + [text[0]] + text[1..] == st.field + text;
    }
  }

  lemma {:induction false} ScanQuoted(text: string, rest: string, st: State)
    requires st.quoted && EndsField(rest)
    ensures Scan(Doubled(text) + ("\"" + rest), st) == Scan(rest, st.(field := st.field + text, quoted := false))
    decreases |text|
  {
    var s := Doubled(text) + ("\"" + rest);
    if text == "" {
      assert s == "\"" + rest && s[1..] == rest && st.field + text == st.field;
    } else {
      var head := if text[0] == '"' then "\"\"" else text[..1];
      assert s == head + (Doubled(text[1..]) + ("\"" + rest));
      assert s[|head|..] == Doubled(text[1..]) + ("\"" + rest);
      assert s[0] == text[0] && (text[0] == '"' ==> s[1] == '"');
      ScanQuoted(text[1..], rest, st.(field := st.field + [text[0]]));
      assert st.field + [text[0]] + text[1..] == st.field + text;
    }
  }

  lemma ScanCell(text: string, rest: string, rows: seq<Row>, row: Row)
    requires EndsField(rest)
    ensures Scan(CsvCell(text) + rest, State(rows, row, "", false)) == Scan(rest, State(rows, row, text, false))
  {
    assert "" + text == text;
    if NeedsQuotes(text) {
      hide NeedsQuotes;
      var s := CsvCell(text) + rest;
      assert s == "\"" + (Doubled(text) + ("\"" + rest));
      assert s[1..] == Doubled(text) + ("\"" + rest);
      ScanQuoted(text, rest, State(rows, row, "", true));
    } else {
      ScanPlain(text, rest, State(rows, row, "", false));
    }
  }

  lemma ScanComma(rest: string, rows: seq<Row>, row: Row, field: string)
    ensures Scan("," + rest, State(rows, row, field, false)) == Scan(rest, State(rows, row + [field], "", false))
  {
    assert ("," + rest)[1..] == rest;
  }

  lemma {:induction false} ScanRow(cells: Row, rest: string, rows: seq<Row>, row: Row)
    requires cells != [] && EndsRow(rest)
    ensures Scan(PrintRow(cells) + rest, State(rows, row, "", false)) ==
            Scan(rest, State(rows, row + cells[..|cells| - 1], cells[|cells| - 1], false))
    decreases |cells|
  {
    hide Scan, CsvCell;
    if |cells| == 1 {
      ScanCell(cells[0], rest, rows, row);
      assert row + cells[..0] == row;
    } else {
      var tail := cells[1..];
      var after := PrintRow(tail) + rest;
      assert PrintRow(cells) + rest == CsvCell(cells[0]) + ("," + after);
      ScanCell(cells[0], "," + after, rows, row);
      ScanComma(after, rows, row, cells[0]);
      ScanRow(tail, rest, rows, row + [cells[0]]);
      assert row + [cells[0]] + tail[..|tail| - 1] == row + cells[..|cells| - 1];
    }
  }

  /** The row that the reader makes of a written row: no cells read as one empty cell. */
  function AsRead(cells: Row): (r: Row)
    ensures BlankRow(r) <==> BlankRow(cells)
  {
    if cells == [] then [""] else cells
  }

  /** A row end closes the row; a line feed after a carriage return goes with it. */
  lemma ScanEnd(end: string, rest: string, rows: seq<Row>, row: Row, field: string)
    requires RowEnd(end)
    ensures var closed := State(rows + [row + [field]], [], "", false);
            Scan(end + rest, State(rows, row, field, false)) ==
            Scan(if end == "\r" && rest != "" && rest[0] == '\n' then rest[1..] else rest, closed)
  {
    var s := end + rest;
    if end == "\r\n" {
      assert s[0] == '\r' && s[1] == '\n' && s[2..] == rest;
    } else if end == "\r" && rest != "" && rest[0] == '\n' {
      assert s[1] == '\n' && s[2..] == rest[1..];
    } else {
      assert s[1..] == rest;
    }
  }

  lemma ScanLine(cells: Row, end: string, rest: string, rows: seq<Row>)
    requires RowEnd(end)
    ensures Scan(PrintRow(cells) + (end + rest), State(rows, [], "", false)) ==
            Scan(if end == "\r" && rest != "" && rest[0] == '\n' then rest[1..] else rest,
                 State(rows + [AsRead(cells)], [], "", false))
  {
    hide Scan;
    if cells == [] {
      assert PrintRow(cells) + (end + rest) == end + rest;
      ScanEnd(end, rest, rows, [], "");
      assert [] + [""] == AsRead(cells);
    } else {
      var n := |cells| - 1;
      assert (end + rest)[0] == end[0];
      ScanRow(cells, end + rest, rows, []);
      ScanEnd(end, rest, rows, [] + cells[..n], cells[n]);
      assert [] + cells[..n] + [cells[n]] == cells;
    }
  }

  lemma FinishLastRow(cells: Row, rows: seq<Row>)
    ensures NonBlank(Finish(Scan(PrintRow(cells), State(rows, [], "", false)))) == NonBlank(rows + [cells])
  {
    hide Scan, BlankRow, NonBlank, PrintRow, Finish;
    assert PrintRow(cells) + "" == PrintRow(cells);
    if cells == [] {
      EmptyRowScan(rows);
      DropBlankLast(rows, cells);
    } else {
      var n := |cells| - 1;
      ScanRow(cells, "", rows, []);
      assert [] + cells[..n] == cells[..n];
      EmptyScan(State(rows, cells[..n], cells[n], false));
      FinishOpenRow(rows, cells);
      if cells == [""] {
        DropBlankLast(rows, cells);
      }
    }
  }

  lemma FinishOpenRow(rows: seq<Row>, cells: Row)
    requires cells != []
    ensures var n := |cells| - 1;
            Finish(State(rows, cells[..n], cells[n], false)) == if cells == [""] then rows else rows + [cells]
  {
    var n := |cells| - 1;
    assert cells[..n] + [cells[n]] == cells;
  }

  lemma EmptyScan(st: State)
    ensures Scan("", st) == st
  {
  }

  lemma EmptyRowScan(rows: seq<Row>)
    ensures Finish(Scan(PrintRow([]), State(rows, [], "", false))) == rows
  {
  }

  lemma DropBlankLast(rows: seq<Row>, cells: Row)
    requires cells == [] || cells == [""]
    ensures NonBlank(rows + [cells]) == NonBlank(rows)
  {
    NonBlankConcat(rows, [cells]);
    assert BlankRow(cells);
  }

  lemma {:induction false} NonBlankConcat(a: seq<Row>, b: seq<Row>)
    ensures NonBlank(a + b) == NonBlank(a) + NonBlank(b)
  {
    hide BlankRow;
    if a == [] {
      assert a + b == b;
    } else {
      assert (a + b)[1..] == a[1..] + b;
      NonBlankConcat(a[1..], b);
    }
  }

  lemma NonBlankAsRead(rows: seq<Row>, cells: Row)
    ensures NonBlank(rows + [AsRead(cells)]) == NonBlank(rows + [cells])
  {
    hide BlankRow;
    NonBlankConcat(rows, [AsRead(cells)]);
    NonBlankConcat(rows, [cells]);
    if cells == [] {
      EmptyRowIsBlank();
    }
  }

  lemma EmptyRowIsBlank()
    ensures BlankRow([])
  {
  }

  lemma OnlyLastIsOpen(lines: seq<Line>)
    requires Printable(lines) && lines != []
    ensures lines[0].end == "" ==> |lines| == 1 && Print(lines[1..]) == ""
  {
  }

  /** A written table begins with a line feed only when its first row is blank. */
  lemma PrintStartsWithFeed(lines: seq<Line>)
    requires Printable(lines) && Print(lines) != "" && Print(lines)[0] == '\n'
    ensures lines != [] && BlankRow(lines[0].cells)
    ensures lines[0].end == "\n" && Print(lines)[1..] == Print(lines[1..])
  {
    var row, rest := PrintRow(lines[0].cells), lines[0].end + Print(lines[1..]);
    PrintRowStart(lines[0].cells);
    assert row == "";
    assert Print(lines) == rest;
    OnlyLastIsOpen(lines);
    assert rest[0] == lines[0].end[0];
  }

  lemma PrintRowStart(cells: Row)
    ensures PrintRow(cells) != "" ==> PrintRow(cells)[0] != '\n'
    ensures PrintRow(cells) == "" ==> BlankRow(cells)
  {
    if cells != [] {
      var text := cells[0];
      if !NeedsQuotes(text) && text != "" {
        assert text[0] != '\n';
      }
    }
  }

  /** Reading a written table gives its non-blank rows. */
  lemma {:induction false} ScanTable(lines: seq<Line>, rows: seq<Row>)
    requires Printable(lines)
    ensures NonBlank(Finish(Scan(Print(lines), State(rows, [], "", false)))) == NonBlank(rows + Cells(lines))
    decreases |lines|
  {
    hide *;
    if lines == [] {
      ScanEmpty(rows);
      EmptyTable(rows);
    } else {
      var line, tail := lines[0], lines[1..];
      PrintableTail(lines);
      if line.end == "" {
        FinishLastRow(line.cells, rows);
        assert rows + [line.cells] == rows + Cells(lines);
      } else {
        var closed := rows + [AsRead(line.cells)];
        ScanLine(line.cells, line.end, Print(tail), rows);
        if line.end == "\r" && Print(tail) != "" && Print(tail)[0] == '\n' {
          PrintStartsWithFeed(tail);
          PrintableTail(tail);
          ScanTable(tail[1..], closed);
          SkipBlank(closed, tail[0].cells, Cells(tail[1..]));
        } else {
          ScanTable(tail, closed);
        }
        ReadRowCounts(rows, line.cells, Cells(tail));
      }
    }
  }

  lemma EmptyTable(rows: seq<Row>)
    ensures Print([]) == "" && rows + Cells([]) == rows
  {
  }

  /** A written table is its first line and a written table. */
  lemma PrintableTail(lines: seq<Line>)
    requires Printable(lines) && lines != []
    ensures var line, tail := lines[0], lines[1..];
            && Printable(tail) && Cells(lines) == [line.cells] + Cells(tail)
            && Print(lines) == PrintRow(line.cells) + (line.end + Print(tail))
            && (if line.end == "" then
                  tail == [] && Cells(lines) == [line.cells] && Print(lines) == PrintRow(line.cells)
                else RowEnd(line.end))
  {
    hide PrintRow;
    assert lines[1..] == [] ==> Cells(lines) == [lines[0].cells];
    assert forall i :: 0 <= i < |lines[1..]| ==> lines[1..][i] == lines[i + 1];
  }

  /** A row counts as it is read, whatever follows it. */
  lemma ReadRowCounts(rows: seq<Row>, cells: Row, more: seq<Row>)
    ensures NonBlank((rows + [AsRead(cells)]) + more) == NonBlank(rows + ([cells] + more))
  {
    hide NonBlank, AsRead;
    NonBlankAsRead(rows, cells);
    NonBlankConcat(rows + [AsRead(cells)], more);
    NonBlankConcat(rows + [cells], more);
    assert (rows + [cells]) + more == rows + ([cells] + more);
  }

  lemma ScanEmpty(rows: seq<Row>)
    ensures Finish(Scan("", State(rows, [], "", false))) == rows
  {
  }

  lemma SkipBlank(rows: seq<Row>, blank: Row, rest: seq<Row>)
    requires BlankRow(blank)
    ensures NonBlank(rows + rest) == NonBlank(rows + ([blank] + rest))
  {
    NonBlankConcat(rows, rest);
    NonBlankConcat(rows, [blank] + rest);
    assert ([blank] + rest)[1..] == rest;
  }

  /** A concrete file whose second row is blank: the third row is read as the second. */
  lemma BlankRowRead()
    ensures var text := "email\n\nbad\n";
            && RawRows(text) == [["email"], [""], ["bad"]] && ParseCsv(text) == [["email"], ["bad"]]
            && Pos(RawRows(text), 1) == 2
  {
    assert "email" + ("\n" + ("" + ("\n" + ("bad" + ("\n" + ""))))) == "email\n\nbad\n";
    assert !NeedsQuotes("email") && !NeedsQuotes("") && !NeedsQuotes("bad");
    hide *;
    ThreeCells("email", "", "bad");
    ThreeRows([["email"], [""], ["bad"]]);
    NonBlankRead("email\n\nbad\n");
  }

  lemma NonBlankRead(text: string)
    ensures ParseCsv(text) == NonBlank(RawRows(text))
  {
    hide RawRows, NonBlank;
  }

  /** Three rows of one plain cell, read. */
  lemma ThreeCells(a: string, b: string, c: string)
    requires !NeedsQuotes(a) && !NeedsQuotes(b) && !NeedsQuotes(c) && a != "" && a[0] != BOM
    ensures RawRows(a + ("\n" + (b + ("\n" + (c + ("\n" + "")))))) == [[a], [b], [c]]
  {
    var text := a + ("\n" + (b + ("\n" + (c + ("\n" + "")))));
    assert StripBom(text) == text;
    hide Scan, Finish, StripBom, NeedsQuotes;
    ScanLine([a], "\n", b + ("\n" + (c + ("\n" + ""))), []);
    ScanLine([b], "\n", c + ("\n" + ""), [[a]]);
    ScanLine([c], "\n", "", [[a], [b]]);
    assert [] + [[a]] == [[a]] && [[a]] + [[b]] == [[a], [b]] && [[a], [b]] + [[c]] == [[a], [b], [c]];
    ScanEmpty([[a], [b], [c]]);
  }

  lemma ThreeRows(rows: seq<Row>)
    requires rows == [["email"], [""], ["bad"]]
    ensures NonBlank(rows) == [["email"], ["bad"]] && Pos(rows, 1) == 2
  {
    assert !IsSpace('e') && !IsSpace('b');
    assert rows[0][0] == "email" && !BlankRow(rows[0]) && BlankRow(rows[1]);
    assert rows[2][0] == "bad" && !BlankRow(rows[2]);
    assert rows[1..] == [[""], ["bad"]] && rows[1..][1..] == [["bad"]] && rows[1..][1..][1..] == [];
    hide BlankRow;
    assert NonBlank([["bad"]]) == [["bad"]];
    assert NonBlank([[""], ["bad"]]) == [["bad"]];
    assert Pos([["bad"]], 0) == 0;
    assert Pos([[""], ["bad"]], 0) == 1;
  }

  /** The written table loses a byte order mark: its first character is one, on a
      row that is not blank. */
  predicate LosesMark(lines: seq<Line>) {
    lines != [] && Print(lines) != "" && Print(lines)[0] == BOM && !BlankRow(lines[0].cells)
  }

  /** Round trip: reading what was written returns exactly the non-blank rows,
      unless the text begins with a byte order mark on a non-blank row. */
  lemma RoundTrip(lines: seq<Line>)
    requires Printable(lines)
    ensures ParseCsv(Print(lines)) == NonBlank(Cells(lines)) <==> !LosesMark(lines)
  {
    hide Print, NonBlank, BlankRow, Scan, Finish;
    var text := Print(lines);
    if text != "" && text[0] == BOM {
      var cut := WithoutMark(lines);
      ScanTable(cut, []);
      assert [] + Cells(cut) == Cells(cut);
      DifferAtHead(lines, cut);
    } else {
      ScanTable(lines, []);
      assert [] + Cells(lines) == Cells(lines);
    }
  }

  /** A concrete table that is not read back: its first cell begins with the mark. */
  lemma MarkIsLost()
    ensures var lines := [Line([[BOM, 'a']], "\n")];
            && Printable(lines) && Print(lines) == [BOM, 'a', '\n']
            && NonBlank(Cells(lines)) == [[[BOM, 'a']]] && ParseCsv(Print(lines)) == [["a"]]
  {
    var cell: string := [BOM, 'a'];
    var row: Row := [cell];
    var lines := [Line(row, "\n")];
    assert lines[1..] == [] && row[1..] == [];
    assert cell[0] == BOM && cell[1] == 'a';
    assert !NeedsQuotes(cell);
    assert PrintRow(row) == cell;
    assert Print(lines) == [BOM, 'a', '\n'];
    assert !IsSpace('a');
    MarkStripped();
    assert Cells(lines) == [row];
    assert Trim(cell) != "";
  }

  lemma MarkStripped()
    ensures ParseCsv([BOM, 'a', '\n']) == [["a"]]
  {
    assert [BOM, 'a', '\n'][1..] == "a\n";
    var read := State([["a"]], [], "", false);
    MarkScanned(read);
    hide Scan;
    assert !IsSpace('a') && ["a"][0] == "a";
    assert !BlankRow(["a"]);
    assert [["a"]][1..] == [];
  }

  lemma MarkScanned(read: State)
    requires read == State([["a"]], [], "", false)
    ensures Scan("a\n", START) == read
  {
    var open := START.(field := "a");
    assert "" + ['a'] == "a" && [] + ["a"] == ["a"] && [] + [["a"]] == [["a"]];
    assert Step("a\n", START) == (1, open) && "a\n"[1..] == "\n";
    assert Step("\n", open) == (1, read) && "\n"[1..] == "";
    hide Step;
    assert Scan("", read) == read;
    assert Scan("\n", open) == Scan("", read);
  }

  lemma DifferAtHead(a: seq<Line>, b: seq<Line>)
    requires a != [] && b != [] && a[1..] == b[1..]
    requires a[0].cells != b[0].cells && (BlankRow(a[0].cells) <==> BlankRow(b[0].cells))
    ensures NonBlank(Cells(a)) == NonBlank(Cells(b)) <==> BlankRow(a[0].cells)
  {
    hide BlankRow, NonBlank;
    NonBlankHead(a);
    NonBlankHead(b);
    var tail := NonBlank(Cells(a[1..]));
    if !BlankRow(a[0].cells) {
      assert ([a[0].cells] + tail)[0] != ([b[0].cells] + tail)[0];
    }
  }

  lemma NonBlankHead(lines: seq<Line>)
    requires lines != []
    ensures NonBlank(Cells(lines)) ==
            (if BlankRow(lines[0].cells) then [] else [lines[0].cells]) + NonBlank(Cells(lines[1..]))
  {
    hide BlankRow;
    assert Cells(lines)[0] == lines[0].cells;
    assert Cells(lines)[1..] == Cells(lines[1..]);
  }

  /** The table whose text is the same without the leading byte order mark. */
  lemma WithoutMark(lines: seq<Line>) returns (cut: seq<Line>)
    requires Printable(lines) && Print(lines) != "" && Print(lines)[0] == BOM
    ensures Printable(cut) && Print(cut) == Print(lines)[1..]
    ensures lines != [] && cut != [] && cut[1..] == lines[1..]
    ensures cut[0].cells != lines[0].cells && (BlankRow(cut[0].cells) <==> BlankRow(lines[0].cells))
  {
    hide PrintRow, BlankRow;
    var line, rest := lines[0], lines[0].end + Print(lines[1..]);
    assert Print(lines) == PrintRow(line.cells) + rest;
    assert line.end == "" ==> lines[1..] == [];
    assert PrintRow(line.cells) != "" && PrintRow(line.cells)[0] == BOM;
    var cells := RowWithoutMark(line.cells);
    cut := [Line(cells, line.end)] + lines[1..];
    assert cut[1..] == lines[1..];
    assert (PrintRow(line.cells) + rest)[1..] == PrintRow(line.cells)[1..] + rest;
  }

  lemma QuotedRowStart(cells: Row)
    requires cells != [] && NeedsQuotes(cells[0])
    ensures PrintRow(cells) != "" && PrintRow(cells)[0] == '"'
  {
  }

  lemma RowWithoutMark(cells: Row) returns (cut: Row)
    requires PrintRow(cells) != "" && PrintRow(cells)[0] == BOM
    ensures PrintRow(cut) == PrintRow(cells)[1..] && cut != cells
    ensures BlankRow(cut) <==> BlankRow(cells)
  {
    var text := cells[0];
    if NeedsQuotes(text) {
      QuotedRowStart(cells);
      assert false;
    }
    assert text != "" && text[0] == BOM;
    var short := text[1..];
    cut := [short] + cells[1..];
    assert !NeedsQuotes(short);
    assert cut[1..] == cells[1..];
    assert |cut[0]| != |cells[0]|;
    assert Blank(short) <==> Blank(text) by {
      if Blank(short) {
        forall i | 0 <= i < |text|
          ensures IsSpace(text[i])
        {
          if i > 0 { assert short[i - 1] == text[i]; }
        }
      }
    }
    assert forall i :: 1 <= i < |cells| ==> cut[i] == cells[i];
  }
}
