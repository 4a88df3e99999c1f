/** A printer for CSV tables (section 2 of RFC 4180) and its round trip through the parser.

    A cell may be printed quoted or bare, a row may end in any run of CR and LF characters, and the
    last row need not end in one at all. The parser returns every printed table exactly, except for
    two families of rows: a row that prints as nothing is dropped, and a row whose last cell is
    printed quoted comes back with one extra empty field.
  */
module CsvRoundTrip {
  import opened CsvUtils

  datatype Cell = Cell(value: string, quoted: bool)

  /** A row's cells and the line break printed after them. */
  datatype Line = Line(cells: seq<Cell>, eol: string)

  predicate Bare(value: string) {
    forall i :: 0 <= i < |value| ==> value[i] != ',' && value[i] != '"' && !IsBreak(value[i])
  }

  /** RFC 4180 lets a cell go unquoted only when it has no comma, quote or line break. */
  predicate Printable(cells: seq<Cell>) {
    forall c :: c in cells ==> c.quoted || Bare(c.value)
  }

  predicate IsEol(eol: string) {
    forall i :: 0 <= i < |eol| ==> IsBreak(eol[i])
  }

  /** Every row but the last is followed by a line break. */
  predicate PrintableTable(table: seq<Line>) {
    && (forall i :: 0 <= i < |table| ==> Printable(table[i].cells) && IsEol(table[i].eol))
    && (forall i :: 0 <= i < |table| - 1 ==> table[i].eol != "")
  }

  /** Doubles every quote. */
  function Escape(value: string): string {
    if value == "" then ""
    else (if value[0] == '"' then "\"\"" else [value[0]]) + Escape(value[1..])
  }

  function CellText(c: Cell): string {
    if c.quoted then "\"" + Escape(c.value) + "\"" else c.value
  }

  function RowText(cells: seq<Cell>): string {
    if cells == [] then ""
    else if |cells| == 1 then CellText(cells[0])
    else CellText(cells[0]) + ("," + RowText(cells[1..]))
  }

  function TableText(table: seq<Line>): string {
    if table == [] then "" else RowText(table[0].cells) + table[0].eol + TableText(table[1..])
  }

  function Values(cells: seq<Cell>): (row: Row)
    ensures |row| == |cells|
    ensures forall i :: 0 <= i < |cells| ==> row[i] == cells[i].value
  {
    if cells == [] then [] else [cells[0].value] + Values(cells[1..])
  }

  function TableValues(table: seq<Line>): (rows: seq<Row>)
    ensures |rows| == |table|
    ensures forall i :: 0 <= i < |table| ==> rows[i] == Values(table[i].cells)
  {
    if table == [] then [] else [Values(table[0].cells)] + TableValues(table[1..])
  }

  predicate EndsQuoted(cells: seq<Cell>) {
    cells != [] && cells[|cells| - 1].quoted
  }

  /** The row the parser makes of a printed row that is not empty. */
  function ParsedRow(cells: seq<Cell>): Row {
    Values(cells) + if EndsQuoted(cells) then [""] else []
  }

  function ParsedTable(table: seq<Line>): seq<Row> {
    if table == [] then []
    else (if RowText(table[0].cells) == "" then [] else [ParsedRow(table[0].cells)]) + ParsedTable(table[1..])
  }

  // ---------------------------------------------------------------------------------------
  // One cell, one row
  // ---------------------------------------------------------------------------------------

  /** One escaped character is read back as that character. */
  lemma QuotedFieldOfChar(c: char, after: string)
    ensures QuotedField((if c == '"' then "\"\"" else [c]) + after)
         == ([c] + QuotedField(after).0, QuotedField(after).1)
  {
    var head := if c == '"' then "\"\"" else [c];
    assert (head + after)[|head|..] == after;
  }

  lemma {:induction false} QuotedFieldOfEscape(value: string, rest: string)
    requires rest == "" || rest[0] != '"'
    ensures QuotedField(Escape(value) + ("\"" + rest)) == (value, rest)
    decreases |value|
  {
    var tail := "\"" + rest;
    if value == "" {
      assert Escape(value) + tail == tail && tail[1..] == rest;
    } else {
      var head := if value[0] == '"' then "\"\"" else [value[0]];
      var after := Escape(value[1..]) + tail;
      assert Escape(value) + tail == head + after;
      QuotedFieldOfChar(value[0], after);
      QuotedFieldOfEscape(value[1..], rest);
      assert [value[0]] + value[1..] == value;
    }
  }

  lemma {:induction false} CommaAfterBare(value: string, rest: string)
    requires Bare(value)
    requires rest == "" || rest[0] == ','
    ensures CommaAt(value + rest) == |value|
    decreases |value|
  {
    if value == "" {
      assert value + rest == rest;
    } else {
      assert (value + rest)[1..] == value[1..] + rest;
      CommaAfterBare(value[1..], rest);
    }
  }

  /** What `Fields` reads first when a printed cell starts the line. */
  lemma FirstField(c: Cell, rest: string)
    requires c.quoted || Bare(c.value)
    ensures Fields(CellText(c) + ("," + rest)) == [c.value] + Fields(rest)
    ensures Fields(CellText(c)) == [c.value] + if c.quoted then [""] else []
  {
    var tail := "," + rest;
    assert tail[1..] == rest;
    if c.quoted {
      var s := CellText(c) + tail;
      assert s[1..] == Escape(c.value) + ("\"" + tail);
      QuotedFieldOfEscape(c.value, tail);
      QuotedFieldOfEscape(c.value, "");
      assert CellText(c)[1..] == Escape(c.value) + ("\"" + "");
    } else {
      var s := c.value + tail;
      CommaAfterBare(c.value, tail);
      CommaAfterBare(c.value, "");
      assert c.value + "" == c.value;
      assert s[..|c.value|] == c.value && s[|c.value| + 1..] == rest;
      assert s[0] == if c.value == "" then ',' else c.value[0];
    }
  }

  lemma {:induction false} FieldsOfRowText(cells: seq<Cell>)
    requires cells != [] && Printable(cells)
    ensures Fields(RowText(cells)) == ParsedRow(cells)
    decreases |cells|
  {
    var c := cells[0];
    assert c in cells;
    if |cells| == 1 {
      FirstField(c, "");
      assert Values(cells) == [c.value];
    } else {
      FirstField(c, RowText(cells[1..]));
      assert Printable(cells[1..]) by {
        assert forall d :: d in cells[1..] ==> d in cells;
      }
      FieldsOfRowText(cells[1..]);
      ParsedRowCons(cells);
    }
  }

  lemma ParsedRowCons(cells: seq<Cell>)
    requires |cells| > 1
    ensures ParsedRow(cells) == [cells[0].value] + ParsedRow(cells[1..])
  {
    assert cells[1..][|cells| - 2] == cells[|cells| - 1];
  }

  lemma {:induction false} FeedBare(s: Scan, value: string)
    requires Bare(value) && !s.quoted
    ensures Feed(s, value) == Scan(s.lines, s.line + value, false)
    decreases |value|
  {
    if value != "" {
      FeedBare(Step(s, value[0]), value[1..]);
      assert s.line + value == (s.line + [value[0]]) + value[1..];
    } else {
      assert s.line + value == s.line;
    }
  }

  lemma FeedOne(s: Scan, c: char)
    ensures Feed(s, [c]) == Step(s, c)
  {
    assert [c][1..] == "";
  }

  /** Two texts in a row extend the line being read if each of them does. */
  lemma FeedExtends(s: Scan, a: string, b: string, quoted: bool, quoted': bool)
    requires Feed(s, a) == Scan(s.lines, s.line + a, quoted)
    requires Feed(Scan(s.lines, s.line + a, quoted), b) == Scan(s.lines, s.line + a + b, quoted')
    ensures Feed(s, a + b) == Scan(s.lines, s.line + (a + b), quoted')
  {
    hide Feed;
    FeedConcat(s, a, b);
    assert s.line + (a + b) == s.line + a + b;
  }

  /** A character other than an unquoted line break extends the line being read. */
  lemma FeedChar(s: Scan, c: char)
    requires IsBreak(c) ==> s.quoted
    ensures Feed(s, [c]) == Scan(s.lines, s.line + [c], s.quoted != (c == '"'))
  {
    FeedOne(s, c);
  }

  lemma {:induction false} FeedEscape(s: Scan, value: string)
    requires s.quoted
    ensures Feed(s, Escape(value)) == Scan(s.lines, s.line + Escape(value), true)
    decreases |value|
  {
    if value != "" {
      var c, tail := value[0], Escape(value[1..]);
      var head := if c == '"' then "\"\"" else [c];
      assert Escape(value) == head + tail;
      hide Feed, Escape;
      FeedChar(s, c);
      if c == '"' {
        FeedChar(Scan(s.lines, s.line + "\"", false), c);
        FeedExtends(s, "\"", "\"", false, true);
        assert "\"" + "\"" == head;
      }
      FeedEscape(Scan(s.lines, s.line + head, true), value[1..]);
      FeedExtends(s, head, tail, true, true);
    } else {
      assert s.line + Escape(value) == s.line;
    }
  }

  lemma FeedCell(s: Scan, c: Cell)
    requires !s.quoted && (c.quoted || Bare(c.value))
    ensures Feed(s, CellText(c)) == Scan(s.lines, s.line + CellText(c), false)
  {
    hide Feed, Escape;
    if c.quoted {
      var body := Escape(c.value);
      FeedChar(s, '"');
      FeedEscape(Scan(s.lines, s.line + "\"", true), c.value);
      FeedExtends(s, "\"", body, true, true);
      FeedChar(Scan(s.lines, s.line + ("\"" + body), true), '"');
      FeedExtends(s, "\"" + body, "\"", true, false);
    } else {
      FeedBare(s, c.value);
    }
  }

  /** A printed row is read back as one line, quotes closed at its end. */
  lemma {:induction false} FeedRow(s: Scan, cells: seq<Cell>)
    requires !s.quoted && Printable(cells)
    ensures Feed(s, RowText(cells)) == Scan(s.lines, s.line + RowText(cells), false)
    decreases |cells|
  {
    if cells == [] {
      assert s.line + RowText(cells) == s.line;
    } else {
      var c := cells[0];
      assert c in cells;
      FeedCell(s, c);
      if |cells| > 1 {
        assert Printable(cells[1..]) by {
          assert forall d :: d in cells[1..] ==> d in cells;
        }
        assert RowText(cells) == CellText(c) + ("," + RowText(cells[1..]));
        hide Feed, CellText, RowText, Printable;
        var s1, rest := Scan(s.lines, s.line + CellText(c), false), RowText(cells[1..]);
        FeedChar(s1, ',');
        FeedRow(Scan(s.lines, s1.line + ",", false), cells[1..]);
        FeedExtends(s1, ",", rest, false, false);
        FeedExtends(s, CellText(c), "," + rest, false, false);
      }
    }
  }

  lemma {:induction false} FeedEol(s: Scan, eol: string)
    requires !s.quoted && IsEol(eol) && eol != ""
    ensures Feed(s, eol) == Flush(s)
    decreases |eol|
  {
    if |eol| > 1 {
      FeedEol(Step(s, eol[0]), eol[1..]);
    } else {
      FeedOne(s, eol[0]);
    }
  }

  // ---------------------------------------------------------------------------------------
  // The whole table
  // ---------------------------------------------------------------------------------------

  lemma RowsOfPrintedLine(l: Line)
    requires Printable(l.cells) && IsEol(l.eol)
    ensures l.eol != "" ==> EndsRow(RowText(l.cells) + l.eol)
    ensures Rows(RowText(l.cells) + l.eol) == if RowText(l.cells) == "" then [] else [ParsedRow(l.cells)]
  {
    var text := RowText(l.cells);
    FeedRow(START, l.cells);
    assert START.line + text == text;
    FeedConcat(START, text, l.eol);
    FeedQuoted(text + l.eol);
    if l.eol == "" {
      assert text + l.eol == text;
    } else {
      FeedEol(Feed(START, text), l.eol);
    }
    if text != "" {
      assert Lines(text + l.eol) == [text];
      FieldsOfRowText(l.cells);
    }
  }

  /** The printed table begins with the printed line. */
  lemma TableUnfolds(table: seq<Line>)
    requires PrintableTable(table) && table != []
    ensures var l, rest := table[0], table[1..];
            && PrintableTable(rest) && Printable(l.cells) && IsEol(l.eol)
            && TableText(table) == RowText(l.cells) + l.eol + TableText(rest)
            && ParsedTable(table) == (if RowText(l.cells) == "" then [] else [ParsedRow(l.cells)]) + ParsedTable(rest)
            && (l.eol == "" ==> TableText(rest) == "" && ParsedTable(rest) == [])
  {
    hide RowText, Printable, IsEol, ParsedRow;
  }

  lemma NothingPrinted()
    ensures Rows(TableText([])) == [] && ParsedTable([]) == []
  {
    NoRows("");
  }

  /** What parsing a printed table returns, for every printable table. */
  lemma {:induction false} ParsePrinted(table: seq<Line>)
    requires PrintableTable(table)
    ensures Rows(TableText(table)) == ParsedTable(table)
  {
    hide *;
    if table == [] {
      NothingPrinted();
    } else {
      var l, rest := table[0], table[1..];
      var text := RowText(l.cells) + l.eol;
      TableUnfolds(table);
      RowsOfPrintedLine(l);
      if l.eol != "" {
        RowsConcat(text, TableText(rest));
        ParsePrinted(rest);
      } else {
        assert text + TableText(rest) == text;
        assert Rows(text) + [] == Rows(text);
      }
    }
  }

  /** A row that survives the round trip: it prints as something and its last cell is bare. */
  predicate Faithful(cells: seq<Cell>) {
    RowText(cells) != "" && !EndsQuoted(cells)
  }

  lemma {:induction false} ParsedTableLength(table: seq<Line>)
    ensures |ParsedTable(table)| <= |table|
  {
    if table != [] {
      ParsedTableLength(table[1..]);
    }
  }

  predicate AllFaithful(table: seq<Line>) {
    forall i :: 0 <= i < |table| ==> Faithful(table[i].cells)
  }

  lemma {:induction false} ParsedTableFaithful(table: seq<Line>)
    ensures ParsedTable(table) == TableValues(table) <==> AllFaithful(table)
  {
    hide *;
    if table == [] {
      NothingToCompare();
    } else {
      var cells, rest := table[0].cells, table[1..];
      ParsedTableFaithful(rest);
      TablesUnfold(table);
      RowFaithful(cells);
      if RowText(cells) == "" {
        ParsedTableLength(rest);
      } else {
        SameTables(ParsedRow(cells), ParsedTable(rest), Values(cells), TableValues(rest));
      }
    }
  }

  lemma NothingToCompare()
    ensures ParsedTable([]) == TableValues([]) && AllFaithful([])
  {
  }

  lemma TablesUnfold(table: seq<Line>)
    requires table != []
    ensures var cells, rest := table[0].cells, table[1..];
            && ParsedTable(table) == (if RowText(cells) == "" then [] else [ParsedRow(cells)]) + ParsedTable(rest)
            && TableValues(table) == [Values(cells)] + TableValues(rest) && |TableValues(rest)| == |rest|
            && (AllFaithful(table) <==> Faithful(cells) && AllFaithful(rest))
  {
    hide RowText, ParsedRow, Faithful;
    assert table == [table[0]] + table[1..];
  }

  lemma RowFaithful(cells: seq<Cell>)
    ensures Faithful(cells) <==> RowText(cells) != "" && ParsedRow(cells) == Values(cells)
  {
    hide RowText;
    assert Values(cells) + [] == Values(cells);
    assert EndsQuoted(cells) ==> |ParsedRow(cells)| == |Values(cells)| + 1;
  }

  lemma SameTables(x: Row, xs: seq<Row>, y: Row, ys: seq<Row>)
    ensures [x] + xs == [y] + ys <==> x == y && xs == ys
  {
    assert ([x] + xs)[0] == x && ([y] + ys)[0] == y;
    assert ([x] + xs)[1..] == xs && ([y] + ys)[1..] == ys;
  }

  /** The parser inverts the printer on a table exactly when every row of it is faithful. */
  lemma RoundTripExact(table: seq<Line>)
    requires PrintableTable(table)
    ensures Rows(TableText(table)) == TableValues(table)
       <==> AllFaithful(table)
  {
    ParsePrinted(table);
    ParsedTableFaithful(table);
  }

  /** A row of one quoted cell comes back with two fields. */
  lemma LastQuotedCellGrowsTheRow(value: string, eol: string)
    requires IsEol(eol)
    ensures Rows("\"" + Escape(value) + "\"" + eol) == [[value, ""]]
  {
    var l := Line([Cell(value, true)], eol);
    RowsOfPrintedLine(l);
    assert RowText(l.cells) == "\"" + Escape(value) + "\"";
    assert ParsedRow(l.cells) == [value, ""];
  }
}
