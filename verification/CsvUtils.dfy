/** Model of csv-utils.js: the quote-aware row scanner and the field splitter.

    The two loops of the source are methods. Each is tied to a specification: `Lines`, a
    one-character-at-a-time automaton, for the row scanner, and `Fields`, a recursion over the
    line, for the field splitter. What the source promises is proved about those functions.
  */
module CsvUtils {

  type Row = seq<string>

  predicate IsBreak(c: char) {
    c == '\r' || c == '\n'
  }

  /** Whether the text contains an odd number of quotes. */
  predicate InQuote(text: string) {
    text != "" && InQuote(text[..|text| - 1]) != (text[|text| - 1] == '"')
  }

  lemma {:induction false} InQuoteConcat(a: string, b: string)
    ensures InQuote(a + b) == (InQuote(a) != InQuote(b))
    decreases |b|
  {
    if b == "" {
      assert a + b == a;
    } else {
      var n := |b| - 1;
      assert (a + b)[..|a + b| - 1] == a + b[..n];
      InQuoteConcat(a, b[..n]);
    }
  }

  // ---------------------------------------------------------------------------------------
  // Rows of a text
  // ---------------------------------------------------------------------------------------

  /** Lines completed so far, the line being read, and whether a quote is open in it. */
  datatype Scan = Scan(lines: seq<string>, line: string, quoted: bool)

  const START := Scan([], "", false)

  function Flush(s: Scan): Scan {
    if s.line == "" then s else Scan(s.lines + [s.line], "", s.quoted)
  }

  function Step(s: Scan, c: char): Scan {
    if IsBreak(c) && !s.quoted then Flush(s)
    else Scan(s.lines, s.line + [c], s.quoted != (c == '"'))
  }

  function Feed(s: Scan, text: string): Scan
    decreases |text|
  {
    if text == "" then s else Feed(Step(s, text[0]), text[1..])
  }

  /** The non-empty lines of a text, cut at the CR and LF characters outside quotes. */
  function Lines(text: string): seq<string> {
    Flush(Feed(START, text)).lines
  }

  function ParseLines(lines: seq<string>): (rows: seq<Row>)
    ensures |rows| == |lines|
  {
    if lines == [] then [] else [Fields(lines[0])] + ParseLines(lines[1..])
  }

  /** What `splitCsvLines` returns. */
  function Rows(text: string): seq<Row> {
    ParseLines(Lines(text))
  }

  lemma {:induction false} FeedConcat(s: Scan, a: string, b: string)
    ensures Feed(s, a + b) == Feed(Feed(s, a), b)
    decreases |a|
  {
    if a == "" {
      assert a + b == b;
    } else {
      assert (a + b)[1..] == a[1..] + b;
      FeedConcat(Step(s, a[0]), a[1..], b);
    }
  }

  lemma FeedSnoc(text: string, i: nat)
    requires i < |text|
    ensures Feed(START, text[..i + 1]) == Step(Feed(START, text[..i]), text[i])
  {
    var c := [text[i]];
    assert text[..i + 1] == text[..i] + c;
    FeedConcat(START, text[..i], c);
    assert Feed(Step(Feed(START, text[..i]), c[0]), c[1..]) == Step(Feed(START, text[..i]), c[0]);
  }

  /** Lines already completed are carried along untouched. */
  lemma {:induction false} FeedFrame(done: seq<string>, s: Scan, text: string)
    ensures Feed(Scan(done + s.lines, s.line, s.quoted), text)
         == (var r := Feed(s, text); Scan(done + r.lines, r.line, r.quoted))
    decreases |text|
  {
    if text != "" {
      var s1 := Step(s, text[0]);
      assert done + (s.lines + [s.line]) == (done + s.lines) + [s.line];
      assert Step(Scan(done + s.lines, s.line, s.quoted), text[0]) == Scan(done + s1.lines, s1.line, s1.quoted);
      FeedFrame(done, s1, text[1..]);
    }
  }

  /** The automaton's quote flag is the parity of the quotes read. */
  lemma {:induction false} FeedQuoted(text: string)
    ensures Feed(START, text).quoted == InQuote(text)
    decreases |text|
  {
    if text != "" {
      var n := |text| - 1;
      FeedQuoted(text[..n]);
      FeedSnoc(text, n);
      assert text[..n + 1] == text;
    }
  }

  lemma {:induction false} ParseLinesConcat(a: seq<string>, b: seq<string>)
    ensures ParseLines(a + b) == ParseLines(a) + ParseLines(b)
  {
    if a == [] {
      assert a + b == b;
    } else {
      hide Fields;
      assert (a + b)[1..] == a[1..] + b;
      ParseLinesConcat(a[1..], b);
    }
  }

  /** A text whose last character is an unquoted CR or LF: nothing of it is left half read. */
  predicate EndsRow(text: string) {
    text == "" || (IsBreak(text[|text| - 1]) && !InQuote(text))
  }

  lemma EndsRowState(text: string)
    requires EndsRow(text)
    ensures Feed(START, text) == Scan(Lines(text), "", false)
  {
    if text != "" {
      var n := |text| - 1;
      FeedSnoc(text, n);
      FeedQuoted(text[..n]);
      assert text[..n + 1] == text;
      InQuoteConcat(text[..n], text[n..]);
      assert text[..n] + text[n..] == text;
    }
  }

  /** Parsing distributes over concatenation at a row boundary. */
  lemma RowsConcat(a: string, b: string)
    requires EndsRow(a)
    ensures Rows(a + b) == Rows(a) + Rows(b)
  {
    EndsRowState(a);
    FeedConcat(START, a, b);
    var r := Feed(START, b);
    assert Lines(a) + [] == Lines(a);
    FeedFrame(Lines(a), START, b);
    assert Feed(START, a + b) == Scan(Lines(a) + r.lines, r.line, r.quoted);
    assert Lines(a) + (r.lines + [r.line]) == (Lines(a) + r.lines) + [r.line];
    assert Lines(a + b) == Lines(a) + Lines(b);
    ParseLinesConcat(Lines(a), Lines(b));
  }

  /** A text has no rows exactly when it holds nothing but line breaks. */
  lemma {:induction false} NoRows(text: string)
    ensures Rows(text) == [] <==> forall k :: 0 <= k < |text| ==> IsBreak(text[k])
    decreases |text|
  {
    if text != "" {
      if IsBreak(text[0]) {
        NoRows(text[1..]);
        assert Feed(START, text) == Feed(START, text[1..]);
        if forall k :: 0 <= k < |text[1..]| ==> IsBreak(text[1..][k]) {
          forall k | 0 <= k < |text| ensures IsBreak(text[k]) {
            assert k == 0 || text[k] == text[1..][k - 1];
          }
        } else {
          var k :| 0 <= k < |text[1..]| && !IsBreak(text[1..][k]);
          assert !IsBreak(text[k + 1]);
        }
      } else {
        FeedKeepsText(Step(START, text[0]), text[1..]);
      }
    }
  }

  lemma {:induction false} FeedKeepsText(s: Scan, text: string)
    requires s.line != "" || s.lines != []
    ensures Feed(s, text).line != "" || Feed(s, text).lines != []
    decreases |text|
  {
    if text != "" {
      FeedKeepsText(Step(s, text[0]), text[1..]);
    }
  }

  /** The automaton has reached `s` after the first `i` characters. */
  ghost predicate At(text: string, i: nat, s: Scan) {
    i <= |text| && Feed(START, text[..i]) == s
  }

  lemma Advance(text: string, i: nat, s: Scan)
    requires i < |text| && At(text, i, s)
    ensures At(text, i + 1, Step(s, text[i]))
  {
    FeedSnoc(text, i);
  }

  /** The rows of the lines read so far, the last one taken as complete. */
  function RowsOf(s: Scan): seq<Row> {
    ParseLines(Flush(s).lines)
  }

  lemma RowsOfStep(s: Scan, c: char)
    requires IsBreak(c) && !s.quoted
    ensures RowsOf(Step(s, c)) == RowsOf(s)
  {
  }

  lemma RowsOfLine(lines: seq<string>, line: string, quoted: bool)
    requires line != ""
    ensures RowsOf(Scan(lines, line, quoted)) == ParseLines(lines) + [Fields(line)]
  {
    ParseLinesConcat(lines, [line]);
  }

  /** The inner loop of `splitCsvLines`: the end of the line that starts at `lineStart`. */
  method LineEnd(text: string, lineStart: nat, ghost done: seq<string>) returns (i: nat, ghost quoted: bool)
    requires lineStart < |text| && !IsBreak(text[lineStart])
    requires At(text, lineStart, Scan(done, "", false))
    ensures lineStart < i <= |text|
    ensures At(text, i, Scan(done, text[lineStart..i], quoted))
    ensures i < |text| ==> IsBreak(text[i]) && !quoted
  {
    i := lineStart;
    var inQuote := false;
    while i < |text|
      invariant lineStart <= i <= |text|
      invariant At(text, i, Scan(done, text[lineStart..i], inQuote))
      invariant i == lineStart ==> !inQuote
    {
      var ch := text[i];
      if ch == '"' {
        if inQuote && i + 1 < |text| && text[i + 1] == '"' {
          Advance(text, i, Scan(done, text[lineStart..i], inQuote));
          assert text[lineStart..i] + [ch] == text[lineStart..i + 1];
          Advance(text, i + 1, Scan(done, text[lineStart..i + 1], false));
          assert text[lineStart..i + 1] + [text[i + 1]] == text[lineStart..i + 2];
          i := i + 2;
          continue;
        }
        Advance(text, i, Scan(done, text[lineStart..i], inQuote));
        inQuote := !inQuote;
      } else if (ch == '\n' || ch == '\r') && !inQuote {
        break;
      } else {
        Advance(text, i, Scan(done, text[lineStart..i], inQuote));
      }
      assert text[lineStart..i] + [ch] == text[lineStart..i + 1];
      i := i + 1;
    }
    quoted := inQuote;
  }

  method SplitCsvLines(text: string) returns (rows: seq<Row>)
    ensures rows == Rows(text)
  {
    rows := [];
    var i := 0;
    var len := |text|;
    ghost var s := START;
    while i < len
      invariant At(text, i, s)
      invariant i < len ==> s.line == "" && !s.quoted
      invariant rows == RowsOf(s)
    {
      if text[i] == '\r' || text[i] == '\n' {
        Advance(text, i, s);
        i := i + 1;
        continue;
      }
      var lineStart := i;
      ghost var quoted;
      i, quoted := LineEnd(text, lineStart, s.lines);
      var line := text[lineStart..i];
      if |line| > 0 {
        var fields := SplitCsvRow(line);
        RowsOfLine(s.lines, line, quoted);
        rows := rows + [fields];
      }
      s := Scan(s.lines, line, quoted);
      if i < len && text[i] == '\r' {
        Advance(text, i, s);
        RowsOfStep(s, text[i]);
        s := Step(s, text[i]);
        i := i + 1;
      }
      if i < len && text[i] == '\n' {
        Advance(text, i, s);
        RowsOfStep(s, text[i]);
        s := Step(s, text[i]);
        i := i + 1;
      }
    }
    assert text[..i] == text;
  }

  datatype ParsedCsv = ParsedCsv(columns: Row, rows: seq<Row>)

  method ParseCsv(text: string) returns (csv: ParsedCsv)
    ensures Rows(text) == [] ==> csv == ParsedCsv([], [])
    ensures Rows(text) != [] ==> [csv.columns] + csv.rows == Rows(text)
  {
    var allRows := SplitCsvLines(text);
    if |allRows| == 0 {
      return ParsedCsv([], []);
    }
    return ParsedCsv(allRows[0], allRows[1..]);
  }

  // ---------------------------------------------------------------------------------------
  // Fields of a line
  // ---------------------------------------------------------------------------------------

  /** Value of a quoted field whose opening quote has been read, and the text after it. */
  function QuotedField(s: string): (field: (string, string))
    ensures |field.1| <= |s|
    decreases |s|
  {
    if s == "" then ("", "")
    else if s[0] == '"' then
      if |s| > 1 && s[1] == '"' then
        var (val, rest) := QuotedField(s[2..]);
        ("\"" + val, rest)
      else
        ("", s[1..])
    else
      var (val, rest) := QuotedField(s[1..]);
      ([s[0]] + val, rest)
  }

  /** Position of the first comma, or the length of the text. */
  function CommaAt(s: string): (k: nat)
    ensures k <= |s|
    decreases |s|
  {
    if s == "" || s[0] == ',' then 0 else 1 + CommaAt(s[1..])
  }

  function SkipComma(s: string): string {
    if s != "" && s[0] == ',' then s[1..] else s
  }

  /** The fields of a line. */
  function Fields(s: string): (fields: Row)
    ensures fields != []
    decreases |s|
  {
    if s == "" then [""]
    else if s[0] == '"' then
      var (val, rest) := QuotedField(s[1..]);
      [val] + Fields(SkipComma(rest))
    else
      var k := CommaAt(s);
      if k == |s| then [s] else [s[..k]] + Fields(s[k + 1..])
  }

  /** The field from `start` is `val` followed by what is still to be read from `i`. */
  ghost predicate Reading(line: string, start: nat, val: string, i: nat) {
    && start <= i <= |line|
    && QuotedField(line[start..]) == (val + QuotedField(line[i..]).0, QuotedField(line[i..]).1)
  }

  lemma ReadingChar(line: string, start: nat, val: string, i: nat)
    requires Reading(line, start, val, i) && i < |line| && line[i] != '"'
    ensures Reading(line, start, val + [line[i]], i + 1)
  {
    assert line[i..][1..] == line[i + 1..];
    var rest := QuotedField(line[i + 1..]).0;
    assert (val + [line[i]]) + rest == val + ([line[i]] + rest);
  }

  lemma ReadingPair(line: string, start: nat, val: string, i: nat)
    requires Reading(line, start, val, i) && i + 1 < |line| && line[i] == '"' && line[i + 1] == '"'
    ensures Reading(line, start, val + "\"", i + 2)
  {
    assert line[i..][2..] == line[i + 2..];
    var rest := QuotedField(line[i + 2..]).0;
    assert (val + "\"") + rest == val + ("\"" + rest);
  }

  /** The closing quote, or the end of the line, completes the field. */
  lemma ReadingDone(line: string, start: nat, val: string, i: nat)
    requires Reading(line, start, val, i)
    requires i < |line| ==> line[i] == '"' && !(i + 1 < |line| && line[i + 1] == '"')
    ensures QuotedField(line[start..]) == (val, line[if i < |line| then i + 1 else i..])
  {
    assert val + "" == val;
    assert i < |line| ==> line[i..][1..] == line[i + 1..];
  }

  /** The inner loop of `splitCsvRow`: the quoted field whose opening quote is just before `start`. */
  method ReadQuoted(line: string, start: nat) returns (val: string, i: nat)
    requires start <= |line|
    ensures start <= i <= |line|
    ensures QuotedField(line[start..]) == (val, line[i..])
  {
    val := "";
    i := start;
    assert "" + QuotedField(line[start..]).0 == QuotedField(line[start..]).0;
    while i < |line|
      invariant Reading(line, start, val, i)
    {
      if line[i] == '"' {
        if i + 1 < |line| && line[i + 1] == '"' {
          ReadingPair(line, start, val, i);
          val := val + "\"";
          i := i + 2;
        } else {
          ReadingDone(line, start, val, i);
          i := i + 1; // skip closing quote
          return;
        }
      } else {
        ReadingChar(line, start, val, i);
        val := val + [line[i]];
        i := i + 1;
      }
    }
    ReadingDone(line, start, val, i);
  }

  /** The line's fields are `fields` followed by those still to be read from `i`. */
  ghost predicate Splitting(line: string, fields: Row, i: nat) {
    i <= |line| && Fields(line) == fields + Fields(line[i..])
  }

  lemma SplittingQuoted(line: string, fields: Row, i: nat, val: string, next: nat)
    requires Splitting(line, fields, i) && i < |line| && line[i] == '"'
    requires next <= |line| && QuotedField(line[i + 1..]) == (val, line[next..])
    ensures Splitting(line, fields + [val], if next < |line| && line[next] == ',' then next + 1 else next)
  {
    assert line[i..][1..] == line[i + 1..];
    var to := if next < |line| && line[next] == ',' then next + 1 else next;
    assert SkipComma(line[next..]) == line[to..];
    SplittingField(line, fields, i, val, to);
  }

  lemma SplittingBare(line: string, fields: Row, i: nat, k: nat)
    requires Splitting(line, fields, i) && i < |line| && line[i] != '"'
    requires i + CommaAt(line[i..]) == k < |line|
    ensures Splitting(line, fields + [line[i..k]], k + 1)
  {
    hide *;
    var s := line[i..];
    BareField(s, k - i);
    assert s[..k - i] == line[i..k] && s[k - i + 1..] == line[k + 1..];
    SplittingField(line, fields, i, line[i..k], k + 1);
  }

  lemma BareField(s: string, k: nat)
    requires s != "" && s[0] != '"' && CommaAt(s) == k < |s|
    ensures Fields(s) == [s[..k]] + Fields(s[k + 1..])
  {
    hide CommaAt;
  }

  lemma SplittingField(line: string, fields: Row, i: nat, val: string, next: nat)
    requires Splitting(line, fields, i) && next <= |line|
    requires Fields(line[i..]) == [val] + Fields(line[next..])
    ensures Splitting(line, fields + [val], next)
  {
    var rest := Fields(line[next..]);
    assert (fields + [val]) + rest == fields + ([val] + rest);
  }

  /** The last field: the end of the line, or a bare field without a comma after it. */
  lemma SplittingDone(line: string, fields: Row, i: nat)
    requires Splitting(line, fields, i)
    requires i < |line| ==> line[i] != '"' && i + CommaAt(line[i..]) == |line|
    ensures Fields(line) == fields + [line[i..]]
  {
  }

  method SplitCsvRow(line: string) returns (fields: Row)
    ensures fields == Fields(line)
  {
    hide Fields, CommaAt, QuotedField;
    fields := [];
    var i := 0;
    assert line[0..] == line;
    while i <= |line|
      invariant Splitting(line, fields, i)
      decreases |line| - i
    {
      if i == |line| {
        SplittingDone(line, fields, i);
        fields := fields + [""];
        break;
      }
      if line[i] == '"' {
        ghost var start := i;
        var val;
        val, i := ReadQuoted(line, i + 1);
        SplittingQuoted(line, fields, start, val, i);
        fields := fields + [val];
        if i < |line| && line[i] == ',' {
          i := i + 1; // skip delimiter
        }
      } else {
        var next := IndexOfComma(line, i);
        if next == -1 {
          SplittingDone(line, fields, i);
          fields := fields + [line[i..]];
          break;
        }
        SplittingBare(line, fields, i, next);
        fields := fields + [line[i..next]];
        i := next + 1;
      }
    }
  }

  /** JavaScript's `line.indexOf(',', i)`. */
  method IndexOfComma(line: string, i: nat) returns (k: int)
    requires i <= |line|
    ensures k == if i + CommaAt(line[i..]) == |line| then -1 else i + CommaAt(line[i..])
  {
    k := i;
    while k < |line| && line[k] != ','
      invariant i <= k <= |line|
      invariant i + CommaAt(line[i..]) == k + CommaAt(line[k..])
    {
      assert line[k..][1..] == line[k + 1..];
      k := k + 1;
    }
    if k == |line| {
      k := -1;
    }
  }
}
