/** Model of the result loader of athena-preview.js: `findSafeBreak`, `runQuery` and `loadMore`.

    A query result is one CSV file that is fetched in chunks. Each chunk is cut at its last safe
    line break; what follows the cut is carried over to the next chunk. The theorems compare what
    the loader has accumulated with parsing the whole file at once. One character stands for one byte.
  */
module AthenaPreview {
  import opened CsvUtils
  import opened Wrappers

  // ---------------------------------------------------------------------------------------
  // Safe breaks
  // ---------------------------------------------------------------------------------------

  /** An LF outside quotes. */
  predicate SafeAt(text: string, k: int) {
    0 <= k < |text| && text[k] == '\n' && !InQuote(text[..k])
  }

  /** `r` is the largest index of an LF outside quotes, or -1. */
  ghost predicate IsLastSafeBreak(text: string, r: int) {
    && (r == -1 || SafeAt(text, r))
    && (forall k :: r < k < |text| ==> !SafeAt(text, k))
  }

  function LastSafeBreak(text: string): (r: int)
    ensures -1 <= r < |text|
    decreases |text|
  {
    if text == "" then -1
    else
      var n := |text| - 1;
      if SafeAt(text, n) then n else LastSafeBreak(text[..n])
  }

  lemma {:induction false} LastSafeBreakIsLast(text: string)
    ensures IsLastSafeBreak(text, LastSafeBreak(text))
    decreases |text|
  {
    if text != "" {
      var n := |text| - 1;
      LastSafeBreakIsLast(text[..n]);
      forall k | 0 <= k < n ensures SafeAt(text, k) == SafeAt(text[..n], k) {
        assert text[..n][..k] == text[..k];
      }
    }
  }

  lemma LastSafeBreakSnoc(text: string, i: nat)
    requires i < |text|
    ensures LastSafeBreak(text[..i + 1]) == if SafeAt(text, i) then i else LastSafeBreak(text[..i])
  {
    assert text[..i + 1][..i] == text[..i];
  }

  lemma InQuoteSnoc(text: string, i: nat)
    requires i < |text|
    ensures InQuote(text[..i + 1]) == (InQuote(text[..i]) != (text[i] == '"'))
  {
    assert text[..i + 1][..i] == text[..i];
  }

  method FindSafeBreak(text: string) returns (r: int)
    ensures r == LastSafeBreak(text)
    ensures IsLastSafeBreak(text, r)
  {
    var inQuote := false;
    var lastNewline := -1;
    var i := 0;
    while i < |text|
      invariant 0 <= i <= |text|
      invariant inQuote == InQuote(text[..i])
      invariant lastNewline == LastSafeBreak(text[..i]) || (lastNewline == i && SafeAt(text, i))
    {
      var ch := text[i];
      InQuoteSnoc(text, i);
      LastSafeBreakSnoc(text, i);
      if ch == '"' {
        if inQuote && i + 1 < |text| && text[i + 1] == '"' {
          InQuoteSnoc(text, i + 1);
          LastSafeBreakSnoc(text, i + 1);
          i := i + 2;
          continue;
        }
        inQuote := !inQuote;
      } else if ch == '\r' {
        if !inQuote && i + 1 < |text| && text[i + 1] == '\n' {
          lastNewline := i + 1;
        }
      } else if ch == '\n' && !inQuote {
        lastNewline := i;
      }
      i := i + 1;
    }
    assert text[..i] == text;
    LastSafeBreakIsLast(text);
    return lastNewline;
  }

  /** Safe breaks of a concatenation whose first part leaves no quote open. */
  lemma {:induction false} LastSafeBreakConcat(a: string, b: string)
    requires !InQuote(a)
    ensures LastSafeBreak(a + b) == if LastSafeBreak(b) == -1 then LastSafeBreak(a) else |a| + LastSafeBreak(b)
    decreases |b|
  {
    if b == "" {
      assert a + b == a;
    } else {
      var n := |b| - 1;
      assert (a + b)[..|a| + n] == a + b[..n];
      InQuoteConcat(a, b[..n]);
      LastSafeBreakConcat(a, b[..n]);
    }
  }

  /** A text that is empty or ends in a safe break. */
  predicate EndsSafe(text: string) {
    text == "" || SafeAt(text, |text| - 1)
  }

  lemma EndsSafeFacts(text: string)
    requires EndsSafe(text)
    ensures EndsRow(text) && !InQuote(text) && LastSafeBreak(text) == |text| - 1
  {
  }

  lemma EndsSafeConcat(a: string, b: string)
    requires EndsSafe(a) && EndsSafe(b)
    ensures EndsSafe(a + b)
  {
    if b == "" {
      assert a + b == a;
    } else {
      hide InQuote;
      var n := |b| - 1;
      EndsSafeFacts(a);
      InQuoteConcat(a, b[..n]);
      assert (a + b)[..|a| + n] == a + b[..n];
    }
  }

  /** The text up to and including its last safe break, and the text after it. */
  ghost predicate IsCut(text: string, done: string, rest: string) {
    text == done + rest && EndsSafe(done) && LastSafeBreak(rest) == -1
  }

  lemma UpToLastBreak(text: string)
    ensures EndsSafe(text[..LastSafeBreak(text) + 1])
  {
    LastSafeBreakIsLast(text);
    var k := LastSafeBreak(text);
    hide LastSafeBreak, InQuote;
    if k >= 0 {
      assert text[..k + 1][..k] == text[..k];
    }
  }

  lemma SafeAfter(a: string, b: string, k: nat)
    requires !InQuote(a) && SafeAt(b, k)
    ensures SafeAt(a + b, |a| + k)
  {
    hide InQuote;
    assert (a + b)[..|a| + k] == a + b[..k];
    InQuoteConcat(a, b[..k]);
  }

  lemma NoBreakAfterLast(a: string, b: string)
    requires !InQuote(a) && LastSafeBreak(a + b) + 1 == |a|
    ensures LastSafeBreak(b) == -1
  {
    hide LastSafeBreak, InQuote, SafeAt;
    LastSafeBreakIsLast(a + b);
    LastSafeBreakIsLast(b);
    var k := LastSafeBreak(b);
    if k != -1 {
      SafeAfter(a, b, k);
    }
  }

  lemma CutOf(text: string, a: string, b: string)
    requires text == a + b && |a| == LastSafeBreak(text) + 1 && EndsSafe(a)
    ensures IsCut(text, a, b)
  {
    hide LastSafeBreak, InQuote, EndsSafe, EndsRow;
    EndsSafeFacts(a);
    NoBreakAfterLast(a, b);
  }

  lemma CutAtLastBreak(text: string)
    ensures var k := LastSafeBreak(text) + 1; IsCut(text, text[..k], text[k..])
  {
    hide LastSafeBreak, EndsSafe, IsCut;
    var k := LastSafeBreak(text) + 1;
    UpToLastBreak(text);
    assert text == text[..k] + text[k..];
    CutOf(text, text[..k], text[k..]);
  }

  lemma CutIsUnique(text: string, done: string, rest: string)
    requires IsCut(text, done, rest)
    ensures var k := LastSafeBreak(text) + 1; done == text[..k] && rest == text[k..]
  {
    hide LastSafeBreak, EndsSafe;
    EndsSafeFacts(done);
    LastSafeBreakConcat(done, rest);
  }

  /** Cutting what was carried over together with the next chunk cuts the text as a whole. */
  lemma CutCarriedOver(text: string, done: string, rest: string, chunk: string, done': string, rest': string)
    requires IsCut(text, done, rest) && IsCut(rest + chunk, done', rest')
    ensures IsCut(text + chunk, done + done', rest')
    ensures Rows(done + done') == Rows(done) + Rows(done')
  {
    hide EndsSafe, LastSafeBreak, Rows;
    EndsSafeConcat(done, done');
    EndsSafeFacts(done);
    RowsConcat(done, done');
    assert text + chunk == done + (rest + chunk);
    assert done + (done' + rest') == (done + done') + rest';
  }

  // ---------------------------------------------------------------------------------------
  // The loader
  // ---------------------------------------------------------------------------------------

  datatype Fetch = Fetched(text: string, totalSize: nat, bytesRead: nat) | FetchFailed

  /** The mutable query state that the page shows. `button` says whether the status bar holds the button that
      loads more: there is no other way to load more. */
  datatype View = View(columns: Option<Row>, rows: seq<Row>, remainder: string, bytesLoaded: nat, totalSize: nat,
                       button: bool)

  /** State after `runQuery` fetched its first chunk. A first part without rows ends the loading. */
  function Start(f: Fetch): View {
    match f
    case FetchFailed => View(None, [], "", 0, 0, false)
    case Fetched(text, totalSize, bytesRead) =>
      var whole := bytesRead >= totalSize;
      var parsed := Rows(if whole then text else FirstPart(text));
      var remainder := if whole then "" else text[|FirstPart(text)|..];
      View(if parsed == [] then None else Some(parsed[0]),
           if parsed == [] then [] else parsed[1..],
           remainder,
           if whole then totalSize else bytesRead,
           totalSize,
           parsed != [] && !whole)
  }

  /** What is parsed of a first chunk that is not the whole file: up to its last safe break, or all of it if
      there is none. */
  function FirstPart(chunk: string): string {
    if LastSafeBreak(chunk) == -1 then chunk else chunk[..LastSafeBreak(chunk) + 1]
  }

  /** State after one click on the button, if there is one; an error takes the button away. */
  function More(v: View, f: Fetch): View {
    if !v.button || v.bytesLoaded >= v.totalSize then v
    else if f.FetchFailed? then v.(button := false)
    else
      var text := v.remainder + f.text;
      var loaded := v.bytesLoaded + f.bytesRead;
      var k := LastSafeBreak(text);
      if k == -1 then
        v.(remainder := text, bytesLoaded := loaded, button := loaded < v.totalSize)
      else
        v.(rows := v.rows + Rows(text[..k + 1]), remainder := text[k + 1..],
           bytesLoaded := if loaded > v.totalSize then v.totalSize else loaded,
           button := loaded < v.totalSize)
  }

  class ResultLoader {
    var columns: Option<Row>
    var allRows: seq<Row>
    var remainder: string
    var bytesLoaded: nat
    var totalSize: nat
    var button: bool

    constructor ()
      ensures Current() == View(None, [], "", 0, 0, false)
    {
      columns := None;
      allRows := [];
      remainder := "";
      bytesLoaded := 0;
      totalSize := 0;
      button := false;
    }

    function Current(): View
      reads this
    {
      View(columns, allRows, remainder, bytesLoaded, totalSize, button)
    }

    method RunQuery(chunk: Fetch)
      modifies this
      ensures Current() == Start(chunk)
    {
      hide Rows, LastSafeBreak;
      allRows := [];
      remainder := "";
      bytesLoaded := 0;
      totalSize := 0;
      columns := None;
      button := false;
      if chunk.FetchFailed? {
        return;
      }
      totalSize := chunk.totalSize;
      var text := chunk.text;
      var breakIdx := FindSafeBreak(text);
      var complete;
      if breakIdx == -1 {
        complete := text;
        remainder := "";
        bytesLoaded := chunk.bytesRead;
      } else {
        complete := text[..breakIdx + 1];
        remainder := text[breakIdx + 1..];
        bytesLoaded := chunk.bytesRead;
      }
      if bytesLoaded >= totalSize {
        bytesLoaded := totalSize;
        remainder := "";
        complete := text;
      }
      var parsed := SplitCsvLines(complete);
      if |parsed| == 0 {
        return;
      }
      columns := Some(parsed[0]);
      allRows := parsed[1..];
      UpdateStatusBar();
    }

    method UpdateStatusBar()
      modifies this`button
      ensures button == (bytesLoaded < totalSize)
    {
      button := bytesLoaded < totalSize;
    }

    method LoadMore(chunk: Fetch)
      modifies this
      ensures Current() == More(old(Current()), chunk)
    {
      hide Rows, LastSafeBreak;
      if !button {
        return;
      }
      if bytesLoaded >= totalSize {
        return;
      }
      if chunk.FetchFailed? {
        button := false;
        return;
      }
      var text := remainder + chunk.text;
      var breakIdx := FindSafeBreak(text);
      if breakIdx == -1 {
        remainder := text;
        bytesLoaded := bytesLoaded + chunk.bytesRead;
      } else {
        var complete := text[..breakIdx + 1];
        remainder := text[breakIdx + 1..];
        bytesLoaded := bytesLoaded + chunk.bytesRead;
        if bytesLoaded > totalSize {
          bytesLoaded := totalSize;
        }
        var newRows := SplitCsvLines(complete);
        allRows := allRows + newRows;
      }
      UpdateStatusBar();
    }
  }

  // ---------------------------------------------------------------------------------------
  // Whole runs
  // ---------------------------------------------------------------------------------------

  /** The text delivered by a series of fetches. */
  function Delivered(chunks: seq<string>): string {
    if chunks == [] then "" else Delivered(chunks[..|chunks| - 1]) + chunks[|chunks| - 1]
  }

  /** The loader's state after it fetched the chunks of a file of the given size, one by one. */
  function Loaded(chunks: seq<string>, size: nat): View
    requires chunks != []
  {
    var n := |chunks| - 1;
    var f := Fetched(chunks[n], size, |chunks[n]|);
    if n == 0 then Start(f) else More(Loaded(chunks[..n], size), f)
  }

  /** Header and data rows together. */
  function Table(v: View): seq<Row> {
    (if v.columns.Some? then [v.columns.value] else []) + v.rows
  }

  /** The text parsed without regard to the chunks after it: all of a first chunk without safe break. */
  function Head(chunk: string): string {
    if LastSafeBreak(chunk) == -1 then chunk else ""
  }

  lemma {:induction false} DeliveredFirst(chunks: seq<string>)
    requires chunks != []
    ensures |chunks[0]| <= |Delivered(chunks)| && Delivered(chunks)[..|chunks[0]|] == chunks[0]
    decreases |chunks|
  {
    var n := |chunks| - 1;
    if n == 0 {
      assert Delivered(chunks[..0]) == "";
      assert "" + chunks[0] == chunks[0];
    } else {
      DeliveredFirst(chunks[..n]);
    }
  }

  /** The text has been parsed up to its last safe break and the rest is carried over. */
  ghost predicate InStep(v: View, before: seq<Row>, text: string, done: string) {
    IsCut(text, done, v.remainder) && Table(v) == before + Rows(done)
  }

  /** There is a header, and a button as long as there is more to load. */
  predicate Loading(v: View) {
    v.columns.Some? && v.button == (v.bytesLoaded < v.totalSize)
  }

  /** One `loadMore` keeps the table in step with the text. */
  lemma LoadMoreKeepsInStep(v: View, before: seq<Row>, text: string, done: string, chunk: string)
    returns (done': string)
    requires InStep(v, before, text, done) && Loading(v)
    requires v.bytesLoaded + |chunk| <= v.totalSize
    ensures var w := More(v, Fetched(chunk, v.totalSize, |chunk|));
            && InStep(w, before, text + chunk, done') && Loading(w)
            && w.bytesLoaded == v.bytesLoaded + |chunk| && w.totalSize == v.totalSize
  {
    hide LastSafeBreak, EndsSafe, Rows;
    if v.bytesLoaded >= v.totalSize {
      assert text + chunk == text;
      done' := done;
    } else {
      var more := v.remainder + chunk;
      var k := LastSafeBreak(more) + 1;
      CutAtLastBreak(more);
      CutCarriedOver(text, done, v.remainder, chunk, more[..k], more[k..]);
      done' := done + more[..k];
      if k == 0 {
        assert done' == done && more[k..] == more;
      } else {
        var w := More(v, Fetched(chunk, v.totalSize, |chunk|));
        assert Table(w) == Table(v) + Rows(more[..k]);
      }
    }
  }

  /** What holds after every fetch of a file that does not fit in the first chunk, if the first part has rows. */
  lemma {:induction false} LoadedSoFar(chunks: seq<string>, size: nat) returns (done: string)
    requires chunks != [] && |chunks[0]| < size && |Delivered(chunks)| <= size
    requires Rows(FirstPart(chunks[0])) != []
    ensures var v := Loaded(chunks, size);
            var head, text := Head(chunks[0]), Delivered(chunks);
            && |head| <= |text| && text[..|head|] == head
            && v.totalSize == size && v.bytesLoaded == |text| && Loading(v)
            && InStep(v, Rows(head), text[|head|..], done)
    decreases |chunks|
  {
    hide *;
    var n := |chunks| - 1;
    var head, text := Head(chunks[0]), Delivered(chunks);
    LoadedUnfolds(chunks, size);
    if n == 0 {
      done := FirstChunkInStep(chunks[0], size);
    } else {
      var prev := Delivered(chunks[..n]);
      done := LoadedSoFar(chunks[..n], size);
      assert text[|head|..] == prev[|head|..] + chunks[n];
      done := LoadMoreKeepsInStep(Loaded(chunks[..n], size), Rows(head), prev[|head|..], done, chunks[n]);
    }
  }

  lemma LoadedUnfolds(chunks: seq<string>, size: nat)
    requires chunks != []
    ensures var n := |chunks| - 1;
            var f := Fetched(chunks[n], size, |chunks[n]|);
            && (n == 0 ==> Delivered(chunks) == chunks[0] && Loaded(chunks, size) == Start(f))
            && (n > 0 ==> Delivered(chunks) == Delivered(chunks[..n]) + chunks[n]
                          && Loaded(chunks, size) == More(Loaded(chunks[..n], size), f))
  {
    hide Start, More;
    assert Delivered(chunks[..0]) == "" && "" + chunks[0] == chunks[0];
  }

  lemma FirstChunkInStep(chunk: string, size: nat) returns (done: string)
    requires |chunk| < size && Rows(FirstPart(chunk)) != []
    ensures var v := Start(Fetched(chunk, size, |chunk|));
            && v.totalSize == size && v.bytesLoaded == |chunk| && Loading(v)
            && |Head(chunk)| <= |chunk| && chunk[..|Head(chunk)|] == Head(chunk)
            && InStep(v, Rows(Head(chunk)), chunk[|Head(chunk)|..], done)
  {
    var k := LastSafeBreak(chunk) + 1;
    CutAtLastBreak(chunk);
    NoRows("");
    hide LastSafeBreak, Rows;
    if k == 0 {
      done := "";
      assert chunk[|chunk|..] == "" && chunk[..|chunk|] == chunk;
      CutAtLastBreak("");
    } else {
      done := chunk[..k];
      assert chunk[0..] == chunk;
    }
  }

  /** A file that fits in the first chunk is parsed at once; later fetches change nothing. */
  lemma {:induction false} LoadedWhole(chunks: seq<string>, size: nat)
    requires chunks != [] && |chunks[0]| >= size
    ensures Loaded(chunks, size) == Start(Fetched(chunks[0], size, |chunks[0]|))
    ensures Table(Loaded(chunks, size)) == Rows(chunks[0])
    decreases |chunks|
  {
    hide Rows, LastSafeBreak;
    var n := |chunks| - 1;
    if n > 0 {
      LoadedWhole(chunks[..n], size);
    }
  }

  /** A first part without rows: the page says so and loads no more, whatever follows in the file. */
  lemma {:induction false} LoadedNothing(chunks: seq<string>, size: nat)
    requires chunks != [] && |chunks[0]| < size && Rows(FirstPart(chunks[0])) == []
    ensures var v := Loaded(chunks, size);
            && Table(v) == [] && !v.button && v.bytesLoaded == |chunks[0]|
            && v.remainder == chunks[0][|FirstPart(chunks[0])|..]
    decreases |chunks|
  {
    hide Rows, LastSafeBreak, FirstPart;
    var n := |chunks| - 1;
    if n > 0 {
      LoadedNothing(chunks[..n], size);
    }
  }

  /** The text that is fetched: all that is delivered, or the first chunk if that ends the loading. */
  function Taken(chunks: seq<string>): string
    requires chunks != []
  {
    if Rows(FirstPart(chunks[0])) == [] then chunks[0] else Delivered(chunks)
  }

  lemma FirstPartFacts(chunk: string)
    ensures |FirstPart(chunk)| <= |chunk| && chunk == FirstPart(chunk) + chunk[|FirstPart(chunk)|..]
    ensures Head(chunk) <= FirstPart(chunk)
    ensures Rows(FirstPart(chunk)) == Rows(Head(chunk)) + Rows(FirstPart(chunk)[|Head(chunk)|..])
    ensures LastSafeBreak(chunk[|FirstPart(chunk)|..]) == -1
  {
    NoRows("");
    CutAtLastBreak(chunk);
    hide Rows, LastSafeBreak, EndsSafe;
    var k := LastSafeBreak(chunk) + 1;
    if k == 0 {
      assert chunk[|chunk|..] == "" && chunk[..|chunk|] == chunk;
      CutAtLastBreak("");
    } else {
      assert chunk[..k][0..] == chunk[..k];
    }
  }

  /** At every step the text already parsed and the text carried over make up what was fetched. */
  lemma NothingLost(chunks: seq<string>, size: nat) returns (parsed: string)
    requires chunks != [] && |chunks[0]| < size && |Delivered(chunks)| <= size
    ensures var v := Loaded(chunks, size);
            var head := Head(chunks[0]);
            && Taken(chunks) == parsed + v.remainder && |Taken(chunks)| == v.bytesLoaded
            && LastSafeBreak(v.remainder) == -1
            && head <= parsed
            && Table(v) == Rows(head) + Rows(parsed[|head|..])
  {
    hide Rows, LastSafeBreak, Head, Loaded, FirstPart;
    var text, head := Delivered(chunks), Head(chunks[0]);
    FirstPartFacts(chunks[0]);
    if Rows(FirstPart(chunks[0])) == [] {
      LoadedNothing(chunks, size);
      parsed := FirstPart(chunks[0]);
    } else {
      var done := LoadedSoFar(chunks, size);
      parsed := head + done;
      assert parsed[|head|..] == done;
      assert text == head + text[|head|..];
    }
  }

  predicate OnlyCarriageReturns(text: string) {
    forall k :: 0 <= k < |text| ==> text[k] == '\r'
  }

  lemma {:induction false} NoQuotes(text: string)
    requires forall k :: 0 <= k < |text| ==> text[k] != '"'
    ensures !InQuote(text)
    decreases |text|
  {
    if text != "" {
      NoQuotes(text[..|text| - 1]);
    }
  }

  /** A text without safe break has no rows exactly when it holds nothing but CR characters. */
  lemma NoRowsWithoutBreak(text: string)
    requires LastSafeBreak(text) == -1
    ensures Rows(text) == [] <==> OnlyCarriageReturns(text)
  {
    NoRows(text);
    LastSafeBreakIsLast(text);
    hide Rows, LastSafeBreak, InQuote;
    if forall k :: 0 <= k < |text| ==> IsBreak(text[k]) {
      forall k | 0 <= k < |text| ensures text[k] == '\r' {
        NoQuotes(text[..k]);
        assert !SafeAt(text, k);
      }
    }
  }

  /** The text that never gets parsed: what follows the last safe break of the file. */
  function Leftover(file: string): string {
    file[LastSafeBreak(file) + 1..]
  }

  lemma InStepMeans(v: View, before: seq<Row>, text: string, done: string)
    requires InStep(v, before, text, done)
    ensures IsCut(text, done, v.remainder) && Table(v) == before + Rows(done)
  {
  }

  lemma CutAtEnd(text: string, done: string, rest: string)
    requires IsCut(text, done, rest) && EndsSafe(text)
    ensures done == text && rest == ""
  {
    hide LastSafeBreak, EndsSafe, IsCut;
    CutIsUnique(text, done, rest);
    EndsSafeFacts(text);
  }

  /** A file that came in several chunks, the first with a safe break, has been parsed up to its last safe
      break. */
  lemma LoadedInParts(chunks: seq<string>) returns (done: string)
    requires chunks != [] && LastSafeBreak(chunks[0]) != -1 && |chunks[0]| < |Delivered(chunks)|
    requires Rows(FirstPart(chunks[0])) != []
    ensures var file := Delivered(chunks);
            var v := Loaded(chunks, |file|);
            IsCut(file, done, v.remainder) && Table(v) == Rows(done) && v.bytesLoaded == |file| && Loading(v)
  {
    hide *;
    var file := Delivered(chunks);
    done := LoadedSoFar(chunks, |file|);
    NothingAhead(chunks[0]);
    assert file[0..] == file;
    InStepMeans(Loaded(chunks, |file|), Rows(""), file, done);
    assert Rows("") + Rows(done) == Rows(done);
  }

  lemma NothingAhead(chunk: string)
    requires LastSafeBreak(chunk) != -1
    ensures Head(chunk) == "" && Rows("") == []
  {
    NoRows("");
  }

  lemma LeftoverOf(file: string, done: string, rest: string)
    requires IsCut(file, done, rest)
    ensures rest == Leftover(file) && Rows(file) == Rows(done) + Rows(rest) && LastSafeBreak(rest) == -1
  {
    hide Rows, LastSafeBreak, EndsSafe;
    CutIsUnique(file, done, rest);
    EndsSafeFacts(done);
    RowsConcat(done, rest);
  }

  predicate OnlyBreaks(text: string) {
    forall k :: 0 <= k < |text| ==> IsBreak(text[k])
  }

  lemma NoRowsMeans(text: string)
    ensures Rows(text) == [] <==> OnlyBreaks(text)
  {
    NoRows(text);
  }

  lemma OnlyBreaksPart(chunk: string, file: string)
    requires |chunk| <= |file| && file[..|chunk|] == chunk && OnlyBreaks(file)
    ensures OnlyBreaks(FirstPart(chunk))
  {
    hide LastSafeBreak;
    forall k | 0 <= k < |FirstPart(chunk)| ensures IsBreak(FirstPart(chunk)[k]) {
      assert FirstPart(chunk)[k] == file[k];
    }
  }

  /** Loading a file chunk by chunk, when the first chunk has a safe break or is the whole file, shows the rows of
      the whole file exactly if
      - it came in one chunk, or
      - its first part has a row, and nothing but CR characters follow its last safe break, or
      - it has no rows. */
  lemma StreamingExact(chunks: seq<string>)
    requires chunks != []
    requires LastSafeBreak(chunks[0]) != -1 || |chunks[0]| >= |Delivered(chunks)|
    ensures var file := Delivered(chunks);
            (Table(Loaded(chunks, |file|)) == Rows(file))
            <==> (|chunks[0]| == |file| || OnlyBreaks(file)
                  || (!OnlyBreaks(FirstPart(chunks[0])) && OnlyCarriageReturns(Leftover(file))))
  {
    hide *;
    var file := Delivered(chunks);
    DeliveredFirst(chunks);
    NoRowsMeans(file);
    NoRowsMeans(FirstPart(chunks[0]));
    if OnlyBreaks(file) {
      OnlyBreaksPart(chunks[0], file);
    }
    if |chunks[0]| >= |file| {
      LoadedWhole(chunks, |file|);
      assert chunks[0] == file;
    } else if OnlyBreaks(FirstPart(chunks[0])) {
      LoadedNothing(chunks, |file|);
    } else {
      var done := LoadedInParts(chunks);
      var rest := Loaded(chunks, |file|).remainder;
      LeftoverOf(file, done, rest);
      NoRowsWithoutBreak(rest);
      assert Rows(done) + Rows(rest) == Rows(done) <==> Rows(rest) == [];
    }
  }

  /** The streaming claim, for a file that ends in a safe break and a first chunk that has one or is the whole file:
      header and rows are those of the whole file exactly if the first part has a row or there is none in the file.
      If it has one, nothing is left over, either. */
  lemma StreamingRefinesWholeParse(chunks: seq<string>)
    requires chunks != [] && SafeAt(Delivered(chunks), |Delivered(chunks)| - 1)
    requires LastSafeBreak(chunks[0]) != -1 || |chunks[0]| >= |Delivered(chunks)|
    ensures var file := Delivered(chunks);
            (Table(Loaded(chunks, |file|)) == Rows(file)) <==> (!OnlyBreaks(FirstPart(chunks[0])) || OnlyBreaks(file))
    ensures var file := Delivered(chunks);
            var v := Loaded(chunks, |file|);
            !OnlyBreaks(FirstPart(chunks[0])) ==>
              && v.columns.Some? && [v.columns.value] + v.rows == Rows(file)
              && v.remainder == "" && v.bytesLoaded == |file| && !v.button
  {
    hide *;
    var file := Delivered(chunks);
    var v := Loaded(chunks, |file|);
    DeliveredFirst(chunks);
    TableMeans(v);
    NoRowsMeans(file);
    NoRowsMeans(FirstPart(chunks[0]));
    EndsSafeMeans(file);
    if |chunks[0]| >= |file| {
      LoadedWhole(chunks, |file|);
      assert chunks[0] == file;
      WholeFileState(file);
    } else if OnlyBreaks(FirstPart(chunks[0])) {
      LoadedNothing(chunks, |file|);
    } else {
      var done := LoadedInParts(chunks);
      LoadingMeans(v);
      TotalIsSize(chunks, |file|);
      CutAtEnd(file, done, v.remainder);
    }
  }

  lemma TableMeans(v: View)
    ensures v.columns.Some? ==> [v.columns.value] + v.rows == Table(v)
  {
  }

  lemma LoadingMeans(v: View)
    requires Loading(v)
    ensures v.columns.Some? && v.button == (v.bytesLoaded < v.totalSize)
  {
  }

  lemma {:induction false} TotalIsSize(chunks: seq<string>, size: nat)
    requires chunks != []
    ensures Loaded(chunks, size).totalSize == size
    decreases |chunks|
  {
    hide Rows, LastSafeBreak, FirstPart;
    if |chunks| > 1 {
      TotalIsSize(chunks[..|chunks| - 1], size);
    }
  }

  lemma EndsSafeMeans(file: string)
    requires SafeAt(file, |file| - 1)
    ensures EndsSafe(file) && FirstPart(file) == file
  {
    EndsSafeFacts(file);
    assert file[..|file|] == file;
  }

  lemma WholeFileState(file: string)
    ensures var v := Start(Fetched(file, |file|, |file|));
            && v.remainder == "" && v.bytesLoaded == |file| && !v.button
            && (v.columns.None? <==> Rows(file) == [])
  {
  }

  // ---------------------------------------------------------------------------------------
  // A first chunk without a safe break
  // ---------------------------------------------------------------------------------------

  /** Two states from which every text yields the same number of further lines. */
  predicate SameShape(s: Scan, t: Scan) {
    s.quoted == t.quoted && (s.line == "" <==> t.line == "")
  }

  lemma {:induction false} SameLineCount(s: Scan, t: Scan, text: string)
    requires SameShape(s, t)
    ensures |Flush(Feed(s, text)).lines| - |s.lines| == |Flush(Feed(t, text)).lines| - |t.lines|
    decreases |text|
  {
    if text != "" {
      SameLineCount(Step(s, text[0]), Step(t, text[0]), text[1..]);
    }
  }

  /** A cut inside a row makes two rows of it. */
  lemma CutInsideRow(a: string, b: string)
    requires a != "" && !InQuote(a) && !IsBreak(a[|a| - 1])
    requires b != "" && !IsBreak(b[0])
    ensures |Rows(a + b)| + 1 == |Rows(a)| + |Rows(b)|
  {
    var n := |a| - 1;
    FeedSnoc(a, n);
    assert a[..n + 1] == a;
    FeedQuoted(a);
    FeedConcat(START, a, b);
    var s := Feed(START, a);
    SameLineCount(Step(s, b[0]), Step(START, b[0]), b[1..]);
  }

  lemma LeadingBreak(b: string)
    requires b != "" && IsBreak(b[0])
    ensures Rows(b) == Rows(b[1..])
  {
    assert Feed(START, b) == Feed(START, b[1..]);
  }

  lemma TrailingBreak(a: string, c: char)
    requires !InQuote(a) && IsBreak(c)
    ensures Rows(a + [c]) == Rows(a) && EndsRow(a + [c])
  {
    FeedQuoted(a);
    FeedSnoc(a + [c], |a|);
    assert (a + [c])[..|a|] == a && (a + [c])[..|a| + 1] == a + [c];
    RowsOfStep(Feed(START, a), c);
  }

  /** A cut just before a line break falls between two rows. */
  lemma CutBeforeBreak(a: string, b: string)
    requires !InQuote(a) && b != "" && IsBreak(b[0])
    ensures Rows(a + b) == Rows(a) + Rows(b)
  {
    hide Rows, InQuote, EndsRow;
    LeadingBreak(b);
    TrailingBreak(a, b[0]);
    RowsConcat(a + [b[0]], b[1..]);
    assert (a + [b[0]]) + b[1..] == a + b;
  }

  /** Outside quotes, parsing distributes over a cut exactly if the cut is at a row boundary. */
  lemma CutExact(a: string, b: string)
    requires a != "" && b != "" && !InQuote(a)
    ensures Rows(a + b) == Rows(a) + Rows(b) <==> IsBreak(a[|a| - 1]) || IsBreak(b[0])
  {
    hide Rows, InQuote;
    if IsBreak(a[|a| - 1]) {
      RowsConcat(a, b);
    } else if IsBreak(b[0]) {
      CutBeforeBreak(a, b);
    } else {
      CutInsideRow(a, b);
    }
  }

  /** The loader parses a first chunk without a safe break by itself, even inside a quoted cell, and then the
      rest of the file as if it began there, up to its last safe break seen from there. */
  lemma UnbrokenTable(chunks: seq<string>)
    requires chunks != [] && |chunks[0]| < |Delivered(chunks)|
    requires LastSafeBreak(chunks[0]) == -1 && !OnlyBreaks(chunks[0])
    ensures var file := Delivered(chunks);
            var rest := file[|chunks[0]|..];
            var v := Loaded(chunks, |file|);
            && Table(v) == Rows(chunks[0]) + Rows(rest[..LastSafeBreak(rest) + 1])
            && v.remainder == Leftover(rest)
  {
    hide *;
    var file, a := Delivered(chunks), chunks[0];
    var rest, v := file[|a|..], Loaded(chunks, |file|);
    WholeHead(a);
    NoRowsMeans(a);
    var done := LoadedSoFar(chunks, |file|);
    InStepMeans(v, Rows(a), rest, done);
    CutIsUnique(rest, done, v.remainder);
    LeftoverMeans(rest);
  }

  lemma LeftoverMeans(file: string)
    ensures Leftover(file) == file[LastSafeBreak(file) + 1..]
    ensures EndsSafe(file) ==> file[..LastSafeBreak(file) + 1] == file
  {
  }

  /** If such a chunk leaves a quote open, the end of the file is never parsed: the text left over holds an odd
      number of quotes. */
  lemma OpenQuoteLosesText(chunks: seq<string>)
    requires chunks != [] && SafeAt(Delivered(chunks), |Delivered(chunks)| - 1)
    requires LastSafeBreak(chunks[0]) == -1 && InQuote(chunks[0])
    ensures InQuote(Loaded(chunks, |Delivered(chunks)|).remainder)
  {
    hide *;
    var file, a := Delivered(chunks), chunks[0];
    DeliveredFirst(chunks);
    EndsSafeMeans(file);
    OpenQuoteHasText(a);
    OpenQuoteGoesOn(file, a, file[|a|..]);
    UnbrokenTable(chunks);
    LeftoverIsOdd(file[|a|..]);
  }

  lemma OpenQuoteGoesOn(file: string, a: string, rest: string)
    requires |a| <= |file| && file[..|a|] == a && file[|a|..] == rest && EndsSafe(file) && InQuote(a)
    ensures InQuote(rest) && |a| < |file|
  {
    hide *;
    EndsSafeFacts(file);
    InQuoteConcat(a, rest);
    assert file == a + rest;
    assert a + "" == a;
  }

  lemma LeftoverIsOdd(text: string)
    requires InQuote(text)
    ensures InQuote(Leftover(text))
  {
    hide *;
    var k := LastSafeBreak(text) + 1;
    CutAtLastBreak(text);
    LeftoverMeans(text);
    OddLeftover(text, text[..k], text[k..]);
  }

  lemma OpenQuoteHasText(text: string)
    requires InQuote(text)
    ensures !OnlyBreaks(text)
  {
    hide InQuote;
    if OnlyBreaks(text) {
      NoQuotes(text);
    }
  }

  lemma OddLeftover(text: string, done: string, rest: string)
    requires IsCut(text, done, rest) && InQuote(text)
    ensures InQuote(rest)
  {
    EndsSafeFacts(done);
    InQuoteConcat(done, rest);
  }

  lemma WholeHead(chunk: string)
    requires LastSafeBreak(chunk) == -1
    ensures Head(chunk) == chunk && FirstPart(chunk) == chunk
  {
  }

  lemma EndsSafeAfter(a: string, b: string)
    requires !InQuote(a) && b != "" && SafeAt(a + b, |a + b| - 1)
    ensures EndsSafe(b)
  {
    var n := |b| - 1;
    assert (a + b)[..|a| + n] == a + b[..n];
    InQuoteConcat(a, b[..n]);
    InQuoteSnoc(b, n);
    assert b[..n + 1] == b;
  }

  /** A first chunk without a safe break that leaves no quote open: the rows still come out right exactly if it has a
      row and happens to end at a row boundary, or if there are none in the file. */
  lemma UnbrokenFirstChunkExact(chunks: seq<string>)
    requires chunks != [] && SafeAt(Delivered(chunks), |Delivered(chunks)| - 1)
    requires 0 < |chunks[0]| < |Delivered(chunks)|
    requires LastSafeBreak(chunks[0]) == -1 && !InQuote(chunks[0])
    ensures var file := Delivered(chunks);
            var cut := |chunks[0]|;
            (Table(Loaded(chunks, |file|)) == Rows(file))
            <==> (OnlyBreaks(file) || (!OnlyBreaks(chunks[0]) && (IsBreak(file[cut - 1]) || IsBreak(file[cut]))))
  {
    hide *;
    var file, a := Delivered(chunks), chunks[0];
    DeliveredFirst(chunks);
    WholeHead(a);
    NoRowsMeans(a);
    NoRowsMeans(file);
    if OnlyBreaks(file) {
      OnlyBreaksPart(a, file);
    }
    if OnlyBreaks(a) {
      LoadedNothing(chunks, |file|);
    } else {
      var b := file[|a|..];
      assert file == a + b;
      EndsSafeAfter(a, b);
      UnbrokenTable(chunks);
      LeftoverMeans(b);
      CutExact(a, b);
    }
  }
}
