/** Model of the task-instance key of _retry_guard.py: the identity of a task instance, its canonical JSON
    text, and the key made from it.

    A Python string is a sequence of code points, surrogates included. The text is read back by a reader
    for the strings and numbers of RFC 8259, sections 6 and 7, whose `\u` escapes are UTF-16 code units.
  */
module RetryGuard {
  import GlueRuns
  import SingleWriter
  import opened Wrappers

  type CodePoint = n: nat | n < 0x11_0000

  type PyString = seq<CodePoint>

  type Unit = n: nat | n < 0x1_0000

  // ---------------------------------------------------------------------------------------
  // UTF-16
  // ---------------------------------------------------------------------------------------

  function UnitsOf(c: CodePoint): seq<Unit> {
    if c < 0x1_0000 then [c] else [0xD800 + (c - 0x1_0000) / 0x400, 0xDC00 + (c - 0x1_0000) % 0x400]
  }

  function Utf16(s: PyString): seq<Unit> {
    if s == [] then [] else UnitsOf(s[0]) + Utf16(s[1..])
  }

  predicate IsSurrogate(n: nat) {
    0xD800 <= n < 0xE000
  }

  /** A string of Unicode scalar values. */
  predicate IsScalar(s: PyString) {
    s == [] || (!IsSurrogate(s[0]) && IsScalar(s[1..]))
  }

  /** The surrogates are the halves of the characters outside the basic plane. */
  lemma SurrogatesAreHalves(n: Unit)
    ensures IsSurrogate(n) <==> exists c: CodePoint :: c >= 0x1_0000 && n in UnitsOf(c)
  {
    if 0xD800 <= n < 0xDC00 {
      var c: CodePoint := 0x1_0000 + 0x400 * (n - 0xD800);
      assert UnitsOf(c)[0] == n;
    } else if 0xDC00 <= n < 0xE000 {
      var c: CodePoint := 0x1_0000 + (n - 0xDC00);
      assert UnitsOf(c)[1] == n;
    }
  }

  /** Strings of scalar values with the same UTF-16 form are the same. */
  lemma {:induction false} Utf16Injective(a: PyString, b: PyString)
    requires IsScalar(a) && IsScalar(b) && Utf16(a) == Utf16(b)
    ensures a == b
  {
    if a == [] || b == [] {
      assert a == b;
    } else {
      UnitsOfInjective(a[0], b[0], Utf16(a[1..]), Utf16(b[1..]));
      Utf16Injective(a[1..], b[1..]);
      assert a == [a[0]] + a[1..] && b == [b[0]] + b[1..];
    }
  }

  lemma UnitsOfInjective(c: CodePoint, d: CodePoint, x: seq<Unit>, y: seq<Unit>)
    requires !IsSurrogate(c) && !IsSurrogate(d) && UnitsOf(c) + x == UnitsOf(d) + y
    ensures c == d && x == y
  {
    var u, v := UnitsOf(c) + x, UnitsOf(d) + y;
    assert u[0] == UnitsOf(c)[0] && v[0] == UnitsOf(d)[0];
    if c < 0x1_0000 {
      assert d < 0x1_0000;
      assert u[1..] == x && v[1..] == y;
    } else {
      assert d >= 0x1_0000;
      assert u[1] == UnitsOf(c)[1] && v[1] == UnitsOf(d)[1];
      SplitPlane(c - 0x1_0000);
      SplitPlane(d - 0x1_0000);
      assert u[2..] == x && v[2..] == y;
    }
  }

  lemma SplitPlane(n: nat)
    ensures n == 0x400 * (n / 0x400) + n % 0x400
  {
  }

  // ---------------------------------------------------------------------------------------
  // JSON strings, written
  // ---------------------------------------------------------------------------------------

  function HexDigit(n: nat): char
    requires n < 16
  {
    if n < 10 then '0' + n as char else 'a' + (n - 10) as char
  }

  function Hex4(u: Unit): string {
    [HexDigit(u / 0x1000), HexDigit(u / 0x100 % 0x10), HexDigit(u / 0x10 % 0x10), HexDigit(u % 0x10)]
  }

  function EscapeUnit(u: Unit): string {
    if u == 0x22 then ['\\', '"']
    else if u == 0x5C then ['\\', '\\']
    else if u == 0x0A then ['\\', 'n']
    else if u == 0x0D then ['\\', 'r']
    else if u == 0x09 then ['\\', 't']
    else if u == 0x0C then ['\\', 'f']
    else if u == 0x08 then ['\\', 'b']
    else if 0x20 <= u <= 0x7E then [u as char]
    else ['\\', 'u'] + Hex4(u)
  }

  /** One character, with `ensure_ascii`. */
  function Escape(c: CodePoint): string {
    if c < 0x1_0000 then EscapeUnit(c)
    else
      var n := c - 0x1_0000;
      ['\\', 'u'] + Hex4(0xD800 + n / 0x400) + (['\\', 'u'] + Hex4(0xDC00 + n % 0x400))
  }

  /** The seven short escapes; all other printable characters stand for themselves, the rest is written in digits. */
  lemma EscapeExactly(c: CodePoint)
    ensures Escape(0x22) == "\\\"" && Escape(0x5C) == "\\\\" && Escape(0x0A) == "\\n" && Escape(0x0D) == "\\r"
    ensures Escape(0x09) == "\\t" && Escape(0x0C) == "\\f" && Escape(0x08) == "\\b"
    ensures c in {0x22, 0x5C, 0x0A, 0x0D, 0x09, 0x0C, 0x08}
         || if ' ' as int <= c <= '~' as int then Escape(c) == [c as char]
            else if c < 0x1_0000 then Escape(c) == "\\u" + Hex4(c)
            else |Escape(c)| == 12 && Escape(c)[..2] == Escape(c)[6..8] == "\\u"
  {
  }

  function EscapeAll(s: PyString): string {
    if s == [] then "" else Escape(s[0]) + EscapeAll(s[1..])
  }

  function JsonString(s: PyString): string {
    ['"'] + EscapeAll(s) + ['"']
  }

  function EscapeUnits(us: seq<Unit>): string {
    if us == [] then "" else EscapeUnit(us[0]) + EscapeUnits(us[1..])
  }

  lemma EscapeUnitsOf(c: CodePoint, us: seq<Unit>)
    ensures EscapeUnits(UnitsOf(c) + us) == Escape(c) + EscapeUnits(us)
  {
    hide EscapeUnit, Hex4;
    if c < 0x1_0000 {
      assert ([c] + us)[1..] == us;
    } else {
      var n := c - 0x1_0000;
      var hi: Unit, lo: Unit := 0xD800 + n / 0x400, 0xDC00 + n % 0x400;
      SurrogateEscape(hi);
      SurrogateEscape(lo);
      EscapeTwo(hi, lo, us);
    }
  }

  lemma SurrogateEscape(u: Unit)
    requires IsSurrogate(u)
    ensures EscapeUnit(u) == ['\\', 'u'] + Hex4(u)
  {
  }

  lemma EscapeTwo(hi: Unit, lo: Unit, us: seq<Unit>)
    ensures EscapeUnits([hi, lo] + us) == EscapeUnit(hi) + EscapeUnit(lo) + EscapeUnits(us)
  {
    hide EscapeUnit;
    assert ([hi, lo] + us)[1..] == [lo] + us && ([lo] + us)[1..] == us;
  }

  /** The text depends on nothing but the UTF-16 form. */
  lemma {:induction false} EscapeIsUnits(s: PyString)
    ensures EscapeAll(s) == EscapeUnits(Utf16(s))
  {
    if s != [] {
      hide Escape, EscapeUnit, UnitsOf;
      EscapeIsUnits(s[1..]);
      EscapeUnitsOf(s[0], Utf16(s[1..]));
    }
  }

  // ---------------------------------------------------------------------------------------
  // JSON strings, read
  // ---------------------------------------------------------------------------------------

  datatype Read<+T> = Bad | Got(value: T, rest: string)

  function HexValue(c: char): Option<nat> {
    if '0' <= c <= '9' then Some((c - '0') as nat)
    else if 'a' <= c <= 'f' then Some((c - 'a') as nat + 10)
    else if 'A' <= c <= 'F' then Some((c - 'A') as nat + 10)
    else None
  }

  function ReadHex4(s: string): (r: Read<seq<Unit>>)
    ensures r.Got? ==> |r.rest| < |s|
  {
    if |s| < 4 then Bad
    else
      var a, b, c, d := HexValue(s[0]), HexValue(s[1]), HexValue(s[2]), HexValue(s[3]);
      if a.None? || b.None? || c.None? || d.None? then Bad
      else
        var n := ((a.value * 16 + b.value) * 16 + c.value) * 16 + d.value;
        if n < 0x1_0000 then Got([n], s[4..]) else Bad
  }

  /** One character or one escape sequence. */
  function ReadUnit(s: string): (r: Read<seq<Unit>>)
    ensures r.Got? ==> |r.rest| < |s|
  {
    if s == "" || (s[0] as int) < 0x20 || s[0] == '"' then Bad
    else if s[0] != '\\' then Got(UnitsOf(s[0] as int), s[1..])
    else if |s| < 2 then Bad
    else
      match s[1]
      case '"' => Got([0x22], s[2..])
      case '\\' => Got([0x5C], s[2..])
      case '/' => Got([0x2F], s[2..])
      case 'b' => Got([0x08], s[2..])
      case 'f' => Got([0x0C], s[2..])
      case 'n' => Got([0x0A], s[2..])
      case 'r' => Got([0x0D], s[2..])
      case 't' => Got([0x09], s[2..])
      case 'u' => ReadHex4(s[2..])
      case _ => Bad
  }

  /** The rest of a string whose opening quote has been read. */
  function ReadString(s: string): (r: Read<seq<Unit>>)
    ensures r.Got? ==> |r.rest| < |s|
    decreases |s|
  {
    if s != "" && s[0] == '"' then Got([], s[1..])
    else
      var u := ReadUnit(s);
      if u.Bad? then Bad
      else
        var more := ReadString(u.rest);
        if more.Bad? then Bad else Got(u.value + more.value, more.rest)
  }

  lemma HexRoundTrip(n: nat)
    requires n < 16
    ensures HexValue(HexDigit(n)) == Some(n)
  {
  }

  lemma Hex4Splits(u: Unit)
    ensures u == ((u / 0x1000 * 16 + u / 0x100 % 0x10) * 16 + u / 0x10 % 0x10) * 16 + u % 0x10
  {
    var a := u / 0x10;
    var b := a / 0x10;
    assert u == a * 16 + u % 0x10 && a == b * 16 + a % 0x10;
    assert b == u / 0x100;
    assert b / 0x10 == u / 0x1000;
    assert b == b / 0x10 * 16 + b % 0x10;
  }

  lemma ReadHex4Back(u: Unit, rest: string)
    ensures ReadHex4(Hex4(u) + rest) == Got([u], rest)
  {
    hide HexDigit, HexValue;
    HexRoundTrip(u / 0x1000);
    HexRoundTrip(u / 0x100 % 0x10);
    HexRoundTrip(u / 0x10 % 0x10);
    HexRoundTrip(u % 0x10);
    Hex4Splits(u);
    assert (Hex4(u) + rest)[4..] == rest;
  }

  lemma ReadEscaped(u: Unit, rest: string)
    ensures EscapeUnit(u) != "" && EscapeUnit(u)[0] != '"' && ReadUnit(EscapeUnit(u) + rest) == Got([u], rest)
  {
    hide Hex4, ReadHex4;
    var s := EscapeUnit(u) + rest;
    if |EscapeUnit(u)| == 1 {
      assert s[1..] == rest;
    } else if s[1] != 'u' {
      assert s[2..] == rest;
    } else {
      assert s[2..] == Hex4(u) + rest;
      ReadHex4Back(u, rest);
    }
  }

  lemma ReadOneMore(e: string, us: string, rest: string, u: Unit, units: seq<Unit>)
    requires e != "" && e[0] != '"' && ReadUnit(e + (us + rest)) == Got([u], us + rest)
    requires rest != "" && ReadString(us + rest) == Got(units, rest[1..])
    ensures ReadString(e + us + rest) == Got([u] + units, rest[1..])
  {
    hide ReadUnit;
    assert e + us + rest == e + (us + rest);
  }

  lemma {:induction false} ReadEscapedString(us: seq<Unit>, rest: string)
    ensures ReadString(EscapeUnits(us) + (['"'] + rest)) == Got(us, rest)
  {
    if us == [] {
      assert (EscapeUnits(us) + (['"'] + rest))[1..] == rest;
    } else {
      hide EscapeUnit, ReadUnit, ReadString;
      var tail := ['"'] + rest;
      assert tail[1..] == rest;
      ReadEscapedString(us[1..], rest);
      ReadEscaped(us[0], EscapeUnits(us[1..]) + tail);
      ReadOneMore(EscapeUnit(us[0]), EscapeUnits(us[1..]), tail, us[0], us[1..]);
      assert us == [us[0]] + us[1..];
    }
  }

  // ---------------------------------------------------------------------------------------
  // JSON numbers
  // ---------------------------------------------------------------------------------------

  function Digit(n: nat): char
    requires n < 10
  {
    '0' + n as char
  }

  function Decimal(n: nat): (s: string)
    ensures s != "" && '0' <= s[0] <= '9'
  {
    if n < 10 then [Digit(n)] else Decimal(n / 10) + [Digit(n % 10)]
  }

  /** Reads on in a number that is `acc` so far. */
  function ReadDigits(s: string, acc: nat): (nat, string) {
    if s != "" && '0' <= s[0] <= '9' then ReadDigits(s[1..], acc * 10 + (s[0] - '0') as nat) else (acc, s)
  }

  lemma {:induction false} ReadDecimal(n: nat, rest: string)
    ensures ReadDigits(Decimal(n) + rest, 0) == ReadDigits(rest, n)
  {
    if n < 10 {
      ReadDigit(n, rest, 0);
    } else {
      hide ReadDigits;
      ReadDecimal(n / 10, [Digit(n % 10)] + rest);
      assert Decimal(n) + rest == Decimal(n / 10) + ([Digit(n % 10)] + rest);
      ReadDigit(n % 10, rest, n / 10);
    }
  }

  lemma ReadDigit(d: nat, rest: string, acc: nat)
    requires d < 10
    ensures ReadDigits([Digit(d)] + rest, acc) == ReadDigits(rest, acc * 10 + d)
  {
    assert ([Digit(d)] + rest)[1..] == rest;
  }

  /** A map index passes the type check as an `int`; a `bool` is one, and is written as a literal. */
  datatype MapIndex = Int(n: int) | Bool(b: bool)

  function JsonIndex(m: MapIndex): string {
    match m
    case Int(n) => if n < 0 then ['-'] + Decimal(-n) else Decimal(n)
    case Bool(b) => if b then "true" else "false"
  }

  function ReadIndex(s: string): Read<MapIndex> {
    if s == "" then Bad
    else if s[0] == 't' then (if |s| >= 4 && s[..4] == "true" then Got(Bool(true), s[4..]) else Bad)
    else if s[0] == 'f' then (if |s| >= 5 && s[..5] == "false" then Got(Bool(false), s[5..]) else Bad)
    else if s[0] == '-' then (if |s| >= 2 && '0' <= s[1] <= '9' then
                                var (n, rest) := ReadDigits(s[1..], 0);
                                Got(Int(0 - n), rest)
                              else Bad)
    else if '0' <= s[0] <= '9' then
      var (n, rest) := ReadDigits(s, 0);
      Got(Int(n), rest)
    else Bad
  }

  lemma ReadIndexBack(m: MapIndex)
    ensures ReadIndex(JsonIndex(m) + "]") == Got(m, "]")
  {
    var s := JsonIndex(m) + "]";
    match m
    case Int(n) =>
      var size: nat := if n < 0 then -n else n;
      ReadDecimal(size, "]");
      assert n < 0 ==> s[1..] == Decimal(size) + "]";
      assert n >= 0 ==> s == Decimal(size) + "]";
    case Bool(b) =>
      assert b ==> s == "true]" && s[..4] == "true" && s[4..] == "]";
      assert !b ==> s == "false]" && s[..5] == "false" && s[5..] == "]";
  }

  // ---------------------------------------------------------------------------------------
  // The canonical text
  // ---------------------------------------------------------------------------------------

  datatype Identity = Identity(dagId: PyString, taskId: PyString, runId: PyString, mapIndex: MapIndex)

  function Canonical(id: Identity): string {
    ['['] + JsonString(id.dagId) + [','] + JsonString(id.taskId) + [','] + JsonString(id.runId) + [',']
      + JsonIndex(id.mapIndex) + "]"
  }

  /** What a reader of the text sees: the strings in UTF-16. */
  datatype Seen = Seen(dagId: seq<Unit>, taskId: seq<Unit>, runId: seq<Unit>, mapIndex: MapIndex)

  function SeenOf(id: Identity): Seen {
    Seen(Utf16(id.dagId), Utf16(id.taskId), Utf16(id.runId), id.mapIndex)
  }

  /** The mark, then a string. */
  function ReadItem(s: string, mark: char): Read<seq<Unit>> {
    if |s| >= 2 && s[0] == mark && s[1] == '"' then ReadString(s[2..]) else Bad
  }

  function ReadCanonical(s: string): Option<Seen> {
    var dag := ReadItem(s, '[');
    if dag.Bad? then None
    else
      var task := ReadItem(dag.rest, ',');
      if task.Bad? then None
      else
        var run := ReadItem(task.rest, ',');
        if run.Bad? || run.rest == "" || run.rest[0] != ',' then None
        else
          var index := ReadIndex(run.rest[1..]);
          if index.Got? && index.rest == "]" then Some(Seen(dag.value, task.value, run.value, index.value)) else None
  }

  lemma ReadItemBack(s: PyString, mark: char, rest: string)
    ensures ReadItem([mark] + JsonString(s) + rest, mark) == Got(Utf16(s), rest)
  {
    hide ReadString, EscapeAll, EscapeUnits, Utf16;
    var text := [mark] + JsonString(s) + rest;
    EscapeIsUnits(s);
    ReadEscapedString(Utf16(s), rest);
    assert text[2..] == EscapeAll(s) + (['"'] + rest);
  }

  /** Reading the canonical text recovers the identity, its strings in UTF-16. */
  lemma CanonicalRoundTrip(id: Identity)
    ensures ReadCanonical(Canonical(id)) == Some(SeenOf(id))
  {
    hide ReadItem, ReadIndex, JsonString, JsonIndex, Utf16;
    var index := JsonIndex(id.mapIndex) + "]";
    var fromRun := [','] + JsonString(id.runId) + ([','] + index);
    var fromTask := [','] + JsonString(id.taskId) + fromRun;
    ReadItemBack(id.dagId, '[', fromTask);
    ReadItemBack(id.taskId, ',', fromRun);
    ReadItemBack(id.runId, ',', [','] + index);
    ReadIndexBack(id.mapIndex);
    assert ([','] + index)[1..] == index;
    assert Canonical(id) == ['['] + JsonString(id.dagId) + fromTask;
  }

  /** Two task instances have the same canonical text exactly if their ids agree in UTF-16 and their map
      indices agree. */
  lemma CanonicalCollides(a: Identity, b: Identity)
    ensures Canonical(a) == Canonical(b) <==> SeenOf(a) == SeenOf(b)
  {
    hide ReadCanonical, EscapeAll, EscapeUnits, Utf16, JsonIndex;
    CanonicalRoundTrip(a);
    CanonicalRoundTrip(b);
    EscapeIsUnits(a.dagId);
    EscapeIsUnits(b.dagId);
    EscapeIsUnits(a.taskId);
    EscapeIsUnits(b.taskId);
    EscapeIsUnits(a.runId);
    EscapeIsUnits(b.runId);
  }

  predicate ScalarIdentity(id: Identity) {
    IsScalar(id.dagId) && IsScalar(id.taskId) && IsScalar(id.runId)
  }

  /** Over strings of Unicode scalar values, different task instances have different texts. */
  lemma CanonicalInjective(a: Identity, b: Identity)
    requires ScalarIdentity(a) && ScalarIdentity(b)
    ensures Canonical(a) == Canonical(b) <==> a == b
  {
    hide Canonical, Utf16, IsScalar;
    CanonicalCollides(a, b);
    if SeenOf(a) == SeenOf(b) {
      Utf16Injective(a.dagId, b.dagId);
      Utf16Injective(a.taskId, b.taskId);
      Utf16Injective(a.runId, b.runId);
    }
  }

  /** Not over all Python strings: a character outside the basic plane and its two surrogates, one by one,
      are written alike. */
  lemma SurrogatesCollide(a: Identity, b: Identity)
    requires a.runId == [0x1F600] && b == a.(runId := [0xD83D, 0xDE00])
    ensures a != b && Canonical(a) == Canonical(b)
  {
    hide Canonical, JsonString, JsonIndex;
    SurrogatePair(a.runId, b.runId);
    CanonicalCollides(a, b);
  }

  lemma SurrogatePair(x: PyString, y: PyString)
    requires x == [0x1F600] && y == [0xD83D, 0xDE00]
    ensures Utf16(x) == Utf16(y)
  {
    assert x[1..] == [] && y[1..] == [0xDE00] && y[1..][1..] == [];
    assert UnitsOf(x[0]) == [0xD83D, 0xDE00] && UnitsOf(y[0]) == [0xD83D] && UnitsOf(y[1]) == [0xDE00];
  }

  lemma {:induction false} EscapeIsAscii(s: PyString)
    ensures forall c :: c in EscapeAll(s) ==> ' ' <= c <= '~'
  {
    if s != [] {
      EscapeIsAscii(s[1..]);
      OneEscapeIsAscii(s[0]);
    }
  }

  lemma OneEscapeIsAscii(c: CodePoint)
    ensures forall x :: x in Escape(c) ==> ' ' <= x <= '~'
  {
    if c >= 0x1_0000 {
      var n := c - 0x1_0000;
      Hex4IsAscii(0xD800 + n / 0x400);
      Hex4IsAscii(0xDC00 + n % 0x400);
    } else {
      Hex4IsAscii(c);
    }
  }

  lemma Hex4IsAscii(u: Unit)
    ensures forall x :: x in Hex4(u) ==> ' ' <= x <= '~'
  {
    assert forall n: nat :: n < 16 ==> '0' <= HexDigit(n) <= 'f';
  }

  // ---------------------------------------------------------------------------------------
  // The identity and the key
  // ---------------------------------------------------------------------------------------

  /** What an attribute of the task instance can hold. */
  datatype Attr = Missing | Str(s: PyString) | Index(m: MapIndex) | Other

  datatype Context =
    | NoTaskInstance
    | Context(dagId: Attr, taskId: Attr, runId: Attr, mapIndex: Attr, dagRunRunId: Attr, contextRunId: Attr)

  /** Whether a value is true in Python; values of other types are. */
  predicate Truthy(a: Attr) {
    match a
    case Missing => false
    case Str(s) => s != []
    case Index(m) => m != Int(0) && m != Bool(false)
    case Other => true
  }

  function IdentityOf(c: Context): Option<Identity> {
    if c.NoTaskInstance? then None
    else
      var fallback := if Truthy(c.dagRunRunId) then c.dagRunRunId else c.contextRunId;
      var runId := if c.runId.Missing? then fallback else c.runId;
      var mapIndex := if c.mapIndex.Missing? then Index(Int(-1)) else c.mapIndex;
      if c.dagId.Str? && c.taskId.Str? && runId.Str? && mapIndex.Index? then
        Some(Identity(c.dagId.s, c.taskId.s, runId.s, mapIndex.m))
      else None
  }

  function KeyOf(c: Context, digest: string -> string): Option<string> {
    var id := IdentityOf(c);
    if id.None? then None else Some(digest(Canonical(id.value)))
  }

  /** The digest tells the two texts apart. */
  predicate NoCollision(digest: string -> string, a: string, b: string) {
    digest(a) == digest(b) ==> a == b
  }

  /** A context that names its task instance itself: three strings of scalar values and a map index. */
  predicate Named(c: Context) {
    && c.Context? && c.dagId.Str? && c.taskId.Str? && c.runId.Str? && c.mapIndex.Index?
    && IsScalar(c.dagId.s) && IsScalar(c.taskId.s) && IsScalar(c.runId.s)
  }

  /** The text of a context that names its task instance. */
  function TextOf(c: Context): string
    requires Named(c)
  {
    Canonical(Identity(c.dagId.s, c.taskId.s, c.runId.s, c.mapIndex.m))
  }

  /** Under a digest that does not collide on their texts, two contexts have the same key exactly if all four
      attributes are the same: two mapped task instances differ by their map index alone. */
  lemma KeyIdentifies(c: Context, d: Context, digest: string -> string)
    requires Named(c) && Named(d) && NoCollision(digest, TextOf(c), TextOf(d))
    ensures KeyOf(c, digest).Some? && KeyOf(d, digest).Some?
    ensures KeyOf(c, digest) == KeyOf(d, digest)
       <==> c.dagId == d.dagId && c.taskId == d.taskId && c.runId == d.runId && c.mapIndex == d.mapIndex
  {
    hide Canonical, IsScalar;
    CanonicalInjective(Identity(c.dagId.s, c.taskId.s, c.runId.s, c.mapIndex.m),
                       Identity(d.dagId.s, d.taskId.s, d.runId.s, d.mapIndex.m));
  }

  /** The run id that counts when the task instance has none: that of the DAG run, unless it is empty or otherwise
      false, and then that of the context. */
  function RunIdBehind(c: Context): Attr
    requires c.Context?
  {
    if c.dagRunRunId in {Missing, Str([]), Index(Int(0)), Index(Bool(false))} then c.contextRunId else c.dagRunRunId
  }

  /** What stands in for a missing attribute. */
  lemma KeyFallbacks(c: Context, digest: string -> string)
    requires c.Context?
    ensures c.mapIndex == Missing ==> KeyOf(c, digest) == KeyOf(c.(mapIndex := Index(Int(-1))), digest)
    ensures c.runId == Missing ==> KeyOf(c, digest) == KeyOf(c.(runId := RunIdBehind(c)), digest)
  {
    hide Canonical;
  }

  /** There is no key exactly if there is no task instance, or one of its attributes, after these fallbacks, is not of
      its type. */
  lemma NoKeyExactly(c: Context, digest: string -> string)
    ensures KeyOf(c, digest) == None
       <==> c == NoTaskInstance || !c.dagId.Str? || !c.taskId.Str?
            || !(c.runId.Str? || (c.runId == Missing && RunIdBehind(c).Str?))
            || !(c.mapIndex.Index? || c.mapIndex == Missing)
  {
    hide Canonical;
  }

  /** The stop path of one task instance never changes a run of another: whatever a try of `a` does, in any
      reachable state of the system, the runs stamped for `b` stay as they are. */
  lemma StopPathStaysWithin(a: Identity, b: Identity, digest: string -> string, cfg: SingleWriter.Config)
    requires ScalarIdentity(a) && ScalarIdentity(b) && a != b && NoCollision(digest, Canonical(a), Canonical(b))
    ensures forall s, n: nat, scope, s', step ::
      SingleWriter.Reached(cfg, s, n, scope) && SingleWriter.StepTo(cfg, s, s', step)
      && SingleWriter.StepOf(step, digest(Canonical(a)))
      ==> RunsStay(s.runs, s'.runs, digest(Canonical(b)))
  {
    hide *;
    CanonicalInjective(a, b);
    NoCollisionMeans(digest, Canonical(a), Canonical(b));
    var own, other := digest(Canonical(a)), digest(Canonical(b));
    forall s, n: nat, scope, s', step | SingleWriter.Reached(cfg, s, n, scope) && SingleWriter.StepTo(cfg, s, s', step)
                                        && SingleWriter.StepOf(step, own)
      ensures RunsStay(s.runs, s'.runs, other)
    {
      SingleWriter.StepIsolation(cfg, s, n, scope, s', step, own);
      OthersRunsStay(s.runs, s'.runs, own, other);
    }
  }

  /** All runs stamped with the key are where they were, and as they were. */
  ghost predicate RunsStay(before: GlueRuns.History, after: GlueRuns.History, key: string) {
    && |before| <= |after|
    && forall i :: 0 <= i < |before| && before[i].key == Some(key) ==> after[i] == before[i]
  }

  lemma OthersRunsStay(before: GlueRuns.History, after: GlueRuns.History, own: string, other: string)
    requires own != other && |before| <= |after|
    requires forall i :: 0 <= i < |before| && before[i].key != Some(own) ==> after[i] == before[i]
    ensures RunsStay(before, after, other)
  {
  }

  lemma NoCollisionMeans(digest: string -> string, a: string, b: string)
    requires NoCollision(digest, a, b)
    ensures digest(a) == digest(b) <==> a == b
  {
  }
}
