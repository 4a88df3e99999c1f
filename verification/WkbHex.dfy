/** Model of `parseWkbHex` of wkb.js: the hexadecimal front end of the decoder. */
module WkbHex {
  import opened Wkb
  import opened WkbRoundTrip
  import opened Wrappers

  /** The characters JavaScript's `\s` matches. */
  predicate IsSpace(c: char) {
    || '\t' <= c <= '\r' || c == ' ' || c == '\U{A0}' || c == '\U{1680}' || '\U{2000}' <= c <= '\U{200A}'
    || c == '\U{2028}' || c == '\U{2029}' || c == '\U{202F}' || c == '\U{205F}' || c == '\U{3000}' || c == '\U{FEFF}'
  }

  predicate IsHexDigit(c: char) {
    '0' <= c <= '9' || 'a' <= c <= 'f' || 'A' <= c <= 'F'
  }

  function DigitValue(c: char): (v: nat)
    requires IsHexDigit(c)
    ensures v < 16
  {
    if c <= '9' then c as int - '0' as int
    else if c <= 'F' then c as int - 'A' as int + 10
    else c as int - 'a' as int + 10
  }

  /** `parseInt` of two characters in base 16, stored in a byte: a sign is accepted, a prefix of hex
      digits counts, and NaN is stored as 0. */
  function PairValue(c: char, d: char): Byte {
    if IsHexDigit(c) then
      if IsHexDigit(d) then 16 * DigitValue(c) + DigitValue(d)
      else DigitValue(c) // "0x" is a prefix without digits: NaN, and so 0 as well
    else if c == '+' && IsHexDigit(d) then DigitValue(d)
    else if c == '-' && IsHexDigit(d) then (256 - DigitValue(d)) % 256
    else 0
  }

  /** The text without white space. */
  function Strip(raw: string): string {
    if raw == "" then ""
    else if IsSpace(raw[0]) then Strip(raw[1..])
    else [raw[0]] + Strip(raw[1..])
  }

  function HexBytes(hex: string): (bytes: seq<Byte>)
    ensures |bytes| == |hex| / 2
  {
    seq(|hex| / 2, i requires 0 <= i < |hex| / 2 => PairValue(hex[2 * i], hex[2 * i + 1]))
  }

  function ParseResult(raw: string): Option<Geometry> {
    match Decode(HexBytes(Strip(raw)), 0)
    case Error => None
    case Ok(r) => Some(r.value)
  }

  method ParseWkbHex(raw: string) returns (geometry: Option<Geometry>)
    ensures geometry == ParseResult(raw)
  {
    hide Decode, Strip;
    var hex := Strip(raw);
    var bytes := new Byte[|hex| / 2];
    for i := 0 to bytes.Length
      invariant forall j :: 0 <= j < i ==> bytes[j] == HexBytes(hex)[j]
    {
      bytes[i] := PairValue(hex[2 * i], hex[2 * i + 1]);
    }
    assert bytes[..] == HexBytes(hex);
    var result := ReadGeometry(bytes[..], 0);
    match result
    case Error => return None;
    case Ok(r) => return Some(r.value);
  }

  // ---------------------------------------------------------------------------------------
  // Spelling
  // ---------------------------------------------------------------------------------------

  /** The character is the digit `v`, in either case. */
  predicate IsDigit(c: char, v: nat) {
    v < 16 && (c == "0123456789abcdef"[v] || c == "0123456789ABCDEF"[v])
  }

  lemma DigitsExactly(c: char)
    ensures IsHexDigit(c) <==> exists v: nat :: IsDigit(c, v)
    ensures forall v: nat :: IsDigit(c, v) ==> IsHexDigit(c) && DigitValue(c) == v
  {
    if IsHexDigit(c) {
      assert IsDigit(c, DigitValue(c));
    }
  }

  /** What becomes of two characters that are not both digits: a digit counts by itself, so does one after a plus sign,
      one after a minus sign is taken from 256, and all else is 0. */
  lemma OddPairs(c: char, d: char)
    ensures forall v: nat :: IsDigit(c, v) && !IsHexDigit(d) ==> PairValue(c, d) == v
    ensures forall v: nat :: IsDigit(d, v) && c == '+' ==> PairValue(c, d) == v
    ensures forall v: nat :: IsDigit(d, v) && c == '-' ==> PairValue(c, d) == if v == 0 then 0 else 256 - v
    ensures !IsHexDigit(c) && (c !in "+-" || !IsHexDigit(d)) ==> PairValue(c, d) == 0
  {
    DigitsExactly(c);
    DigitsExactly(d);
    hide IsDigit;
  }

  /** The code points that count as white space. */
  lemma SpacesExactly(c: char)
    ensures IsSpace(c) <==> c as int in {9, 10, 11, 12, 13, 0x20, 0xA0, 0x1680, 0x2000, 0x2001, 0x2002, 0x2003, 0x2004,
      0x2005, 0x2006, 0x2007, 0x2008, 0x2009, 0x200A, 0x2028, 0x2029, 0x202F, 0x205F, 0x3000, 0xFEFF}
  {
  }

  /** The text spells the bytes with two hexadecimal digits each, in either case. */
  predicate Spells(hex: string, bytes: seq<Byte>) {
    && |hex| == 2 * |bytes|
    && forall i :: 0 <= i < |bytes| ==> IsDigit(hex[2 * i], bytes[i] / 16) && IsDigit(hex[2 * i + 1], bytes[i] % 16)
  }

  predicate Blank(text: string) {
    forall i :: 0 <= i < |text| ==> IsSpace(text[i])
  }

  /** The text with something before each of its characters. */
  function Spaced(gaps: seq<string>, text: string): string
    requires |gaps| == |text|
  {
    if text == "" then "" else gaps[0] + ([text[0]] + Spaced(gaps[1..], text[1..]))
  }

  lemma {:induction false} StripConcat(a: string, b: string)
    ensures Strip(a + b) == Strip(a) + Strip(b)
  {
    if a == "" {
      assert a + b == b;
    } else {
      StripConcat(a[1..], b);
      assert (a + b)[1..] == a[1..] + b;
    }
  }

  lemma {:induction false} StripBlank(text: string)
    requires Blank(text)
    ensures Strip(text) == ""
  {
    if text != "" {
      StripBlank(text[1..]);
    }
  }

  lemma {:induction false} StripSpaced(gaps: seq<string>, text: string)
    requires |gaps| == |text| && forall i :: 0 <= i < |gaps| ==> Blank(gaps[i]) && !IsSpace(text[i])
    ensures Strip(Spaced(gaps, text)) == text
  {
    if text != "" {
      hide Blank, IsSpace;
      var rest := Spaced(gaps[1..], text[1..]);
      StripSpaced(gaps[1..], text[1..]);
      StripBlank(gaps[0]);
      StripConcat(gaps[0], [text[0]] + rest);
      assert ([text[0]] + rest)[1..] == rest;
    }
  }

  lemma SpelledBytes(hex: string, bytes: seq<Byte>)
    requires Spells(hex, bytes)
    ensures HexBytes(hex) == bytes
    ensures forall k :: 0 <= k < |hex| ==> !IsSpace(hex[k])
  {
    hide IsSpace, IsDigit, IsHexDigit, DigitValue;
    forall i | 0 <= i < |bytes|
      ensures HexBytes(hex)[i] == bytes[i] && !IsSpace(hex[2 * i]) && !IsSpace(hex[2 * i + 1])
    {
      PairSpelled(hex[2 * i], hex[2 * i + 1], bytes[i]);
    }
    forall k | 0 <= k < |hex| ensures !IsSpace(hex[k]) {
      assert k == 2 * (k / 2) || k == 2 * (k / 2) + 1;
    }
  }

  lemma PairSpelled(c: char, d: char, b: Byte)
    requires IsDigit(c, b / 16) && IsDigit(d, b % 16)
    ensures PairValue(c, d) == b && !IsSpace(c) && !IsSpace(d)
  {
    DigitsExactly(c);
    DigitsExactly(d);
    DigitIsNoSpace(c);
    DigitIsNoSpace(d);
    hide IsDigit, IsHexDigit, DigitValue, IsSpace;
  }

  lemma DigitIsNoSpace(c: char)
    ensures IsHexDigit(c) ==> !IsSpace(c)
  {
  }

  lemma PrefixBytes(hex: string, more: string)
    requires |hex| % 2 == 0
    ensures HexBytes(hex + more)[0..|hex| / 2] == HexBytes(hex)
  {
    hide PairValue;
  }

  /** A column value that begins with a spelling of the encoding of a geometry, with white space before any of its
      characters and any text after it, is decoded to that geometry. */
  lemma HexRoundTrip(gaps: seq<string>, hex: string, more: string, w: Wire)
    requires Valid(w) && Spells(hex, Encode(w))
    requires |gaps| == |hex| && forall i :: 0 <= i < |gaps| ==> Blank(gaps[i])
    ensures ParseResult(Spaced(gaps, hex) + more) == Some(GeometryOf(w))
  {
    hide Decode, Encode, GeometryOf, Valid, Strip, Spells, Spaced, Blank, IsSpace, PairValue;
    SpelledBytes(hex, Encode(w));
    StripSpaced(gaps, hex);
    StripConcat(Spaced(gaps, hex), more);
    SpelledIsEven(hex, Encode(w));
    PrefixBytes(hex, Strip(more));
    RoundTrip(HexBytes(hex + Strip(more)), 0, w);
  }

  lemma SpelledIsEven(hex: string, bytes: seq<Byte>)
    requires Spells(hex, bytes)
    ensures |hex| == 2 * |bytes|
  {
  }
}
