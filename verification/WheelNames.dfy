/** Model of the file and requirement names of spark_agnostic_helpers.py: what a requirement asks for, and what the
    file name of a wheel says.
  */
module WheelNames {
  import opened Texts
  import opened Wrappers

  function LowerChar(c: char): char {
    if 'A' <= c <= 'Z' then c - 'A' + 'a' else c
  }

  function Lower(s: string): (r: string)
    ensures |r| == |s|
  {
    if s == "" then "" else [LowerChar(s[0])] + Lower(s[1..])
  }

  /** `replace("_", "-")` */
  function Hyphens(s: string): (r: string)
    ensures |r| == |s|
  {
    if s == "" then "" else [if s[0] == '_' then '-' else s[0]] + Hyphens(s[1..])
  }

  /** `s.split(mark)[0]` */
  function Before(s: string, mark: string): (r: string)
    ensures |r| <= |s|
  {
    if s == "" || StartsWith(s, mark) then "" else [s[0]] + Before(s[1..], mark)
  }

  /** The characters that `strip` takes for white space. */
  predicate IsSpace(c: char) {
    || '\t' <= c <= '\r' || '\U{1C}' <= c <= ' ' || c == '\U{85}' || c == '\U{A0}' || c == '\U{1680}'
    || '\U{2000}' <= c <= '\U{200A}' || c == '\U{2028}' || c == '\U{2029}' || c == '\U{202F}' || c == '\U{205F}'
    || c == '\U{3000}'
  }

  function TrimLeft(s: string): string {
    if s != "" && IsSpace(s[0]) then TrimLeft(s[1..]) else s
  }

  function TrimRight(s: string): (r: string)
    ensures |r| <= |s|
  {
    if s != "" && IsSpace(s[|s| - 1]) then TrimRight(s[..|s| - 1]) else s
  }

  /** `s.strip().lower().replace("_", "-")` */
  function Normalised(s: string): string {
    Hyphens(Lower(TrimRight(TrimLeft(s))))
  }

  /** The package a requirement asks for. */
  function RequestedName(package: string): string {
    Normalised(Before(Before(Before(Before(Before(Before(package, "=="), ">="), "<="), "<"), ">"), "["))
  }

  predicate HasNativeDependencies(file: string) {
    !Contains(Lower(file), "-none-any.whl")
  }

  function Stem(file: string): string {
    if EndsWith(file, ".whl") then file[..|file| - 4] else file
  }

  /** Name and version of a wheel, from its file name. */
  function ParseWheelFilename(file: string): Option<(string, string)> {
    var stem := Stem(file);
    var first := Before(stem, "-");
    if |first| == |stem| then None
    else Some((Hyphens(first), Before(stem[|first| + 1..], "-")))
  }

  /** `_force_pip_install` */
  predicate Forced(package: string, force: seq<string>) {
    force != [] && (Contains(package, force[0]) || Forced(package, force[1..]))
  }

  // ---------------------------------------------------------------------------------------
  // What these do to each character
  // ---------------------------------------------------------------------------------------

  lemma {:induction false} LowerAt(s: string, k: nat)
    requires k < |s|
    ensures if 'A' <= s[k] <= 'Z' then Lower(s)[k] as int == s[k] as int + 32 else Lower(s)[k] == s[k]
  {
    if k > 0 {
      LowerAt(s[1..], k - 1);
    }
  }

  lemma {:induction false} HyphensAt(s: string, k: nat)
    requires k < |s|
    ensures Hyphens(s)[k] == if s[k] == '_' then '-' else s[k]
  {
    if k > 0 {
      HyphensAt(s[1..], k - 1);
    }
  }

  /** Their code points. */
  lemma SpacesExactly(c: char)
    ensures IsSpace(c) <==> c as int in {9, 10, 11, 12, 13, 0x1C, 0x1D, 0x1E, 0x1F, 0x20, 0x85, 0xA0, 0x1680, 0x2000,
      0x2001, 0x2002, 0x2003, 0x2004, 0x2005, 0x2006, 0x2007, 0x2008, 0x2009, 0x200A, 0x2028, 0x2029, 0x202F, 0x205F,
      0x3000}
  {
  }

  /** White space around a name is dropped, and nothing else. */
  lemma TrimmedExactly(left: string, name: string, right: string)
    requires Blank(left) && Blank(right)
    requires name == "" || (!IsSpace(name[0]) && !IsSpace(name[|name| - 1]))
    ensures TrimRight(TrimLeft(left + name + right)) == name
    ensures Normalised(left + name + right) == Hyphens(Lower(name))
  {
    hide Blank, IsSpace, TrimLeft, TrimRight;
    assert left + name + right == left + (name + right);
    TrimLeftBlank(left, name + right);
    TrimRightBlank(name, right);
    EndsStay(name, right);
    TrimLeftBlank(right, "");
    assert right + "" == right && "" + right == right;
  }

  lemma EndsStay(name: string, right: string)
    requires name == "" || (!IsSpace(name[0]) && !IsSpace(name[|name| - 1]))
    ensures name != "" ==> TrimLeft(name + right) == name + right && TrimRight(name) == name
    ensures TrimRight("") == ""
  {
  }

  /** The same letter but for its case. */
  predicate SameLetter(c: char, small: char) {
    c == small || ('a' <= small <= 'z' && c as int + 32 == small as int)
  }

  ghost predicate PureAt(file: string, i: nat) {
    i + 13 <= |file| && forall k :: 0 <= k < 13 ==> SameLetter(file[i + k], "-none-any.whl"[k])
  }

  /** The file name says, in any case, that the wheel is for any platform. */
  ghost predicate PureName(file: string) {
    exists i: nat :: PureAt(file, i)
  }

  lemma PureExactly(file: string)
    ensures HasNativeDependencies(file) <==> !PureName(file)
  {
    ContainsExactly(Lower(file), "-none-any.whl");
    forall i: nat ensures StandsAt(Lower(file), i, "-none-any.whl") <==> PureAt(file, i) {
      PureAtExactly(file, i);
    }
    hide Contains, Lower, PureAt, StandsAt;
  }

  lemma PureAtExactly(file: string, i: nat)
    ensures StandsAt(Lower(file), i, "-none-any.whl") <==> PureAt(file, i)
  {
    hide Lower, SameLetter, StandsAt;
    SpelledAt(file, i, "-none-any.whl");
  }

  /** A text without capitals stands in the lower-case form where it stands in the text but for its case. */
  lemma SpelledAt(s: string, i: nat, mark: string)
    requires forall k :: 0 <= k < |mark| ==> !('A' <= mark[k] <= 'Z')
    ensures StandsAt(Lower(s), i, mark)
       <==> i + |mark| <= |s| && forall k :: 0 <= k < |mark| ==> SameLetter(s[i + k], mark[k])
  {
    hide Lower, SameLetter;
    if i + |mark| <= |s| {
      var part := Lower(s)[i..i + |mark|];
      forall k | 0 <= k < |mark| ensures part[k] == mark[k] <==> SameLetter(s[i + k], mark[k]) {
        LowerAt(s, i + k);
        LetterOf(s[i + k], part[k], mark[k]);
      }
    }
  }

  lemma LetterOf(c: char, lower: char, small: char)
    requires if 'A' <= c <= 'Z' then lower as int == c as int + 32 else lower == c
    requires !('A' <= small <= 'Z')
    ensures lower == small <==> SameLetter(c, small)
  {
  }

  /** One of the substrings that force pip stands in the name. */
  ghost predicate AnyStandsIn(force: seq<string>, name: string) {
    exists j, i: nat :: 0 <= j < |force| && StandsAt(name, i, force[j])
  }

  lemma {:induction false} ForcedExactly(name: string, force: seq<string>)
    ensures Forced(name, force) <==> AnyStandsIn(force, name)
  {
    if force != [] {
      ForcedExactly(name, force[1..]);
      ContainsExactly(name, force[0]);
      hide Contains, StandsAt;
      if j, i: nat :| 0 <= j < |force| && StandsAt(name, i, force[j]) {
        if j > 0 {
          assert StandsAt(name, i, force[1..][j - 1]);
        }
      }
      if j, i: nat :| 0 <= j < |force[1..]| && StandsAt(name, i, force[1..][j]) {
        assert StandsAt(name, i, force[j + 1]);
      }
    }
  }

  // ---------------------------------------------------------------------------------------
  // What a requirement asks for
  // ---------------------------------------------------------------------------------------

  /** A name without any of the marks at which a requirement is cut. */
  predicate Unmarked(name: string) {
    forall i :: 0 <= i < |name| ==> name[i] !in "=<>["
  }

  /** A version or extras mark that cuts the requirement starts here. */
  predicate Marked(t: string) {
    t != "" && (t[0] in "<>[" || StartsWith(t, "=="))
  }

  /** The text before the first such mark. */
  function Uncut(t: string): string {
    if t == "" || Marked(t) then "" else [t[0]] + Uncut(t[1..])
  }

  lemma {:induction false} BeforeAfterName(name: string, t: string, mark: string)
    requires Unmarked(name) && mark != "" && mark[0] in "=<>["
    ensures Before(name + t, mark) == name + Before(t, mark)
  {
    if name == "" {
      assert name + t == t;
    } else {
      BeforeAfterName(name[1..], t, mark);
      assert (name + t)[1..] == name[1..] + t;
    }
  }

  /** The six cuts, one after the other. */
  function CutSix(t: string): string {
    Before(Before(Before(Before(Before(Before(t, "=="), ">="), "<="), "<"), ">"), "[")
  }

  lemma CutSixAfterName(name: string, t: string)
    requires Unmarked(name)
    ensures CutSix(name + t) == name + CutSix(t)
  {
    hide Before, Unmarked;
    var t1 := Before(t, "==");
    var t2 := Before(t1, ">=");
    var t3 := Before(t2, "<=");
    var t4 := Before(t3, "<");
    BeforeAfterName(name, t, "==");
    BeforeAfterName(name, t1, ">=");
    BeforeAfterName(name, t2, "<=");
    BeforeAfterName(name, t3, "<");
    BeforeAfterName(name, t4, ">");
    BeforeAfterName(name, Before(t4, ">"), "[");
  }

  /** A cut keeps the first character, unless it cuts there. */
  lemma BeforeHead(t: string, mark: string)
    requires t != "" && mark != ""
    ensures Before(t, mark) == if StartsWith(t, mark) then "" else [t[0]] + Before(t[1..], mark)
    ensures Before("", mark) == ""
  {
  }

  lemma SingleMark(t: string, mark: string)
    requires t != "" && |mark| == 1
    ensures StartsWith(t, mark) <==> t[0] == mark[0]
  {
  }

  lemma DoubleMark(t: string, mark: string)
    requires t != "" && |mark| == 2 && StartsWith(t, mark)
    ensures t[0] == mark[0]
  {
  }

  /** One cut of a text that starts with `c`, from what the cut makes of the rest. */
  lemma CutStep(c: char, rest: string, mark: string)
    requires mark != ""
    ensures Before([c] + rest, mark) == if StartsWith([c] + rest, mark) then "" else [c] + Before(rest, mark)
  {
    assert ([c] + rest)[1..] == rest;
  }

  lemma CutSixMarked(t: string)
    requires Marked(t)
    ensures CutSix(t) == ""
  {
    hide Before, StartsWith;
    BeforeHead(t, "==");
    if !StartsWith(t, "==") {
      var c := t[0];
      var r1 := Before(t[1..], "==");
      CutStep(c, r1, ">=");
      var t2 := Before([c] + r1, ">=");
      if t2 != "" {
        var r2 := t2[1..];
        assert t2 == [c] + r2;
        CutStep(c, r2, "<=");
        var t3 := Before([c] + r2, "<=");
        if t3 != "" {
          CutSingles(t3);
        } else {
          NothingToCut();
        }
      } else {
        NothingToCut();
      }
    } else {
      NothingToCut();
    }
  }

  lemma NothingToCut()
    ensures forall mark: string :: Before("", mark) == ""
  {
  }

  lemma CutSingles(t: string)
    requires t != "" && t[0] in "<>["
    ensures Before(Before(Before(t, "<"), ">"), "[") == ""
  {
    hide Before, StartsWith;
    NothingToCut();
    var c := t[0];
    BeforeHead(t, "<");
    SingleMark(t, "<");
    if c != '<' {
      var r := Before(t[1..], "<");
      CutStep(c, r, ">");
      SingleMark([c] + r, ">");
      if c != '>' {
        var r' := Before(r, ">");
        CutStep(c, r', "[");
        SingleMark([c] + r', "[");
      }
    }
  }

  lemma CutSixUnmarked(t: string)
    requires t != "" && !Marked(t)
    ensures CutSix(t) == [t[0]] + CutSix(t[1..])
  {
    hide Before, StartsWith;
    var c := t[0];
    BeforeHead(t, "==");
    var r1 := Before(t[1..], "==");
    var r2 := Before(r1, ">=");
    var r3 := Before(r2, "<=");
    var r4 := Before(r3, "<");
    var r5 := Before(r4, ">");
    CutStep(c, r1, ">=");
    CutStep(c, r2, "<=");
    CutStep(c, r3, "<");
    CutStep(c, r4, ">");
    CutStep(c, r5, "[");
    if StartsWith([c] + r1, ">=") {
      DoubleMark([c] + r1, ">=");
    }
    if StartsWith([c] + r2, "<=") {
      DoubleMark([c] + r2, "<=");
    }
    SingleMark([c] + r3, "<");
    SingleMark([c] + r4, ">");
    SingleMark([c] + r5, "[");
  }

  /** Together the six cuts leave the text before the first mark, whatever the order of the cuts. */
  lemma {:induction false} CutSixIsUncut(t: string)
    ensures CutSix(t) == Uncut(t)
  {
    if t == "" {
      NothingToCut();
    } else if Marked(t) {
      CutSixMarked(t);
    } else {
      hide Before, Marked;
      CutSixIsUncut(t[1..]);
      CutSixUnmarked(t);
    }
  }

  predicate Blank(s: string) {
    forall i :: 0 <= i < |s| ==> IsSpace(s[i])
  }

  lemma {:induction false} TrimLeftBlank(s: string, c: string)
    ensures Blank(s) ==> TrimLeft(s) == "" && TrimLeft(s + c) == TrimLeft(c)
    ensures !Blank(s) ==> TrimLeft(s) != "" && TrimLeft(s + c) == TrimLeft(s) + c && !IsSpace(TrimLeft(s)[0])
  {
    if s == "" {
      assert s + c == c;
    } else {
      assert (s + c)[1..] == s[1..] + c;
      assert s == [s[0]] + s[1..];
      if IsSpace(s[0]) {
        TrimLeftBlank(s[1..], c);
        assert Blank(s) <==> Blank(s[1..]);
      }
    }
  }

  lemma {:induction false} TrimRightBlank(s: string, c: string)
    requires Blank(c)
    ensures TrimRight(s + c) == TrimRight(s)
    decreases |c|
  {
    if c == "" {
      assert s + c == s;
    } else {
      var n := |c| - 1;
      TrimRightBlank(s, c[..n]);
      assert (s + c)[..|s| + n] == s + c[..n];
    }
  }

  /** Trimming keeps what is not blank. */
  lemma {:induction false} TrimRightKeeps(s: string, i: nat)
    requires i < |s| && !IsSpace(s[i])
    ensures |TrimRight(s)| > i
    decreases |s|
  {
    if IsSpace(s[|s| - 1]) {
      TrimRightKeeps(s[..|s| - 1], i);
    }
  }

  /** What follows a name does not change it exactly if it is blank. */
  lemma NormalisedWith(name: string, c: string)
    ensures Normalised(name + c) == Normalised(name) <==> Blank(c)
  {
    hide Lower, Hyphens, TrimRight, TrimLeft;
    TrimLeftBlank(name, c);
    TrimLeftBlank(c, "");
    assert c + "" == c;
    if Blank(c) {
      if !Blank(name) {
        TrimRightBlank(TrimLeft(name), c);
      }
    } else if Blank(name) {
      TrimRightKeeps(TrimLeft(c), 0);
    } else {
      var i :| 0 <= i < |c| && !IsSpace(c[i]);
      TrimRightKeeps(TrimLeft(name) + c, |TrimLeft(name)| + i);
    }
  }

  /** The name that a requirement asks for is the one it starts with, normalised, exactly if nothing but white space
      stands before its first `<`, `>`, `[` or `==`. */
  lemma RequestedNameExactly(name: string, t: string)
    requires Unmarked(name)
    ensures RequestedName(name + t) == Normalised(name + Uncut(t))
    ensures RequestedName(name + t) == Normalised(name) <==> Blank(Uncut(t))
  {
    hide Before, Normalised, Uncut, Unmarked, Blank;
    CutSixAfterName(name, t);
    CutSixIsUncut(t);
    NormalisedWith(name, Uncut(t));
  }

  /** With `~=`, `!=`, a marker or a URL it is not. */
  lemma OtherQualifiers(name: string, t: string)
    requires Unmarked(name)
    requires
      || StartsWith(t, "~=") || StartsWith(t, "!=") || StartsWith(t, ";") || StartsWith(t, " @ ")
      || StartsWith(t, "===")
    ensures RequestedName(name + t) == Normalised(name) <==> StartsWith(t, "===")
  {
    hide Before, Normalised, Unmarked;
    RequestedNameExactly(name, t);
    if StartsWith(t, "===") {
      assert t[..2] == t[..3][..2] == "==";
    } else if StartsWith(t, " @ ") {
      assert t[..3][0] == ' ' && t[..3][1] == '@';
      assert t[1] == '@' && !Marked(t) && !Marked(t[1..]);
      assert Uncut(t)[1] == '@';
    } else {
      assert t[0] in "~!;" by {
        assert StartsWith(t, "~=") ==> t[..2][0] == '~';
        assert StartsWith(t, "!=") ==> t[..2][0] == '!';
        assert StartsWith(t, ";") ==> t[..1][0] == ';';
      }
      if StartsWith(t, "==") {
        DoubleMark(t, "==");
      }
      assert Uncut(t)[0] == t[0];
    }
  }

  // ---------------------------------------------------------------------------------------
  // What the file name of a wheel says
  // ---------------------------------------------------------------------------------------

  lemma {:induction false} BeforeHyphen(s: string, rest: string)
    requires forall i :: 0 <= i < |s| ==> s[i] != '-'
    ensures Before(s + ("-" + rest), "-") == s
  {
    if s == "" {
      assert s + ("-" + rest) == "-" + rest;
    } else {
      BeforeHyphen(s[1..], rest);
      assert (s + ("-" + rest))[1..] == s[1..] + ("-" + rest);
    }
  }

  predicate NoHyphen(s: string) {
    forall i :: 0 <= i < |s| ==> s[i] != '-'
  }

  /** A wheel file name as PEP 427 builds it. */
  function WheelName(dist: string, version: string, tags: string): string {
    dist + ("-" + (version + ("-" + tags))) + ".whl"
  }

  lemma ParseWheelBack(dist: string, version: string, tags: string)
    requires NoHyphen(dist) && NoHyphen(version)
    ensures EndsWith(WheelName(dist, version, tags), ".whl")
    ensures ParseWheelFilename(WheelName(dist, version, tags)) == Some((Hyphens(dist), version))
  {
    hide Before, Hyphens;
    var tail := version + ("-" + tags);
    var stem := dist + ("-" + tail);
    assert Stem(WheelName(dist, version, tags)) == stem;
    BeforeHyphen(dist, tail);
    BeforeHyphen(version, tags);
    assert stem[|dist| + 1..] == tail;
  }

  lemma {:induction false} ContainsAll(s: string, part: string, c: char)
    requires Contains(s, part) && c in part
    ensures c in s
  {
    if StartsWith(s, part) {
      assert forall x :: x in s[..|part|] ==> x in s;
    } else {
      ContainsAll(s[1..], part, c);
    }
  }

  lemma {:induction false} LowerMember(s: string, c: char)
    requires c in Lower(s)
    ensures exists x :: x in s && LowerChar(x) == c
  {
    if c != LowerChar(s[0]) {
      LowerMember(s[1..], c);
      var x :| x in s[1..] && LowerChar(x) == c;
      assert x in s;
    } else {
      assert s[0] in s;
    }
  }

  lemma {:induction false} BeforeMember(s: string, mark: string, c: char)
    ensures c in Before(s, mark) ==> c in s
  {
    if s != "" && !StartsWith(s, mark) {
      BeforeMember(s[1..], mark, c);
    }
  }

  lemma {:induction false} HyphensMember(s: string, c: char)
    ensures c in Hyphens(s) && c != '-' ==> c in s
  {
    if s != "" {
      HyphensMember(s[1..], c);
    }
  }

  /** A file name without the letter O is not that of a pure Python wheel. */
  lemma NoOIsNative(file: string)
    requires 'o' !in file && 'O' !in file
    ensures HasNativeDependencies(file)
  {
    if !HasNativeDependencies(file) {
      PureHasO(file);
    }
  }

  lemma PureHasO(file: string)
    requires !HasNativeDependencies(file)
    ensures 'o' in file || 'O' in file
  {
    assert "-none-any.whl"[2] == 'o';
    ContainsAll(Lower(file), "-none-any.whl", 'o');
    LowerMember(file, 'o');
  }
}
