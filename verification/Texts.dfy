/** The questions about strings that several components ask. */
module Texts {

  predicate StartsWith(s: string, prefix: string) {
    |prefix| <= |s| && s[..|prefix|] == prefix
  }

  predicate EndsWith(s: string, suffix: string) {
    |suffix| <= |s| && s[|s| - |suffix|..] == suffix
  }

  predicate Contains(s: string, part: string) {
    StartsWith(s, part) || (s != "" && Contains(s[1..], part))
  }

  predicate StandsAt(s: string, i: nat, part: string) {
    i + |part| <= |s| && s[i..i + |part|] == part
  }

  /** Part of a text, told by positions. */
  lemma {:induction false} ContainsExactly(s: string, part: string)
    ensures Contains(s, part) <==> exists i: nat :: StandsAt(s, i, part)
  {
    if StartsWith(s, part) {
      assert StandsAt(s, 0, part);
    } else if s != "" {
      ContainsExactly(s[1..], part);
      forall i: nat ensures StandsAt(s[1..], i, part) <==> StandsAt(s, i + 1, part) {
        if i + 1 + |part| <= |s| {
          assert s[1..][i..i + |part|] == s[i + 1..i + 1 + |part|];
        }
      }
      if i: nat :| StandsAt(s, i, part) {
        assert StandsAt(s[1..], i - 1, part);
      }
    }
  }

  lemma {:induction false} ContainsLater(s: string, part: string, t: string)
    requires Contains(t, part)
    ensures Contains(s + t, part)
  {
    if s == "" {
      assert s + t == t;
    } else {
      ContainsLater(s[1..], part, t);
      assert (s + t)[1..] == s[1..] + t;
    }
  }

  lemma {:induction false} ContainsEarlier(s: string, part: string, t: string)
    requires Contains(s, part)
    ensures Contains(s + t, part)
  {
    if StartsWith(s, part) {
      assert (s + t)[..|part|] == part;
    } else {
      ContainsEarlier(s[1..], part, t);
      assert (s + t)[1..] == s[1..] + t;
    }
  }
}
