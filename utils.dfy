// Utils: the clamp `inBetween` and the escape/unescape pair for special characters.
module Utils {
  import opened JavaTypes
  import opened JavaStrings

  /** `inBetween(min, value, max)`: the value clamped to the range. */
  function InBetween(min: Int32, value: Int32, max: Int32): (r: Int32)
    ensures min <= max ==> min <= r <= max
    ensures min <= value <= max ==> r == value
    ensures value < min ==> r == min
    ensures min <= value && max < value ==> r == max
  {
    if value < min then min
    else if value > max then max
    else value
  }

  /**
   * `REPLACE_LIST`: each special character with the letter that follows a
   * backslash in its escaped spelling: tab and `\t`, line feed and `\n`,
   * carriage return and `\r`, in this order.
   */
  const REPLACE_LIST: seq<(char, char)> := [('\t', 't'), ('\n', 'n'), ('\r', 'r')]

  /** The two characters a backslash and `letter`. */
  function Escape(letter: char): string
  {
    ['\\', letter]
  }

  /** One `replaceAll(special, "\\\\" + letter)` pass. */
  function EscapePass(s: string, special: char, letter: char): string
  {
    ReplaceAll(s, [special], Escape(letter))
  }

  /** One `replaceAll("\\\\" + letter, special)` pass. */
  function UnescapePass(s: string, letter: char, special: char): string
  {
    ReplaceAll(s, Escape(letter), [special])
  }

  /** The first `k` passes of `fromJavaString`. */
  function EscapePasses(s: string, k: nat): string
    requires k <= |REPLACE_LIST|
  {
    if k == 0 then s
    else EscapePass(EscapePasses(s, k - 1), REPLACE_LIST[k - 1].0, REPLACE_LIST[k - 1].1)
  }

  /** The first `k` passes of `toJavaString`. */
  function UnescapePasses(s: string, k: nat): string
    requires k <= |REPLACE_LIST|
  {
    if k == 0 then s
    else UnescapePass(UnescapePasses(s, k - 1), REPLACE_LIST[k - 1].1, REPLACE_LIST[k - 1].0)
  }

  /** `fromJavaString`: the replacement passes run in list order. */
  method FromJavaString(s: string) returns (r: string)
    ensures r == EscapePasses(s, |REPLACE_LIST|)
    ensures forall i :: 0 <= i < |r| ==> r[i] != '\t' && r[i] != '\n' && r[i] != '\r'
  {
    r := s;
    var i := 0;
    while i < |REPLACE_LIST|
      invariant 0 <= i <= |REPLACE_LIST|
      invariant r == EscapePasses(s, i)
    {
      r := ReplaceAll(r, [REPLACE_LIST[i].0], Escape(REPLACE_LIST[i].1));
      i := i + 1;
    }
    EscapedHasNoSpecials(s);
  }

  /** `toJavaString`: the reverse replacements, also run in list order. */
  method ToJavaString(s: string) returns (r: string)
    ensures r == UnescapePasses(s, |REPLACE_LIST|)
  {
    r := s;
    var i := 0;
    while i < |REPLACE_LIST|
      invariant 0 <= i <= |REPLACE_LIST|
      invariant r == UnescapePasses(s, i)
    {
      r := ReplaceAll(r, Escape(REPLACE_LIST[i].1), [REPLACE_LIST[i].0]);
      i := i + 1;
    }
  }

  // ----- properties of single passes -----

  /** An escape pass, one character at a time. */
  lemma EscapePassCons(s: string, special: char, letter: char)
    requires |s| > 0
    ensures EscapePass(s, special, letter)
         == (if s[0] == special then Escape(letter) else [s[0]]) + EscapePass(s[1..], special, letter)
  {
    assert s[1..] == s[|[special]|..];
    assert s[..1] == [s[0]];
  }

  /** An unescape pass, one match or one character at a time. */
  lemma UnescapePassCons(s: string, letter: char, special: char)
    requires |s| > 0
    ensures |s| >= 2 && s[0] == '\\' && s[1] == letter ==>
      UnescapePass(s, letter, special) == [special] + UnescapePass(s[2..], letter, special)
    ensures !(|s| >= 2 && s[0] == '\\' && s[1] == letter) ==>
      UnescapePass(s, letter, special) == [s[0]] + UnescapePass(s[1..], letter, special)
  {
    if |s| >= 2 && s[0] == '\\' && s[1] == letter {
      assert s[..2] == Escape(letter);
    } else if |s| >= 2 {
      assert s[..2] != Escape(letter) by {
        assert s[..2][0] == s[0] && s[..2][1] == s[1];
      }
    }
  }

  /** An escape pass keeps every character but `special` and adds only a backslash and `letter`. */
  lemma {:induction false} EscapePassChars(s: string, special: char, letter: char)
    requires special != '\\' && special != letter
    ensures var r := EscapePass(s, special, letter);
      forall c :: c in r ==> c != special && (c in s || c == '\\' || c == letter)
    decreases |s|
  {
    if |s| >= 1 {
      EscapePassChars(s[1..], special, letter);
      EscapePassCons(s, special, letter);
      assert forall c :: c in s[1..] ==> c in s;
    }
  }

  /** The output of `fromJavaString` has no tab, line feed or carriage return. */
  lemma EscapedHasNoSpecials(s: string)
    ensures var r := EscapePasses(s, |REPLACE_LIST|);
      forall i :: 0 <= i < |r| ==> r[i] != '\t' && r[i] != '\n' && r[i] != '\r'
  {
    var s1 := EscapePass(s, '\t', 't');
    var s2 := EscapePass(s1, '\n', 'n');
    var s3 := EscapePass(s2, '\r', 'r');
    assert EscapePasses(s, 1) == s1;
    assert EscapePasses(s, 2) == s2;
    assert EscapePasses(s, 3) == s3;
    EscapePassChars(s, '\t', 't');
    EscapePassChars(s1, '\n', 'n');
    EscapePassChars(s2, '\r', 'r');
    forall i | 0 <= i < |s3| ensures s3[i] != '\t' && s3[i] != '\n' && s3[i] != '\r' {
      assert s3[i] in s3;
    }
  }

  lemma FreeTail(s: string, pat: string)
    requires |s| > 0 && Free(s, pat)
    ensures Free(s[1..], pat)
  {
    forall i | 0 <= i <= |s[1..]| - |pat| ensures !OccursAt(s[1..], pat, i) {
      assert !OccursAt(s, pat, i + 1);
      assert s[1..][i..i + |pat|] == s[i + 1..i + 1 + |pat|];
    }
  }

  /** An unescape pass undoes the matching escape pass. */
  lemma {:induction false} UnescapeEscape(s: string, special: char, letter: char)
    requires special != '\\' && letter != '\\'
    requires Free(s, Escape(letter))
    ensures UnescapePass(EscapePass(s, special, letter), letter, special) == s
    decreases |s|
  {
    if |s| > 0 {
      FreeTail(s, Escape(letter));
      UnescapeEscape(s[1..], special, letter);
      var rest := EscapePass(s[1..], special, letter);
      EscapePassCons(s, special, letter);
      if s[0] == special {
        var e := Escape(letter) + rest;
        UnescapePassCons(e, letter, special);
        assert e[2..] == rest;
      } else {
        var e := [s[0]] + rest;
        if |s| >= 2 {
          EscapePassCons(s[1..], special, letter);
          if s[1] != special {
            assert !OccursAt(s, Escape(letter), 0);
            assert s[..2] == [s[0], s[1]];
          }
        }
        UnescapePassCons(e, letter, special);
        assert e[1..] == rest;
      }
    }
  }

  /**
   * Unescaping one letter commutes with escaping another character, when the
   * two passes cannot see each other's output.
   */
  lemma {:induction false} UnescapeCommutes(y: string, letter: char, special: char, special2: char, letter2: char)
    requires special2 != '\\' && special2 != letter && letter2 != letter
    requires special != special2 && letter2 != '\\' && letter != '\\'
    ensures UnescapePass(EscapePass(y, special2, letter2), letter, special)
         == EscapePass(UnescapePass(y, letter, special), special2, letter2)
    decreases |y|
  {
    if |y| == 0 {
    } else if |y| >= 2 && y[0] == '\\' && y[1] == letter {
      UnescapeCommutes(y[2..], letter, special, special2, letter2);
      var rest := EscapePass(y[2..], special2, letter2);
      EscapePassCons(y, special2, letter2);
      EscapePassCons(y[1..], special2, letter2);
      assert y[1..][1..] == y[2..];
      var e := Escape(letter) + rest;
      assert EscapePass(y, special2, letter2) == e;
      UnescapePassCons(e, letter, special);
      assert e[2..] == rest;
      UnescapePassCons(y, letter, special);
      EscapePassCons([special] + UnescapePass(y[2..], letter, special), special2, letter2);
      assert ([special] + UnescapePass(y[2..], letter, special))[1..] == UnescapePass(y[2..], letter, special);
    } else {
      UnescapeCommutes(y[1..], letter, special, special2, letter2);
      var rest := EscapePass(y[1..], special2, letter2);
      var u := UnescapePass(y[1..], letter, special);
      EscapePassCons(y, special2, letter2);
      UnescapePassCons(y, letter, special);
      EscapePassCons([y[0]] + u, special2, letter2);
      assert ([y[0]] + u)[1..] == u;
      if y[0] == special2 {
        var e := Escape(letter2) + rest;
        UnescapePassCons(e, letter, special);
        var e1 := [letter2] + rest;
        assert e[1..] == e1;
        UnescapePassCons(e1, letter, special);
        assert e1[1..] == rest;
      } else {
        var e := [y[0]] + rest;
        if |y| >= 2 {
          EscapePassCons(y[1..], special2, letter2);
        }
        UnescapePassCons(e, letter, special);
        assert e[1..] == rest;
      }
    }
  }

  /**
   * `toJavaString(fromJavaString(s)) == s` when `s` holds no backslash
   * followed by `t`, `n` or `r`.
   */
  lemma RoundTrip(s: string)
    requires Free(s, Escape('t')) && Free(s, Escape('n')) && Free(s, Escape('r'))
    ensures UnescapePasses(EscapePasses(s, |REPLACE_LIST|), |REPLACE_LIST|) == s
  {
    var et := EscapePass(s, '\t', 't');
    var en := EscapePass(et, '\n', 'n');
    var er := EscapePass(en, '\r', 'r');
    assert EscapePasses(s, 1) == et;
    assert EscapePasses(s, 2) == en;
    assert EscapePasses(s, 3) == er;
    UnescapeCommutes(en, 't', '\t', '\r', 'r');
    UnescapeCommutes(et, 't', '\t', '\n', 'n');
    UnescapeEscape(s, '\t', 't');
    var sn := EscapePass(s, '\n', 'n');
    var ut := UnescapePass(er, 't', '\t');
    assert ut == EscapePass(sn, '\r', 'r');
    UnescapeCommutes(sn, 'n', '\n', '\r', 'r');
    UnescapeEscape(s, '\n', 'n');
    var un := UnescapePass(ut, 'n', '\n');
    assert un == EscapePass(s, '\r', 'r');
    UnescapeEscape(s, '\r', 'r');
    assert UnescapePasses(er, 1) == ut;
    assert UnescapePasses(er, 2) == un;
  }
}
