// The pattern symbol of the reverx copy (automata.RegEx): a quoted pattern
// built from message data, its two generalizations, concatenation, its
// printed form and the tokenizer that cuts a message into symbols.
module RegExSymbols {
  import opened Wrappers
  import opened JavaTypes
  import opened JavaStrings
  import opened Traces
  import opened PatternText

  /**
   * A symbol: the pattern text, and for binary protocols whether it was
   * generalized to "any n bytes" and the length n of the data it was built
   * from (-1 when unknown).
   */
  datatype RegEx = RegEx(pattern: string, generalizedBinary: bool, lengthBinary: int)

  /** `new RegEx(String)`: a pattern given as text. */
  function OfPattern(p: string): RegEx
  {
    RegEx(p, false, -1)
  }

  /** `new RegEx(CharSequence)`: the quoted data, remembering its length. */
  function OfData(d: string): RegEx
  {
    RegEx(Quoted(d, true), false, |d|)
  }

  /** `new RegEx(CharSequence)` running `quote`. */
  method NewOfData(d: string) returns (r: RegEx)
    ensures r == OfData(d)
  {
    var p := Quote(d, true);
    r := RegEx(p, false, |d|);
  }

  // ----- the byte predicates -----

  /** `isSpecialCharacter`: one of the regular-expression metacharacters `[\^$.|?*+(){}`. */
  predicate IsSpecialCharacter(b: Byte)
  {
    0 <= b && b as char in "[\\^$.|?*+(){}"
  }

  /** `isASCIIPrintable(byte[])`: a scan that stops at the first non-printable byte. */
  method AllPrintable(data: seq<Byte>) returns (r: bool)
    ensures r <==> forall k :: 0 <= k < |data| ==> IsPrintable(data[k])
  {
    for i := 0 to |data|
      invariant forall k :: 0 <= k < i ==> IsPrintable(data[k])
    {
      if !IsPrintable(data[i]) {
        return false;
      }
    }
    return true;
  }

  // ----- getGeneralizedRegEx -----

  /** A byte that is neither a letter nor a digit goes into the set of other bytes. */
  predicate IsOther(b: Byte)
  {
    !IsAlpha(b) && !IsDigit(b)
  }

  /** What the classifying pass of `getGeneralizedRegEx` gathers. */
  datatype Census = Census(alpha: bool, digit: bool, repeat: bool, others: set<Byte>)

  /** The census after the pass has seen `data`, one byte at a time. */
  function Classify(data: seq<Byte>): Census
  {
    if data == [] then Census(false, false, false, {})
    else
      var c := Classify(data[..|data| - 1]);
      var b := data[|data| - 1];
      if IsAlpha(b) then c.(alpha := true)
      else if IsDigit(b) then c.(digit := true)
      else c.(repeat := c.repeat || b in c.others, others := c.others + {b})
  }

  predicate HasAlpha(data: seq<Byte>)
  {
    exists k :: 0 <= k < |data| && IsAlpha(data[k])
  }

  predicate HasDigit(data: seq<Byte>)
  {
    exists k :: 0 <= k < |data| && IsDigit(data[k])
  }

  /** The distinct other bytes of `data`. */
  function OthersOf(data: seq<Byte>): set<Byte>
  {
    set k | 0 <= k < |data| && IsOther(data[k]) :: data[k]
  }

  /** Some other byte occurs twice in `data`. */
  predicate Repeats(data: seq<Byte>)
  {
    exists k, l :: 0 <= k < l < |data| && IsOther(data[l]) && data[k] == data[l]
  }

  lemma OthersSnoc(init: seq<Byte>, b: Byte)
    ensures OthersOf(init + [b]) == OthersOf(init) + (if IsOther(b) then {b} else {})
  {
    var data := init + [b];
    var a := OthersOf(data);
    var c := OthersOf(init) + (if IsOther(b) then {b} else {});
    forall x | x in a ensures x in c {
      var k :| 0 <= k < |data| && IsOther(data[k]) && data[k] == x;
      if k < |init| {
        assert init[k] == x;
      }
    }
    forall x | x in c ensures x in a {
      if x in OthersOf(init) {
        var k :| 0 <= k < |init| && IsOther(init[k]) && init[k] == x;
        assert data[k] == x;
      } else {
        assert data[|init|] == x;
      }
    }
  }

  lemma RepeatsSnoc(init: seq<Byte>, b: Byte)
    ensures Repeats(init + [b]) <==> Repeats(init) || (IsOther(b) && b in OthersOf(init))
  {
    var data := init + [b];
    if Repeats(data) {
      var k, l :| 0 <= k < l < |data| && IsOther(data[l]) && data[k] == data[l];
      if l < |init| {
        assert init[k] == data[k] && init[l] == data[l];
        assert Repeats(init);
      } else {
        assert init[k] == b;
      }
    }
    if Repeats(init) {
      var k, l :| 0 <= k < l < |init| && IsOther(init[l]) && init[k] == init[l];
      assert data[k] == init[k] && data[l] == init[l];
    }
    if IsOther(b) && b in OthersOf(init) {
      var k :| 0 <= k < |init| && IsOther(init[k]) && init[k] == b;
      assert data[k] == b && data[|init|] == b;
    }
  }

  lemma HasSnoc(init: seq<Byte>, b: Byte)
    ensures HasAlpha(init + [b]) <==> HasAlpha(init) || IsAlpha(b)
    ensures HasDigit(init + [b]) <==> HasDigit(init) || IsDigit(b)
  {
    var data := init + [b];
    assert data[|init|] == b;
    if HasAlpha(init) {
      var k :| 0 <= k < |init| && IsAlpha(init[k]);
      assert data[k] == init[k];
    }
    if HasDigit(init) {
      var k :| 0 <= k < |init| && IsDigit(init[k]);
      assert data[k] == init[k];
    }
    if HasAlpha(data) && !IsAlpha(b) {
      var k :| 0 <= k < |data| && IsAlpha(data[k]);
      assert init[k] == data[k];
    }
    if HasDigit(data) && !IsDigit(b) {
      var k :| 0 <= k < |data| && IsDigit(data[k]);
      assert init[k] == data[k];
    }
  }

  /**
   * The census records whether a letter occurs, whether a digit occurs, the
   * set of distinct other bytes, and whether some other byte occurs twice.
   */
  lemma {:induction false} ClassifyMeaning(data: seq<Byte>)
    ensures Classify(data).alpha == HasAlpha(data)
    ensures Classify(data).digit == HasDigit(data)
    ensures Classify(data).others == OthersOf(data)
    ensures Classify(data).repeat == Repeats(data)
    decreases |data|
  {
    if data != [] {
      var init := data[..|data| - 1];
      var b := data[|data| - 1];
      assert data == init + [b];
      ClassifyMeaning(init);
      OthersSnoc(init, b);
      RepeatsSnoc(init, b);
      HasSnoc(init, b);
    } else {
      assert OthersOf(data) == {};
    }
  }

  /** A finite non-empty set of bytes has a least element. */
  lemma {:induction false} LeastOf(s: set<Byte>) returns (m: Byte)
    requires s != {}
    ensures m in s && forall x :: x in s ==> m <= x
    decreases |s|
  {
    var y :| y in s;
    var rest := s - {y};
    if rest == {} {
      m := y;
      forall x | x in s
        ensures m <= x
      {
        assert x !in rest;
      }
    } else {
      var r := LeastOf(rest);
      m := if y < r then y else r;
      forall x | x in s
        ensures m <= x
      {
        if x != y {
          assert x in rest;
        }
      }
    }
  }

  lemma LeastExists(s: set<Byte>)
    requires s != {}
    ensures exists m :: m in s && forall x :: x in s ==> m <= x
  {
    var m := LeastOf(s);
  }

  /** The least element of a non-empty set of bytes. */
  function Least(s: set<Byte>): (m: Byte)
    requires s != {}
    ensures m in s
  {
    LeastExists(s);
    var m :| m in s && forall x :: x in s ==> m <= x;
    m
  }

  /**
   * The order in which the model walks the set of other bytes. This is the
   * model's own choice, not Java's: a `HashSet<Byte>` is walked in the order
   * of its buckets, which depends on the capacity it was created with, so
   * the bracket the model writes may list the same bytes in another order
   * than the original does.
   */
  function Ascending(s: set<Byte>): (order: seq<Byte>)
    decreases |s|
  {
    if s == {} then [] else [Least(s)] + Ascending(s - {Least(s)})
  }

  /** The least element is below every element. */
  lemma LeastBelow(s: set<Byte>, x: Byte)
    requires x in s
    ensures Least(s) <= x
  {
  }

  /** The walk visits every element of the set once, in ascending order. */
  lemma {:induction false} AscendingWalk(s: set<Byte>)
    ensures |Ascending(s)| == |s|
    ensures forall x :: x in Ascending(s) <==> x in s
    ensures forall k, l :: 0 <= k < l < |Ascending(s)| ==> Ascending(s)[k] < Ascending(s)[l]
    decreases |s|
  {
    if s != {} {
      var m := Least(s);
      var rest := s - {m};
      AscendingWalk(rest);
      var order := Ascending(s);
      assert order == [m] + Ascending(rest);
      forall x | x in rest
        ensures m < x
      {
        LeastBelow(s, x);
      }
      forall k, l | 0 <= k < l < |order|
        ensures order[k] < order[l]
      {
        if k == 0 {
          assert order[l] == Ascending(rest)[l - 1];
          assert order[l] in rest;
        } else {
          assert order[k] == Ascending(rest)[k - 1] && order[l] == Ascending(rest)[l - 1];
        }
      }
    }
  }

  /** What one other byte contributes inside the class: the quoted character or its escape. */
  function Member(b: Byte): string
  {
    if IsPrintable(b) then OPEN + [b as char] + CLOSE else Escape(b)
  }

  /** The members of a walk of the set, appended in order. */
  function Members(order: seq<Byte>): string
  {
    MembersTo(order, |order|)
  }

  /** The members of the first `n` bytes of the walk. */
  function MembersTo(order: seq<Byte>, n: nat): string
    requires n <= |order|
  {
    if n == 0 then "" else MembersTo(order, n - 1) + Member(order[n - 1])
  }

  /** The class needs brackets when it is more than one quoted or escaped byte. */
  predicate Bracketed(c: Census)
  {
    c.alpha || c.digit || |c.others| > 1
  }

  /** What comes before the other bytes: the open bracket and the letter and digit ranges. */
  function ClassHead(c: Census): string
  {
    (if Bracketed(c) then "[" else "") + (if c.alpha then "A-Za-z" else "") + (if c.digit then "0-9" else "")
  }

  /** What comes after the other bytes: the close bracket and the repetition. */
  function ClassTail(c: Census): string
  {
    (if Bracketed(c) then "]" else "") + (if c.repeat || c.alpha || c.digit then "+" else "")
  }

  /** The text `getGeneralizedRegEx` writes for a census: a class, bracketed and repeated where needed. */
  function GeneralizedText(c: Census): string
  {
    ClassHead(c) + Members(Ascending(c.others)) + ClassTail(c)
  }

  /** `getGeneralizedRegEx(data)`. */
  function Generalized(data: seq<Byte>): string
  {
    GeneralizedText(Classify(data))
  }

  /**
   * `getGeneralizedRegEx`: one pass classifying the bytes, then the class text
   * `[A-Za-z0-9<others>]+` with the brackets and the `+` only where needed.
   */
  method GetGeneralizedRegEx(data: seq<Byte>) returns (s: string)
    ensures s == Generalized(data)
  {
    var census := TakeCensus(data);
    var alpha, digit, repeat, others := census.alpha, census.digit, census.repeat, census.others;
    repeat := repeat || alpha || digit;

    s := "";
    if alpha || digit || |others| > 1 {
      s := s + "[";
    }
    assert s == if Bracketed(census) then "[" else "";
    if alpha {
      s := s + "A-Za-z";
    }
    if digit {
      s := s + "0-9";
    }
    assert s == ClassHead(census);
    s := AppendMembers(s, Ascending(others));
    ghost var body := s;
    if alpha || digit || |others| > 1 {
      s := s + "]";
    }
    if repeat {
      s := s + "+";
    }
    assert s == body + ClassTail(census);
  }

  /** The first loop of `getGeneralizedRegEx`: one pass over the bytes, recording what occurs. */
  method TakeCensus(data: seq<Byte>) returns (c: Census)
    ensures c == Classify(data)
  {
    var alpha := false;
    var digit := false;
    var repeat := false;
    var others: set<Byte> := {};
    for i := 0 to |data|
      invariant Census(alpha, digit, repeat, others) == Classify(data[..i])
    {
      var b := data[i];
      assert data[..i + 1][..i] == data[..i];
      if IsAlpha(b) {
        alpha := true;
      } else if IsDigit(b) {
        digit := true;
      } else {
        repeat := repeat || b in others;
        others := others + {b};
      }
    }
    assert data[..|data|] == data;
    c := Census(alpha, digit, repeat, others);
  }

  /** The loop over the walk of the other bytes: each contributes its member text. */
  method AppendMembers(s0: string, order: seq<Byte>) returns (s: string)
    ensures s == s0 + Members(order)
  {
    s := s0;
    for j := 0 to |order|
      invariant s == s0 + MembersTo(order, j)
    {
      Assoc(s0, MembersTo(order, j), Member(order[j]));
      s := s + Member(order[j]);
    }
  }

  /** Every member starts with a backslash and none ends with `+`. */
  lemma MemberEnds(b: Byte)
    ensures Member(b)[0] == '\\' && Member(b)[|Member(b)| - 1] != '+'
  {
    if !IsPrintable(b) {
      EscapeHead(b);
    }
  }

  lemma {:induction false} MembersEnds(order: seq<Byte>, n: nat)
    requires 0 < n <= |order|
    ensures MembersTo(order, n) != [] && MembersTo(order, n)[0] == '\\'
    ensures MembersTo(order, n)[|MembersTo(order, n)| - 1] != '+'
    decreases n
  {
    MemberEnds(order[n - 1]);
    if n > 1 {
      MembersEnds(order, n - 1);
    }
  }


  /** A class text starts with `[` exactly when it is bracketed, whatever members it holds. */
  lemma TextBrackets(c: Census, m: string)
    requires m == [] || m[0] == '\\'
    ensures var s := ClassHead(c) + m + ClassTail(c);
      (s != [] && s[0] == '[') <==> Bracketed(c)
  {
    var s := ClassHead(c) + m + ClassTail(c);
    if Bracketed(c) {
      assert s[0] == ClassHead(c)[0];
    } else if m != [] {
      assert s[0] == m[0];
    } else if s != [] {
      assert s == ClassTail(c);
    }
  }

  /** A class text ends with `+` exactly when it repeats, whatever members it holds. */
  lemma TextPlus(c: Census, m: string)
    requires m == [] || m[|m| - 1] != '+'
    ensures var s := ClassHead(c) + m + ClassTail(c);
      (s != [] && s[|s| - 1] == '+') <==> c.repeat || c.alpha || c.digit
  {
    var s := ClassHead(c) + m + ClassTail(c);
    if c.repeat || c.alpha || c.digit {
      assert s[|s| - 1] == ClassTail(c)[|ClassTail(c)| - 1];
    } else if Bracketed(c) {
      assert s[|s| - 1] == ClassTail(c)[|ClassTail(c)| - 1];
    } else {
      assert s == m;
    }
  }

  /** The members text of a walk starts with a backslash and does not end with `+`. */
  lemma MembersShape(order: seq<Byte>)
    ensures var m := Members(order); m == [] || (m[0] == '\\' && m[|m| - 1] != '+')
  {
    if order != [] {
      MembersEnds(order, |order|);
    }
  }

  /** The generalization is bracketed exactly when letters, digits or two or more distinct other bytes occur. */
  lemma GeneralizedBrackets(data: seq<Byte>)
    ensures var s := Generalized(data);
      (s != [] && s[0] == '[') <==> HasAlpha(data) || HasDigit(data) || |OthersOf(data)| > 1
  {
    ClassifyMeaning(data);
    var c := Classify(data);
    MembersShape(Ascending(c.others));
    TextBrackets(c, Members(Ascending(c.others)));
  }

  /** The generalization ends in `+` exactly when letters or digits occur or some other byte repeats. */
  lemma GeneralizedPlus(data: seq<Byte>)
    ensures var s := Generalized(data);
      (s != [] && s[|s| - 1] == '+') <==> HasAlpha(data) || HasDigit(data) || Repeats(data)
  {
    ClassifyMeaning(data);
    var c := Classify(data);
    MembersShape(Ascending(c.others));
    TextPlus(c, Members(Ascending(c.others)));
  }

  // ----- generalize -----

  /** `String.getBytes()`, one byte per character (the low eight bits). */
  function GetBytes(s: string): (r: seq<Byte>)
    ensures |r| == |s| && forall k :: 0 <= k < |s| ==> r[k] == LowByte(s[k])
  {
    if s == [] then [] else [LowByte(s[0])] + GetBytes(s[1..])
  }

  /**
   * `p[i..]` with every quoted span `\Q..\E` that `find` reports replaced by
   * `rewrite` of the bytes between the tags; the text between spans is kept.
   */
  function RewriteSpans(p: string, i: nat, rewrite: seq<Byte> -> string): string
    requires i <= |p|
    decreases |p| - i
  {
    var f := FindQuote(p, i);
    if f.None? then p[i..]
    else p[i..f.value.0] + rewrite(GetBytes(p[f.value.0 + 2..f.value.1 - 2])) + RewriteSpans(p, f.value.1, rewrite)
  }

  /** The pattern `generalize` writes: every quoted span replaced by the generalization of its bytes. */
  function GeneralizedPattern(p: string): string
  {
    RewriteSpans(p, 0, Generalized)
  }

  /** Where `find` reports a span, the rewrite is the gap, the rewritten span and the rest. */
  lemma RewriteUnfold(p: string, i: nat, start: nat, end: nat, rewrite: seq<Byte> -> string)
    requires i <= |p| && FindQuote(p, i) == Some((start, end))
    ensures RewriteSpans(p, i, rewrite) == p[i..start] + rewrite(GetBytes(p[start + 2..end - 2])) + RewriteSpans(p, end, rewrite)
  {
  }

  /** One round of the loop of `generalize`: the gap and the rewritten span move to the output. */
  lemma RewriteStep(p: string, i: nat, start: nat, end: nat, rewrite: seq<Byte> -> string, before: string, after: string)
    requires i <= |p| && FindQuote(p, i) == Some((start, end))
    requires after == before + p[i..start] + rewrite(GetBytes(p[start + 2..end - 2]))
    ensures after + RewriteSpans(p, end, rewrite) == before + RewriteSpans(p, i, rewrite)
  {
    RewriteUnfold(p, i, start, end, rewrite);
    Regroup(before, p[i..start], rewrite(GetBytes(p[start + 2..end - 2])), RewriteSpans(p, end, rewrite));
  }

  /** Where `find` reports nothing, the rest of the pattern is kept. */
  lemma RewriteRest(p: string, i: nat, rewrite: seq<Byte> -> string)
    requires i <= |p| && FindQuote(p, i).None?
    ensures RewriteSpans(p, i, rewrite) == p[i..]
  {
  }

  /**
   * `generalize()`: rewrites the pattern and keeps the new text only when it
   * differs; the result says whether it did.
   */
  method Generalize(r: RegEx) returns (g: RegEx, changed: bool)
    ensures changed <==> GeneralizedPattern(r.pattern) != r.pattern
    ensures g == if changed then r.(pattern := GeneralizedPattern(r.pattern)) else r
  {
    var new_regex := GeneralizePattern(r.pattern);
    if new_regex != r.pattern {
      g, changed := r.(pattern := new_regex), true;
    } else {
      g, changed := r, false;
    }
  }

  /**
   * The loop of `generalize()`: copies the text outside quoted spans and
   * replaces each span by the generalization of its bytes.
   */
  method GeneralizePattern(old_pattern: string) returns (new_regex: string)
    ensures new_regex == GeneralizedPattern(old_pattern)
  {
    new_regex := "";
    var i := 0;
    var found := FindQuote(old_pattern, 0);
    while found.Some?
      invariant i <= |old_pattern|
      invariant found == FindQuote(old_pattern, i)
      invariant new_regex + RewriteSpans(old_pattern, i, Generalized) == RewriteSpans(old_pattern, 0, Generalized)
      decreases |old_pattern| - i
    {
      var start := found.value.0;
      var end := found.value.1;
      ghost var before := new_regex;
      new_regex := AppendSpan(new_regex, old_pattern, i, start, end);
      RewriteStep(old_pattern, i, start, end, Generalized, before, new_regex);
      i := end;
      found := FindQuote(old_pattern, i);
    }
    ghost var before := new_regex;
    if i != |old_pattern| {
      new_regex := new_regex + old_pattern[i..|old_pattern|];
    }
    assert new_regex == before + old_pattern[i..];
    RewriteRest(old_pattern, i, Generalized);
  }

  /** The body of the loop of `generalize()`: the gap before the span, then the span's generalization. */
  method AppendSpan(acc: string, p: string, i: nat, start: nat, end: nat) returns (r: string)
    requires i <= start && start + 4 <= end <= |p|
    ensures r == acc + p[i..start] + Generalized(GetBytes(p[start + 2..end - 2]))
  {
    var s := p[start + 2..end - 2];
    s := GetGeneralizedRegEx(GetBytes(s));
    r := acc;
    if i != start {
      r := r + p[i..start];
    } else {
      assert p[i..start] == [];
    }
    r := r + s;
  }

  /** A pattern without a quoted span does not change. */
  lemma GeneralizeNoQuote(p: string)
    requires FindQuote(p, 0).None?
    ensures GeneralizedPattern(p) == p
  {
    RewriteRest(p, 0, Generalized);
  }

  /** When no `\Q` is open, `quote` of printable data is the data between one `\Q` and one `\E`. */
  lemma {:induction false} QuotePrintable(d: string)
    requires forall k :: 0 <= k < |d| ==> Literal(d[k], true)
    ensures QuoteFrom(d, true, true) == d + CLOSE
    decreases |d|
  {
    if d != [] {
      QuoteUnfold(d, true, true);
      QuotePrintable(d[1..]);
      assert d == [d[0]] + d[1..];
    }
  }

  /** The symbol built from non-empty printable data is that data between one `\Q` and one `\E`. */
  lemma DataPattern(d: string)
    requires d != []
    requires forall k :: 0 <= k < |d| ==> Literal(d[k], true)
    ensures OfData(d).pattern == OPEN + d + CLOSE
  {
    QuoteUnfold(d, false, true);
    QuotePrintable(d[1..]);
    assert OfData(d).pattern == OPEN + [d[0]] + (d[1..] + CLOSE);
    assert d == [d[0]] + d[1..];
  }

  /** In `\Q d \E`, with no tag inside `d`, `find` reports the whole text as the one span. */
  lemma WholeQuote(d: string)
    requires NoQuoteTags(d)
    ensures FindQuote(OPEN + d + CLOSE, 0) == Some((0 as nat, |d| + 4 as nat))
    ensures FindQuote(OPEN + d + CLOSE, |d| + 4).None?
  {
    var p := OPEN + d + CLOSE;
    var n: nat := |d|;
    assert TagAt(p, 'Q', 0);
    assert FindTag(p, 'Q', 0) == Some(0);
    assert TagAt(p, 'E', n + 2);
    forall q | 2 <= q < n + 2
      ensures !TagAt(p, 'E', q)
    {
      assert p[q] == d[q - 2];
      if q + 1 < n + 2 {
        assert p[q + 1] == d[q - 1];
      }
    }
    FindTagAt(p, 'E', 2, n + 2);
  }

  /** A text that is one quoted span is rewritten to the rewrite of the span's bytes. */
  lemma RewriteWhole(d: string, rewrite: seq<Byte> -> string)
    requires NoQuoteTags(d)
    ensures RewriteSpans(OPEN + d + CLOSE, 0, rewrite) == rewrite(GetBytes(d))
  {
    var p := OPEN + d + CLOSE;
    var n := |d|;
    WholeQuote(d);
    RewriteUnfold(p, 0, 0, n + 4, rewrite);
    RewriteRest(p, n + 4, rewrite);
    assert p[2..n + 2] == d;
    assert p[0..0] == [] && p[n + 4..] == [];
  }

  /**
   * The symbol built from non-empty printable data holds one quoted span, so
   * `generalize` turns it into the generalization of the data's bytes.
   */
  lemma GeneralizeQuotedData(d: string)
    requires d != [] && NoQuoteTags(d)
    requires forall k :: 0 <= k < |d| ==> Literal(d[k], true)
    ensures GeneralizedPattern(OfData(d).pattern) == Generalized(GetBytes(d))
  {
    DataPattern(d);
    RewriteWhole(d, Generalized);
  }

  // ----- generalize_BINARY -----

  /**
   * `generalize_BINARY()`: with a known length n > 0 and not yet generalized,
   * the pattern becomes `.{n}+` and the result is true; otherwise nothing changes.
   */
  function GeneralizeBinary(r: RegEx): (res: (RegEx, bool))
    ensures res.1 <==> r.lengthBinary > 0 && !r.generalizedBinary
    ensures res.1 ==> res.0 == RegEx(".{" + Decimal(r.lengthBinary) + "}+", true, r.lengthBinary)
    ensures !res.1 ==> res.0 == r
  {
    if r.lengthBinary > 0 && !r.generalizedBinary then
      (RegEx(".{" + Decimal(r.lengthBinary) + "}+", true, r.lengthBinary), true)
    else (r, false)
  }

  /** `generalize_BINARY` succeeds at most once: after any call, a further call returns false. */
  lemma GeneralizeBinaryOnce(r: RegEx)
    ensures !GeneralizeBinary(GeneralizeBinary(r).0).1
    ensures GeneralizeBinary(GeneralizeBinary(r).0).0 == GeneralizeBinary(r).0
  {
  }

  // ----- concat, toString, equals -----

  /** `concat(r0, r1)`: the two pattern texts joined with every `\E\Q` deleted. */
  function Concat(r0: RegEx, r1: RegEx): RegEx
  {
    OfPattern(DeleteJoins(r0.pattern + r1.pattern))
  }

  /** Concatenating the symbols of two pieces of data quotes the joined data. */
  lemma ConcatOfData(a: string, b: string)
    requires NoQuoteTags(a + b)
    ensures Concat(OfData(a), OfData(b)).pattern == OfData(a + b).pattern
  {
    ConcatQuoted(a, b);
  }

  /** `concat` folded over a list of symbols from the left, starting with `new RegEx("")`. */
  function ConcatAll(rs: seq<RegEx>): RegEx
  {
    if rs == [] then OfPattern("") else Concat(ConcatAll(rs[..|rs| - 1]), rs[|rs| - 1])
  }

  /** Folding `concat` over data symbols quotes the joined data. */
  lemma {:induction false} ConcatAllOfData(rs: seq<RegEx>, ds: seq<string>)
    requires |rs| == |ds| && forall i :: 0 <= i < |rs| ==> rs[i] == OfData(ds[i])
    requires NoQuoteTags(Flatten(ds))
    ensures ConcatAll(rs).pattern == Quoted(Flatten(ds), true)
  {
    if rs != [] {
      var n := |rs| - 1;
      assert Flatten(ds) == Flatten(ds[..n]) + ds[n];
      NoQuoteTagsSplit(Flatten(ds[..n]), ds[n]);
      ConcatAllOfData(rs[..n], ds[..n]);
      ConcatQuoted(Flatten(ds[..n]), ds[n]);
    }
  }

  /** `toString()`: the pattern with every `\E` and `\Q` deleted. */
  function ToString(r: RegEx): string
  {
    Unquote(r.pattern)
  }

  /** The printed form of a data symbol is the data with non-printable characters escaped. */
  lemma ToStringOfData(d: string)
    requires NoQuoteTags(d)
    ensures ToString(OfData(d)) == Plain(d)
  {
    UnquoteQuote(d, false);
  }

  /** For data read from a byte view, the printed symbol is the view's own `toString`. */
  lemma ToStringOfBytes(bytes: seq<Byte>)
    requires NoQuoteTags(Chars(bytes))
    ensures ToString(OfData(Chars(bytes))) == Render(bytes)
  {
    ToStringOfData(Chars(bytes));
    PlainChars(bytes);
  }

  /** `equals`: the same pattern text. */
  predicate Equals(r0: RegEx, r1: RegEx)
  {
    r0.pattern == r1.pattern
  }

  /** `hashCode()`: the hash of the pattern text. */
  function HashCode(r: RegEx): Int32
  {
    StringHash(r.pattern)
  }

  /** Equal symbols hash equally; the binary-mode fields take no part. */
  lemma EqualsHashCode(r0: RegEx, r1: RegEx)
    requires Equals(r0, r1)
    ensures HashCode(r0) == HashCode(r1)
    ensures Equals(r0.(generalizedBinary := !r0.generalizedBinary), r1)
  {
  }

  // ----- tokenize -----

  /** The symbols of a list of data pieces. */
  function Symbols(pieces: seq<string>): seq<RegEx>
  {
    MapSeq(OfData, pieces)
  }

  /** One round of the loop of `tokenize`: the images of the gap and of the match move to the output. */
  lemma TokenizeStep<B>(m: string, i: nat, s: nat, e: nat, f: string -> B, before: seq<B>, after: seq<B>)
    requires i <= |m| && FindToken(SpaceOrCrlf, m, i) == Some((s, e))
    requires after == before + MapSeq(f, Head(m, i, s, e))
    ensures after + MapSeq(f, Split(SpaceOrCrlf, m, e)) == before + MapSeq(f, Split(SpaceOrCrlf, m, i))
  {
    var head, rest := MapSeq(f, Head(m, i, s, e)), MapSeq(f, Split(SpaceOrCrlf, m, e));
    assert MapSeq(f, Split(SpaceOrCrlf, m, i)) == head + rest by {
      SplitMatch(SpaceOrCrlf, m, i, s, e);
      MapAppend(f, Head(m, i, s, e), Split(SpaceOrCrlf, m, e));
    }
    Assoc(before, head, rest);
  }

  /** The body of the loop of `tokenize`: a symbol for the gap when it is not empty, then one for the match. */
  method AppendHead(tokens: seq<RegEx>, m: string, i: nat, s: nat, e: nat) returns (r: seq<RegEx>)
    requires i <= s < e <= |m|
    ensures r == tokens + MapSeq(OfData, Head(m, i, s, e))
  {
    r := tokens;
    if i < s {
      r := r + [OfData(m[i..s])];
    }
    r := r + [OfData(m[s..e])];
  }

  /**
   * `tokenize(message, offset)`: the symbols of the pieces the space/CRLF
   * matcher cuts `message[offset..]` into; an offset outside the message
   * makes `find` throw.
   */
  method Tokenize(message: string, offset: int) returns (r: Result<seq<RegEx>>)
    ensures r.Err? <==> !(0 <= offset <= |message|)
    ensures r.Err? ==> r.error == IndexOutOfBounds
    ensures r.Ok? ==> r.value == Symbols(Split(SpaceOrCrlf, message, offset))
  {
    if !(0 <= offset <= |message|) {
      return Err(IndexOutOfBounds);
    }
    var tokens := [];
    var i: nat := offset;
    var found := FindToken(SpaceOrCrlf, message, i);
    while found.Some?
      invariant offset <= i <= |message|
      invariant found == FindToken(SpaceOrCrlf, message, i)
      invariant tokens + MapSeq(OfData, Split(SpaceOrCrlf, message, i)) == MapSeq(OfData, Split(SpaceOrCrlf, message, offset))
      decreases |message| - i
    {
      var start := found.value.0;
      var end := found.value.1;
      ghost var before := tokens;
      tokens := AppendHead(tokens, message, i, start, end);
      TokenizeStep(message, i, start, end, OfData, before, tokens);
      i := end;
      found := FindToken(SpaceOrCrlf, message, i);
    }
    ghost var before := tokens;
    if i != |message| {
      tokens := tokens + [OfData(message[i..|message|])];
    }
    TokenizeRest(message, i, before, tokens);
    return Ok(tokens);
  }

  /** After the last match, the rest of the message, when not empty, is the last symbol. */
  lemma TokenizeRest(m: string, i: nat, before: seq<RegEx>, after: seq<RegEx>)
    requires i <= |m| && FindToken(SpaceOrCrlf, m, i).None?
    requires after == before + (if i != |m| then [OfData(m[i..|m|])] else [])
    ensures after == before + MapSeq(OfData, Split(SpaceOrCrlf, m, i))
  {
    assert m[i..|m|] == m[i..];
  }

  /**
   * The tokens' data: joined in order they give `message[offset..]`, none is
   * empty, and each is a separator `" "` or `"\r\n"` or holds no separator.
   */
  lemma TokenizePieces(message: string, offset: nat)
    requires offset <= |message|
    ensures Flatten(Split(SpaceOrCrlf, message, offset)) == message[offset..]
    ensures forall k :: 0 <= k < |Split(SpaceOrCrlf, message, offset)| ==>
      var p := Split(SpaceOrCrlf, message, offset)[k];
      p != [] && (p == " " || p == "\r\n" || SeparatorFree(p))
  {
    SplitTiles(SpaceOrCrlf, message, offset);
    SplitNonEmpty(SpaceOrCrlf, message, offset);
    SplitSeparators(message, offset);
  }
}
