// The pattern-token algebra of src/automata/RegExOperations.java: a pattern
// text is cut into tokens (plain text, quoted spans, `\xHH` escapes, bracket
// classes and the `\S+`/`\w+` classes), a bracket class is a small record of
// flags and a set of bytes, and two tokens merge into one bracket class.
module RegExOperations {
  import opened Wrappers
  import opened JavaTypes
  import opened JavaStrings
  import opened Traces
  import opened PatternText
  import RegExSymbols

  // ----- the bracket class as a value -----

  /**
   * The fields of a `BracketedExpression`: whether it stands for any
   * non-whitespace character, whether it holds the letters and the digits, the
   * set of other bytes, and whether it repeats.
   */
  datatype Flags = Flags(anyNonWhitespace: bool, alpha: bool, digit: bool, others: set<Byte>, many: bool)

  /** The fields of `new BracketedExpression()`. */
  const NoFlags: Flags := Flags(false, false, false, {}, false)

  /** `addByte(b)`: a letter sets `alpha`, a digit sets `digit`, any other byte joins the set. */
  function Added(f: Flags, b: Byte): Flags
  {
    if IsAlpha(b) then f.(alpha := true)
    else if IsDigit(b) then f.(digit := true)
    else f.(others := f.others + {b})
  }

  /** `addByte` for each byte of `data` in turn. */
  function AddedAll(f: Flags, data: seq<Byte>): Flags
  {
    if data == [] then f else Added(AddedAll(f, data[..|data| - 1]), data[|data| - 1])
  }

  /** Adding bytes sets `alpha` iff a letter comes, `digit` iff a digit comes, and collects the other bytes. */
  lemma {:induction false} AddedAllMeaning(f: Flags, data: seq<Byte>)
    ensures AddedAll(f, data) == f.(
      alpha := f.alpha || RegExSymbols.HasAlpha(data),
      digit := f.digit || RegExSymbols.HasDigit(data),
      others := f.others + RegExSymbols.OthersOf(data))
  {
    if data == [] {
      assert RegExSymbols.OthersOf(data) == {};
    } else {
      var init, b := data[..|data| - 1], data[|data| - 1];
      assert data == init + [b];
      AddedAllMeaning(f, init);
      RegExSymbols.HasSnoc(init, b);
      RegExSymbols.OthersSnoc(init, b);
    }
  }

  /**
   * `isElligableForNonWhitespaceChars`: repeated letters along with other
   * bytes, decided by the first other byte the set yields: it must be
   * printable and not a space. Which byte a `HashSet` yields first depends
   * on its bucket order; the model decides on the least byte instead, a
   * choice of its own that can differ from the original's.
   */
  predicate Eligible(f: Flags)
  {
    f.many && f.alpha && f.others != {} && var b := RegExSymbols.Least(f.others); b != 32 && IsPrintable(b)
  }

  /** The static `generalize(data)`: the bytes added, `many` for more than one byte, then the eligibility test. */
  function GeneralizeData(data: seq<Byte>): Flags
  {
    var f := AddedAll(NoFlags, data).(many := |data| > 1);
    f.(anyNonWhitespace := Eligible(f))
  }

  /**
   * The class built from data holds the letters iff a letter occurs, the
   * digits iff a digit occurs, exactly the other bytes that occur, and
   * repeats iff there is more than one byte.
   */
  lemma GeneralizeDataMeaning(data: seq<Byte>)
    ensures var f := GeneralizeData(data);
      && (f.alpha <==> RegExSymbols.HasAlpha(data))
      && (f.digit <==> RegExSymbols.HasDigit(data))
      && f.others == RegExSymbols.OthersOf(data)
      && (f.many <==> |data| > 1)
      && (f.anyNonWhitespace <==> Eligible(f))
  {
    AddedAllMeaning(NoFlags, data);
  }

  /** The instance `generalize()`: `anyNonWhitespace` is set when the class is eligible. */
  function Generalized(f: Flags): Flags
  {
    f.(anyNonWhitespace := f.anyNonWhitespace || Eligible(f))
  }

  /** The static `merge` of two classes: every flag or-ed and the sets joined. */
  function Join(f: Flags, g: Flags): Flags
  {
    Flags(f.anyNonWhitespace || g.anyNonWhitespace, f.alpha || g.alpha, f.digit || g.digit, f.others + g.others, f.many || g.many)
  }

  /** Merging is commutative, associative and idempotent, and generalizing twice changes nothing more. */
  lemma JoinLattice(f: Flags, g: Flags, h: Flags)
    ensures Join(f, g) == Join(g, f)
    ensures Join(Join(f, g), h) == Join(f, Join(g, h))
    ensures Join(f, f) == f
    ensures Generalized(Generalized(f)) == Generalized(f)
  {
  }

  // ----- toString -----

  /** What one other byte contributes inside the brackets. */
  function OtherMember(b: Byte): string
  {
    if IsPrintable(b) then
      if IsAlpha(b) || IsDigit(b) then [b as char] else OPEN + [b as char] + CLOSE
    else Escape(b)
  }

  /** The members of the other bytes in the order they are walked. */
  function OthersText(order: seq<Byte>): string
  {
    if order == [] then "" else OthersText(order[..|order| - 1]) + OtherMember(order[|order| - 1])
  }

  /**
   * `toString()`: `\S+` for any non-whitespace character, `\w+` for repeated
   * letters and digits alone, and otherwise the bracket class with the
   * ranges, the other bytes in ascending order, and `+` when it repeats.
   */
  function FlagsText(f: Flags): string
  {
    if f.anyNonWhitespace then "\\S+"
    else if f.many && f.alpha && f.digit && f.others == {} then "\\w+"
    else
      "[" + (if f.alpha then "A-Za-z" else "") + (if f.digit then "0-9" else "")
      + OthersText(RegExSymbols.Ascending(f.others)) + "]" + (if f.many then "+" else "")
  }

  // ----- the character classes -----

  /** `\S+` or `\w+`: the texts the anchored pattern of `CharacterClassExpression` admits. */
  predicate ClassFull(t: string)
  {
    t == "\\S+" || t == "\\w+"
  }

  /**
   * `new CharacterClassExpression(text)` as written: the captured group is
   * `w+` or `S+`, which never equals `"w"`, so both classes take the `\S`
   * branch.
   */
  function CharClassAsWritten(t: string): Flags
  {
    var group := if ClassFull(t) then t[1..] else "";
    if !ClassFull(t) then NoFlags
    else if group == "w" then Flags(false, true, true, {}, true)
    else Flags(true, true, true, {}, true)
  }

  /** As written, `\w+` is read as `\S+` and prints as `\S+`. */
  lemma CharClassAsWrittenWord()
    ensures CharClassAsWritten("\\w+") == CharClassAsWritten("\\S+")
    ensures FlagsText(CharClassAsWritten("\\w+")) == "\\S+"
  {
    assert "\\w+"[1..] == "w+";
  }

  /** `new CharacterClassExpression(text)` comparing the class letter itself, as evidently intended. */
  function CharClass(t: string): Flags
  {
    if t == "\\w+" then Flags(false, true, true, {}, true)
    else if t == "\\S+" then Flags(true, true, true, {}, true)
    else NoFlags
  }

  /** Each class prints as the text it was read from. */
  lemma CharClassRoundTrip(t: string)
    requires ClassFull(t)
    ensures FlagsText(CharClass(t)) == t
  {
  }

  // ----- the bracket class as an object -----

  /** `BracketedExpression` (and `CharacterClassExpression`, which only sets its fields). */
  class BracketedExpression {
    var anyNonWhitespace: bool
    var alpha: bool
    var digit: bool
    var others: set<Byte>
    var many: bool

    /** The current fields as a value. */
    function Value(): Flags
      reads this
    {
      Flags(anyNonWhitespace, alpha, digit, others, many)
    }

    /** `new BracketedExpression()`: every flag clear and no other byte. */
    constructor ()
      ensures Value() == NoFlags
    {
      anyNonWhitespace, alpha, digit, others, many := false, false, false, {}, false;
    }

    /** `new CharacterClassExpression(text)`, reading the class letter as intended. */
    constructor OfClass(t: string)
      ensures Value() == CharClass(t)
    {
      anyNonWhitespace, alpha, digit, others, many := false, false, false, {}, false;
      if t == "\\w+" {
        alpha, digit, anyNonWhitespace, many := true, true, false, true;
      } else if t == "\\S+" {
        alpha, digit, anyNonWhitespace, many := true, true, true, true;
      }
    }

    /** `addByte(b)`. */
    method AddByte(b: Byte)
      modifies this
      ensures Value() == Added(old(Value()), b)
    {
      if IsAlpha(b) {
        alpha := true;
      } else if IsDigit(b) {
        digit := true;
      } else {
        others := others + {b};
      }
    }

    /** `generalize()`: the object itself, now standing for any non-whitespace character when eligible. */
    method Generalize() returns (r: BracketedExpression)
      modifies this
      ensures r == this && Value() == Generalized(old(Value()))
    {
      if !anyNonWhitespace && Eligible(Value()) {
        anyNonWhitespace := true;
      }
      return this;
    }

    /** `toString()`. */
    method ToString() returns (s: string)
      ensures s == FlagsText(Value())
    {
      s := WriteFlags(Value());
    }
  }

  /** The body of `toString()`, walking the other bytes in ascending order. */
  method WriteFlags(f: Flags) returns (s: string)
    ensures s == FlagsText(f)
  {
    if f.anyNonWhitespace {
      return "\\S+";
    }
    if f.many && f.alpha && f.digit && f.others == {} {
      return "\\w+";
    }
    var head := "[" + (if f.alpha then "A-Za-z" else "") + (if f.digit then "0-9" else "");
    var withMembers := AppendOthers(head, RegExSymbols.Ascending(f.others));
    s := withMembers + "]" + (if f.many then "+" else "");
  }

  /** The loop over the other bytes: each member appended in turn. */
  method AppendOthers(s0: string, order: seq<Byte>) returns (s: string)
    ensures s == s0 + OthersText(order)
  {
    s := s0;
    var k: nat := 0;
    while k < |order|
      invariant k <= |order|
      invariant s == s0 + OthersText(order[..k])
    {
      OthersTextSnoc(s0, order, k);
      s := s + OtherMember(order[k]);
      k := k + 1;
    }
    assert order[..k] == order;
  }

  /** One more member appended to the text so far. */
  lemma OthersTextSnoc(s0: string, order: seq<Byte>, k: nat)
    requires k < |order|
    ensures s0 + OthersText(order[..k + 1]) == s0 + OthersText(order[..k]) + OtherMember(order[k])
  {
    assert order[..k + 1][..k] == order[..k];
  }

  /** The static `generalize(data)`: a new class from the bytes of a plain, quoted or escaped token. */
  method GeneralizeBytes(data: seq<Byte>) returns (re: BracketedExpression)
    ensures fresh(re) && re.Value() == GeneralizeData(data)
  {
    re := new BracketedExpression();
    var i: nat := 0;
    while i < |data|
      invariant i <= |data|
      invariant re.Value() == AddedAll(NoFlags, data[..i])
    {
      assert data[..i + 1][..i] == data[..i];
      re.AddByte(data[i]);
      i := i + 1;
    }
    assert data[..i] == data;
    AddedAllMeaning(NoFlags, data);
    if |data| > 1 {
      re.many := true;
    }
    if Eligible(re.Value()) {
      re.anyNonWhitespace := true;
    }
  }

  /** The static `BracketedExpression.merge`: a new class joining the two. */
  method MergeBrackets(re0: BracketedExpression, re1: BracketedExpression) returns (merged: BracketedExpression)
    ensures fresh(merged) && merged.Value() == Join(re0.Value(), re1.Value())
  {
    merged := new BracketedExpression();
    merged.anyNonWhitespace := re0.anyNonWhitespace || re1.anyNonWhitespace;
    merged.alpha := re0.alpha || re1.alpha;
    merged.digit := re0.digit || re1.digit;
    merged.others := merged.others + re0.others;
    merged.others := merged.others + re1.others;
    merged.many := re0.many || re1.many;
  }

  // ----- the searches of the token patterns -----

  /** A digit `Character.digit(c, 16)` accepts. */
  predicate IsHex(c: char)
  {
    HexValue(c) >= 0
  }

  /** `\\x[0-9A-Fa-f]{2}` at `p`: a backslash, an `x` and two hexadecimal digits. */
  predicate EscapeAt(m: string, p: int)
  {
    0 <= p && p + 4 <= |m| && m[p] == '\\' && m[p + 1] == 'x' && IsHex(m[p + 2]) && IsHex(m[p + 3])
  }

  /** `find(i)` of the escape pattern: the first escape at or after `i`. */
  function FindEscape(m: string, i: nat): (r: Option<nat>)
    ensures r.Some? ==> i <= r.value && EscapeAt(m, r.value)
    ensures r.Some? ==> forall p :: i <= p < r.value ==> !EscapeAt(m, p)
    ensures r.None? ==> forall p :: i <= p ==> !EscapeAt(m, p)
    decreases |m| - i
  {
    if i + 4 > |m| then None
    else if EscapeAt(m, i) then Some(i)
    else FindEscape(m, i + 1)
  }

  /** `indexOf(c, i)`: the first `c` at or after `i`. */
  function FindChar(m: string, c: char, i: nat): (r: Option<nat>)
    ensures r.Some? ==> i <= r.value < |m| && m[r.value] == c
    ensures r.Some? ==> forall p :: i <= p < r.value ==> m[p] != c
    ensures r.None? ==> forall p :: i <= p < |m| ==> m[p] != c
    decreases |m| - i
  {
    if i >= |m| then None
    else if m[i] == c then Some(i)
    else FindChar(m, c, i + 1)
  }

  /**
   * The alternatives of the token pattern of `process`, tried at `p` in
   * order: a quoted span `\Q..\E` up to the first `\E`, an escape `\xHH`, a
   * bracket class `[..]` up to the first `]` with an optional `+`, and a
   * character class `\S+` or `\w+`; the end of the first that matches.
   */
  function OperandAt(m: string, p: nat): (r: Option<nat>)
    ensures r.Some? ==> p < r.value <= |m|
  {
    if TagAt(m, 'Q', p) && FindTag(m, 'E', p + 2).Some? then Some(FindTag(m, 'E', p + 2).value + 2)
    else if EscapeAt(m, p) then Some(p + 4)
    else if p < |m| && m[p] == '[' && FindChar(m, ']', p + 1).Some? then
      var q := FindChar(m, ']', p + 1).value;
      Some(if q + 1 < |m| && m[q + 1] == '+' then q + 2 else q + 1)
    else if p + 3 <= |m| && m[p] == '\\' && (m[p + 1] == 'S' || m[p + 1] == 'w') && m[p + 2] == '+' then Some(p + 3)
    else None
  }

  /** `find()` of the token pattern: the first position at or after `i` where an alternative matches, with its end. */
  function FindOperand(m: string, i: nat): (r: Option<(nat, nat)>)
    requires i <= |m|
    ensures r.Some? ==> i <= r.value.0 < r.value.1 <= |m| && OperandAt(m, r.value.0) == Some(r.value.1)
    ensures r.Some? ==> forall p :: i <= p < r.value.0 ==> OperandAt(m, p).None?
    ensures r.None? ==> forall p :: i <= p <= |m| ==> OperandAt(m, p).None?
    decreases |m| - i
  {
    if i == |m| then None
    else
      match OperandAt(m, i)
      case Some(e) => Some((i, e))
      case None => FindOperand(m, i + 1)
  }

  // ----- the anchored patterns, which classify a matched text -----

  /** `^\\Q(.*?)\\E$`: the whole text is one quoted span. */
  predicate QuotedFull(t: string)
  {
    |t| >= 4 && TagAt(t, 'Q', 0) && TagAt(t, 'E', |t| - 2)
  }

  /** `^\[(.*?)\]([+]{0,1})$`: the whole text is a bracket class. */
  predicate BracketFull(t: string)
  {
    |t| >= 2 && t[0] == '[' && (t[|t| - 1] == ']' || (|t| >= 3 && t[|t| - 2] == ']' && t[|t| - 1] == '+'))
  }

  /** `^\\x[0-9A-Fa-f]{2}$`: the whole text is one escape. */
  predicate EscapedFull(t: string)
  {
    |t| == 4 && EscapeAt(t, 0)
  }

  /** The token kinds of `process`, in the order it tries them. */
  datatype Kind = QuotedKind | BracketKind | ClassKind | EscapedKind | PlainKind

  /** How `process` classifies a matched text: quoted, bracketed, character class, escape, or plain. */
  function KindOf(t: string): Kind
  {
    if QuotedFull(t) then QuotedKind
    else if BracketFull(t) then BracketKind
    else if ClassFull(t) then ClassKind
    else if EscapedFull(t) then EscapedKind
    else PlainKind
  }

  /** Every text the token pattern matches is classified as one of the four kinds, never as plain text. */
  lemma MatchClassified(m: string, p: nat, e: nat)
    requires OperandAt(m, p) == Some(e)
    ensures KindOf(m[p..e]) != PlainKind
  {
    var t := m[p..e];
    if TagAt(m, 'Q', p) && FindTag(m, 'E', p + 2).Some? {
      assert QuotedFull(t);
    } else if EscapeAt(m, p) {
      assert EscapedFull(t);
    } else if p < |m| && m[p] == '[' && FindChar(m, ']', p + 1).Some? {
      assert BracketFull(t);
    } else {
      assert ClassFull(t) by {
        assert t == [m[p], m[p + 1], m[p + 2]];
      }
    }
  }

  // ----- the quoted and escaped tokens -----

  /** `new QuotedExpression(text).data`: the bytes between `\Q` and `\E`, and none when the text is not one span. */
  function QuotedData(t: string): seq<Byte>
  {
    if QuotedFull(t) then RegExSymbols.GetBytes(t[2..|t| - 2]) else []
  }

  /** The value of a string of hexadecimal digits, most significant first. */
  function HexNumber(s: string): int
  {
    if s == [] then 0 else HexNumber(s[..|s| - 1]) * 16 + HexValue(s[|s| - 1])
  }

  /** Every character is a hexadecimal digit. */
  predicate AllHex(s: string)
  {
    forall k :: 0 <= k < |s| ==> IsHex(s[k])
  }

  /** `Integer.parseInt(s, 16)`: an optional sign, at least one hexadecimal digit, and a value that fits an `int`. */
  function ParseHex(s: string): Result<Int32>
  {
    var signed := |s| > 0 && (s[0] == '-' || s[0] == '+');
    var digits := if signed then s[1..] else s;
    if digits == [] || !AllHex(digits) then Err(NumberFormat)
    else
      var v := if signed && s[0] == '-' then -HexNumber(digits) else HexNumber(digits);
      if -0x8000_0000 <= v < 0x8000_0000 then Ok(v) else Err(NumberFormat)
  }

  /** `new EscapedChar(text).data[0]`: the number after the first two characters, cast to a byte. */
  function EscapedCharOf(t: string): Result<Byte>
  {
    if |t| < 2 then Err(StringIndexOutOfBounds)
    else
      match ParseHex(t[2..])
      case Ok(v) => Ok(CastByte(v))
      case Err(e) => Err(e)
  }

  /** The byte an escape stands for. */
  function EscapedByte(t: string): Byte
    requires EscapeAt(t, 0)
  {
    CastByte(HexValue(t[2]) * 16 + HexValue(t[3]))
  }

  /** On an escape the constructor reads the byte the escape stands for. */
  lemma EscapedCharOfEscape(t: string)
    requires EscapedFull(t)
    ensures EscapedCharOf(t) == Ok(EscapedByte(t))
  {
    var d := t[2..];
    assert d == [t[2], t[3]] && d[..|d| - 1] == [t[2]];
    assert HexNumber([t[2]]) == HexValue(t[2]) by {
      assert [t[2]][..0] == [];
    }
    assert HexNumber(d) == HexValue(t[2]) * 16 + HexValue(t[3]);
  }

  /** `new EscapedChar(EscapedChar.escape(b))` holds `b`, for each of the 256 bytes. */
  lemma EscapedRoundTrip(b: Byte)
    ensures EscapedCharOf(Escape(b)) == Ok(b)
  {
    var t := Escape(b);
    assert EscapedFull(t);
    EscapedCharOfEscape(t);
    assert CastByte(Unsigned(b)) == b;
  }

  /** The escape of an upper-case escape's byte is that escape: `toString()` gives back the text. */
  lemma EscapedTextRoundTrip(t: string)
    requires EscapedFull(t) && IsUpperHex(t[2]) && IsUpperHex(t[3])
    ensures Escape(EscapedByte(t)) == t
  {
    var b := EscapedByte(t);
    UnsignedCastByte(HexValue(t[2]) * 16 + HexValue(t[3]));
    var e := Escape(b);
    UpperHexDigits(e[2], e[3], t[2], t[3]);
    SameEscapeText(e, t);
  }

  /** A value of one unsigned byte survives the cast to a signed byte and back. */
  lemma UnsignedCastByte(u: int)
    requires 0 <= u < 256
    ensures Unsigned(CastByte(u)) == u
  {
  }

  /** Two four-character texts that start with `\x` and agree on the digits are equal. */
  lemma SameEscapeText(e: string, t: string)
    requires |e| == 4 && |t| == 4 && e[..2] == "\\x" && t[0] == '\\' && t[1] == 'x'
    requires e[2] == t[2] && e[3] == t[3]
    ensures e == t
  {
    assert e[0] == '\\' && e[1] == 'x';
  }

  /** Two upper-case digit pairs with the same value are the same digits. */
  lemma UpperHexDigits(a: char, b: char, c: char, d: char)
    requires IsUpperHex(a) && IsUpperHex(b) && IsUpperHex(c) && IsUpperHex(d)
    requires HexValue(a) * 16 + HexValue(b) == HexValue(c) * 16 + HexValue(d)
    ensures a == c && b == d
  {
  }

  // ----- hasRange and the constructor of a bracket class -----

  /** `indexOf(pat)` from `k`: the first occurrence at or after `k`. */
  function IndexOf(s: string, pat: string, k: nat): (r: Option<nat>)
    ensures r.Some? ==> k <= r.value && OccursAt(s, pat, r.value)
    ensures r.Some? ==> forall p :: k <= p < r.value ==> !OccursAt(s, pat, p)
    ensures r.None? ==> forall p :: k <= p ==> !OccursAt(s, pat, p)
    decreases |s| - k
  {
    if k + |pat| > |s| then None
    else if OccursAt(s, pat, k) then Some(k)
    else IndexOf(s, pat, k + 1)
  }

  /**
   * `hasRange(buffer, range)` as written: when the range occurs, at `f`,
   * `replace(f, range.length(), "")` deletes from `f` up to the index
   * `range.length()`, which throws once `f` is past that index.
   */
  function HasRange(buf: string, range: string): (r: Result<(bool, string)>)
    ensures r.Err? ==> r.error == StringIndexOutOfBounds
  {
    match IndexOf(buf, range, 0)
    case None => Ok((false, buf))
    case Some(f) => if f > |range| then Err(StringIndexOutOfBounds) else Ok((true, buf[..f] + buf[|range|..]))
  }

  /** A range at the start is removed; anywhere else the wrong characters go, or the call throws. */
  lemma HasRangeCases(rest: string)
    ensures HasRange("A-Z" + rest, "A-Z") == Ok((true, rest))
    ensures HasRange("xA-Z", "A-Z") == Ok((true, "xZ"))
    ensures HasRange("abcdA-Z", "A-Z") == Err(StringIndexOutOfBounds)
  {
    assert OccursAt("A-Z" + rest, "A-Z", 0) by {
      assert ("A-Z" + rest)[..3] == "A-Z";
    }
    assert ("A-Z" + rest)[..0] + ("A-Z" + rest)[3..] == rest;
    assert !OccursAt("xA-Z", "A-Z", 0) by {
      assert "xA-Z"[0..3][0] != "A-Z"[0];
    }
    assert OccursAt("xA-Z", "A-Z", 1) by {
      assert "xA-Z"[1..4] == "A-Z";
    }
    assert "xA-Z"[..1] + "xA-Z"[3..] == "xZ";
    var t := "abcdA-Z";
    forall p | 0 <= p < 4
      ensures !OccursAt(t, "A-Z", p)
    {
      assert t[p..p + 3][0] == t[p] != 'A';
    }
    assert OccursAt(t, "A-Z", 4) by {
      assert t[4..7] == "A-Z";
    }
    assert IndexOf("abcdA-Z", "A-Z", 0) == Some(4);
  }

  /**
   * `hasRange` as evidently intended: the first occurrence of the range is
   * cut out (`replace(first, first + range.length(), "")`), and the answer is
   * whether the range occurs at all.
   */
  function HasRangeIntended(buf: string, range: string): (r: (bool, string))
    ensures r.0 <==> exists p :: OccursAt(buf, range, p)
    ensures !r.0 ==> r.1 == buf
    ensures r.0 ==> exists f :: OccursAt(buf, range, f) && (forall p :: 0 <= p < f ==> !OccursAt(buf, range, p)) &&
                                f <= |r.1| && buf == r.1[..f] + range + r.1[f..]
  {
    match IndexOf(buf, range, 0)
    case None => (false, buf)
    case Some(f) =>
      var rest := buf[..f] + buf[f + |range|..];
      assert rest[..f] == buf[..f] && rest[f..] == buf[f + |range|..];
      assert buf == buf[..f] + buf[f..f + |range|] + buf[f + |range|..];
      (true, rest)
  }

  /** Where the range is the head of the text the two versions agree; elsewhere only the intended one removes the range. */
  lemma HasRangeIntendedCases(rest: string)
    ensures HasRangeIntended("A-Z" + rest, "A-Z") == (true, rest) && HasRange("A-Z" + rest, "A-Z") == Ok((true, rest))
    ensures HasRangeIntended("xA-Z", "A-Z") == (true, "x") && HasRange("xA-Z", "A-Z") == Ok((true, "xZ"))
    ensures HasRangeIntended("abcdA-Z", "A-Z") == (true, "abcd") && HasRange("abcdA-Z", "A-Z").Err?
  {
    HasRangeCases(rest);
    assert OccursAt("A-Z" + rest, "A-Z", 0) by {
      assert ("A-Z" + rest)[..3] == "A-Z";
    }
    assert ("A-Z" + rest)[..0] + ("A-Z" + rest)[3..] == rest;
    assert !OccursAt("xA-Z", "A-Z", 0) by {
      assert "xA-Z"[0..3][0] != "A-Z"[0];
    }
    assert OccursAt("xA-Z", "A-Z", 1) by {
      assert "xA-Z"[1..4] == "A-Z";
    }
    assert "xA-Z"[..1] + "xA-Z"[4..] == "x";
    var t := "abcdA-Z";
    forall p | 0 <= p < 4
      ensures !OccursAt(t, "A-Z", p)
    {
      assert t[p..p + 3][0] == t[p] != 'A';
    }
    assert OccursAt(t, "A-Z", 4) by {
      assert t[4..7] == "A-Z";
    }
    assert IndexOf(t, "A-Z", 0) == Some(4);
    assert t[..4] + t[7..] == "abcd";
  }

  /** The text outside the quoted spans of `c[i..]`, and the bytes inside them in order. */
  function StripQuoted(c: string, i: nat): (r: (string, seq<Byte>))
    requires i <= |c|
    decreases |c| - i
  {
    match FindQuote(c, i)
    case None => (c[i..], [])
    case Some((s, e)) =>
      var rest := StripQuoted(c, e);
      (c[i..s] + rest.0, QuotedData(c[s..e]) + rest.1)
  }

  /** The text outside the escapes of `c[i..]`, and the bytes the escapes stand for in order. */
  function StripEscaped(c: string, i: nat): (r: (string, seq<Byte>))
    requires i <= |c|
    decreases |c| - i
  {
    match FindEscape(c, i)
    case None => (c[i..], [])
    case Some(s) =>
      assert EscapeAt(c[s..s + 4], 0);
      var rest := StripEscaped(c, s + 4);
      (c[i..s] + rest.0, [EscapedByte(c[s..s + 4])] + rest.1)
  }

  /** The loop over the quoted spans at `i`: the text kept and the bytes added so far, followed by what is left, give the whole. */
  ghost predicate QuotedProgress(c: string, i: nat, remaining: string, got: seq<Byte>)
  {
    i <= |c| && remaining + StripQuoted(c, i).0 == StripQuoted(c, 0).0 && got + StripQuoted(c, i).1 == StripQuoted(c, 0).1
  }

  /** One turn of the loop over the quoted spans keeps it in step with the whole. */
  lemma QuotedStep(c: string, i: nat, s: nat, e: nat, remaining: string, got: seq<Byte>)
    requires QuotedProgress(c, i, remaining, got) && FindQuote(c, i) == Some((s, e))
    ensures i <= s < e <= |c|
    ensures QuotedProgress(c, e, if i != s then remaining + c[i..s] else remaining, got + QuotedData(c[s..e]))
  {
    Assoc(remaining, c[i..s], StripQuoted(c, e).0);
    Assoc(got, QuotedData(c[s..e]), StripQuoted(c, e).1);
    assert i == s ==> remaining + c[i..s] == remaining;
  }

  /** With no quoted span left, the rest of the text completes what was kept. */
  lemma QuotedDone(c: string, i: nat, remaining: string, got: seq<Byte>)
    requires QuotedProgress(c, i, remaining, got) && FindQuote(c, i).None?
    ensures (if i != |c| then remaining + c[i..] else remaining) == StripQuoted(c, 0).0
    ensures got == StripQuoted(c, 0).1
  {
    assert got + [] == got;
    assert i == |c| ==> remaining + c[i..] == remaining;
  }

  /** The loop over the escapes at `i`: the text kept and the bytes added so far, followed by what is left, give the whole. */
  ghost predicate EscapedProgress(c: string, i: nat, remaining: string, got: seq<Byte>)
  {
    i <= |c| && remaining + StripEscaped(c, i).0 == StripEscaped(c, 0).0 && got + StripEscaped(c, i).1 == StripEscaped(c, 0).1
  }

  /** One turn of the loop over the escapes keeps it in step with the whole. */
  lemma EscapedStep(c: string, i: nat, s: nat, remaining: string, got: seq<Byte>)
    requires EscapedProgress(c, i, remaining, got) && FindEscape(c, i) == Some(s)
    ensures s + 4 <= |c| && EscapeAt(c[s..s + 4], 0)
    ensures EscapedProgress(c, s + 4, if i != s then remaining + c[i..s] else remaining, got + [EscapedByte(c[s..s + 4])])
  {
    StripEscapedUnfold(c, i, s);
    Assoc(remaining, c[i..s], StripEscaped(c, s + 4).0);
    Assoc(got, [EscapedByte(c[s..s + 4])], StripEscaped(c, s + 4).1);
    assert i == s ==> remaining + c[i..s] == remaining;
  }

  /** With no escape left, the rest of the text completes what was kept. */
  lemma EscapedDone(c: string, i: nat, remaining: string, got: seq<Byte>)
    requires EscapedProgress(c, i, remaining, got) && FindEscape(c, i).None?
    ensures (if i != |c| then remaining + c[i..] else remaining) == StripEscaped(c, 0).0
    ensures got == StripEscaped(c, 0).1
  {
    assert got + [] == got;
    assert i == |c| ==> remaining + c[i..] == remaining;
  }

  /** One escape found: the text before it, then the rest after it. */
  lemma StripEscapedUnfold(c: string, i: nat, s: nat)
    requires i <= |c| && FindEscape(c, i) == Some(s)
    ensures s + 4 <= |c| && EscapeAt(c[s..s + 4], 0)
    ensures StripEscaped(c, i) == (c[i..s] + StripEscaped(c, s + 4).0, [EscapedByte(c[s..s + 4])] + StripEscaped(c, s + 4).1)
  {
    assert EscapeAt(c[s..s + 4], 0);
  }

  /** The text between the brackets of a bracket class and whether a `+` follows them. */
  function BracketParts(t: string): (string, bool)
    requires BracketFull(t)
  {
    if |t| >= 3 && t[|t| - 2] == ']' && t[|t| - 1] == '+' then (t[1..|t| - 2], true) else (t[1..|t| - 1], false)
  }

  /**
   * What the constructor does with the text between the brackets: the three
   * ranges taken out with `hasRange`, then the quoted spans, then the
   * escapes, and every byte found and every byte left over added.
   */
  function ContentFlags(content: string, plus: bool): Result<Flags>
  {
    match HasRange(content, "A-Z")
    case Err(e) => Err(e)
    case Ok(r1) =>
      match HasRange(r1.1, "a-z")
      case Err(e) => Err(e)
      case Ok(r2) =>
        match HasRange(r2.1, "0-9")
        case Err(e) => Err(e)
        case Ok(r3) =>
          var q := StripQuoted(r3.1, 0);
          var x := StripEscaped(q.0, 0);
          var f := AddedAll(Flags(false, r1.0 || r2.0, r3.0, {}, plus), q.1 + x.1 + RegExSymbols.GetBytes(x.0));
          Ok(f.(anyNonWhitespace := Eligible(f)))
  }

  /** `new BracketedExpression(text)`: no flag set unless the whole text is a bracket class. */
  function ParseFlags(t: string): Result<Flags>
  {
    if !BracketFull(t) then Ok(NoFlags)
    else ContentFlags(BracketParts(t).0, BracketParts(t).1)
  }

  /** Adding the bytes of `a + b` is adding those of `a`, then those of `b`. */
  lemma {:induction false} AddedAllAppend(f: Flags, a: seq<Byte>, b: seq<Byte>)
    ensures AddedAll(f, a + b) == AddedAll(AddedAll(f, a), b)
    decreases |b|
  {
    if b == [] {
      assert a + b == a;
    } else {
      assert (a + b)[..|a + b| - 1] == a + b[..|b| - 1];
      assert (a + b)[|a + b| - 1] == b[|b| - 1];
      AddedAllAppend(f, a, b[..|b| - 1]);
    }
  }

  /** `for (byte b : data) addByte(b)`. */
  method AddAll(re: BracketedExpression, data: seq<Byte>)
    modifies re
    ensures re.Value() == AddedAll(old(re.Value()), data)
  {
    ghost var base := re.Value();
    var k: nat := 0;
    while k < |data|
      invariant k <= |data|
      invariant re.Value() == AddedAll(base, data[..k])
    {
      assert data[..k + 1][..k] == data[..k];
      re.AddByte(data[k]);
      k := k + 1;
    }
    assert data[..k] == data;
  }

  /** The loop of the constructor over the quoted spans: the text around them kept, the bytes inside them added. */
  method TakeQuoted(re: BracketedExpression, c: string) returns (remaining: string)
    modifies re
    ensures remaining == StripQuoted(c, 0).0
    ensures re.Value() == AddedAll(old(re.Value()), StripQuoted(c, 0).1)
  {
    ghost var base := re.Value();
    ghost var got: seq<Byte> := [];
    remaining := "";
    var i: nat := 0;
    var found := FindQuote(c, 0);
    while found.Some?
      invariant found == FindQuote(c, i)
      invariant QuotedProgress(c, i, remaining, got)
      invariant re.Value() == AddedAll(base, got)
      decreases |c| - i
    {
      var start, end := found.value.0, found.value.1;
      QuotedStep(c, i, start, end, remaining, got);
      if i != start {
        remaining := remaining + c[i..start];
      }
      var data := QuotedData(c[start..end]);
      AddAll(re, data);
      AddedAllAppend(base, got, data);
      got := got + data;
      i := end;
      found := FindQuote(c, i);
    }
    QuotedDone(c, i, remaining, got);
    if i != |c| {
      remaining := remaining + c[i..];
    }
  }

  /** The loop of the constructor over the escapes: the text around them kept, the bytes they stand for added. */
  method TakeEscaped(re: BracketedExpression, c: string) returns (remaining: string)
    modifies re
    ensures remaining == StripEscaped(c, 0).0
    ensures re.Value() == AddedAll(old(re.Value()), StripEscaped(c, 0).1)
  {
    ghost var base := re.Value();
    ghost var got: seq<Byte> := [];
    remaining := "";
    var i: nat := 0;
    var found := FindEscape(c, 0);
    while found.Some?
      invariant found == FindEscape(c, i)
      invariant EscapedProgress(c, i, remaining, got)
      invariant re.Value() == AddedAll(base, got)
      decreases |c| - i
    {
      var start := found.value;
      var end := start + 4;
      EscapedStep(c, i, start, remaining, got);
      var b := EscapedByte(c[start..end]);
      if i != start {
        remaining := remaining + c[i..start];
      }
      re.AddByte(b);
      AddedAllAppend(base, got, [b]);
      got := got + [b];
      i := end;
      found := FindEscape(c, i);
    }
    EscapedDone(c, i, remaining, got);
    if i != |c| {
      remaining := remaining + c[i..];
    }
  }

  /** The steps of the constructor after the ranges: the quoted spans, then the escapes, then each byte left. */
  method AddContent(re: BracketedExpression, c: string)
    modifies re
    ensures var q := StripQuoted(c, 0); var x := StripEscaped(q.0, 0);
      re.Value() == AddedAll(old(re.Value()), q.1 + x.1 + RegExSymbols.GetBytes(x.0))
  {
    ghost var base := re.Value();
    ghost var q := StripQuoted(c, 0);
    var remaining := TakeQuoted(re, c);
    ghost var x := StripEscaped(remaining, 0);
    remaining := TakeEscaped(re, remaining);
    AddAll(re, RegExSymbols.GetBytes(remaining));
    AddedAllAppend(base, q.1, x.1);
    AddedAllAppend(base, q.1 + x.1, RegExSymbols.GetBytes(remaining));
  }

  /** `new BracketedExpression(text)`, which fails where `hasRange` throws. */
  method ParseBracket(t: string) returns (r: Result<BracketedExpression>)
    ensures ParseFlags(t).Err? ==> r == Err(ParseFlags(t).error)
    ensures ParseFlags(t).Ok? ==> r.Ok? && fresh(r.value) && r.value.Value() == ParseFlags(t).value
  {
    var re := new BracketedExpression();
    if !BracketFull(t) {
      return Ok(re);
    }
    var content, plus := BracketParts(t).0, BracketParts(t).1;
    re.many := plus;
    var r1 := HasRange(content, "A-Z");
    if r1.Err? {
      return Err(r1.error);
    }
    var r2 := HasRange(r1.value.1, "a-z");
    if r2.Err? {
      return Err(r2.error);
    }
    re.alpha := r1.value.0 || r2.value.0;
    var r3 := HasRange(r2.value.1, "0-9");
    if r3.Err? {
      return Err(r3.error);
    }
    re.digit := r3.value.0;
    assert re.Value() == Flags(false, r1.value.0 || r2.value.0, r3.value.0, {}, plus);
    FinishContent(re, r3.value.1);
    return Ok(re);
  }

  /** The constructor's steps after the ranges, ending with the non-whitespace test. */
  method FinishContent(re: BracketedExpression, rest: string)
    requires !re.anyNonWhitespace
    modifies re
    ensures var q := StripQuoted(rest, 0); var x := StripEscaped(q.0, 0);
      var f := AddedAll(old(re.Value()), q.1 + x.1 + RegExSymbols.GetBytes(x.0));
      re.Value() == f.(anyNonWhitespace := Eligible(f))
  {
    ghost var base := re.Value();
    AddContent(re, rest);
    ghost var f := re.Value();
    ghost var q := StripQuoted(rest, 0);
    ghost var x := StripEscaped(q.0, 0);
    AddedAllMeaning(base, q.1 + x.1 + RegExSymbols.GetBytes(x.0));
    assert !f.anyNonWhitespace;
    if Eligible(re.Value()) {
      re.anyNonWhitespace := true;
    }
  }

  // ----- the tokens of a pattern -----

  /**
   * The tokens `process` yields: plain text, a quoted span and an escape
   * hold their bytes; a bracket or character class is an object, which
   * `merge` may change in place.
   */
  datatype Token =
    | PlainToken(data: seq<Byte>)
    | QuotedToken(data: seq<Byte>)
    | EscapedToken(b: Byte)
    | BracketToken(re: BracketedExpression)

  /** A token as a value: a bracket class replaced by its current fields. */
  datatype Shape =
    | PlainShape(data: seq<Byte>)
    | QuotedShape(data: seq<Byte>)
    | EscapedShape(b: Byte)
    | BracketShape(flags: Flags)

  /** The class objects the tokens hold. */
  function Objects(ts: seq<Token>): set<BracketedExpression>
  {
    set k | 0 <= k < |ts| && ts[k].BracketToken? :: ts[k].re
  }

  /** No two tokens hold the same class object. */
  predicate Separate(ts: seq<Token>)
  {
    forall a, b :: 0 <= a < b < |ts| && ts[a].BracketToken? && ts[b].BracketToken? ==> ts[a].re != ts[b].re
  }

  function ShapeOf(t: Token): Shape
    reads if t.BracketToken? then {t.re} else {}
  {
    match t
    case PlainToken(d) => PlainShape(d)
    case QuotedToken(d) => QuotedShape(d)
    case EscapedToken(b) => EscapedShape(b)
    case BracketToken(re) => BracketShape(re.Value())
  }

  function Shapes(ts: seq<Token>): (r: seq<Shape>)
    reads Objects(ts)
    ensures |r| == |ts|
  {
    if ts == [] then []
    else
      assert Objects(ts[1..]) <= Objects(ts) by {
        assert forall k :: 0 <= k < |ts| - 1 ==> ts[1..][k] == ts[k + 1];
      }
      [ShapeOf(ts[0])] + Shapes(ts[1..])
  }

  /** The shape of each token is at its place. */
  lemma {:induction false} ShapesAt(ts: seq<Token>, k: int)
    requires 0 <= k < |ts|
    ensures Shapes(ts)[k] == ShapeOf(ts[k])
    decreases k
  {
    if k > 0 {
      assert ts[1..][k - 1] == ts[k];
      ShapesAt(ts[1..], k - 1);
    }
  }

  /** Appending a token appends its shape. */
  lemma {:induction false} ShapesSnoc(ts: seq<Token>, t: Token)
    ensures Shapes(ts + [t]) == Shapes(ts) + [ShapeOf(t)]
    decreases |ts|
  {
    if ts == [] {
      assert ts + [t] == [t] && [t][1..] == [];
    } else {
      assert (ts + [t])[1..] == ts[1..] + [t];
      assert (ts + [t])[0] == ts[0];
      ShapesSnoc(ts[1..], t);
    }
  }

  /** `toString()` of a token: the bytes as characters, re-wrapped in `\Q..\E`, re-escaped, or the class printed. */
  function ShapeText(sh: Shape): string
  {
    match sh
    case PlainShape(d) => Chars(d)
    case QuotedShape(d) => OPEN + Chars(d) + CLOSE
    case EscapedShape(b) => Escape(b)
    case BracketShape(f) => FlagsText(f)
  }

  /** The texts of the tokens, one after the other. */
  function ShapesText(shs: seq<Shape>): string
  {
    JoinMap(ShapeText, shs)
  }

  /** `toString()` of one token. */
  method TokenText(t: Token) returns (s: string)
    ensures s == ShapeText(ShapeOf(t))
  {
    match t
    case PlainToken(d) => s := Chars(d);
    case QuotedToken(d) => s := OPEN + Chars(d) + CLOSE;
    case EscapedToken(b) => s := Escape(b);
    case BracketToken(re) => s := re.ToString();
  }

  /** One step of `toPattern`: the text of token `k` appended. */
  method AppendText(tokens: seq<Token>, start: int, k: int, sb: string) returns (sb': string)
    requires 0 <= start <= k < |tokens| && sb == ShapesText(Shapes(tokens)[start..k])
    ensures sb' == ShapesText(Shapes(tokens)[start..k + 1])
  {
    ShapesAt(tokens, k);
    ghost var shs := Shapes(tokens);
    assert forall o | o in Objects(tokens) :: allocated(o);
    var s := TokenText(tokens[k]);
    assert Shapes(tokens) == shs;
    JoinMapStep(ShapeText, shs, start, k, sb, s);
    sb' := sb + s;
  }

  /**
   * `toPattern(tokens, start, end)`: the texts of tokens `start` to `end - 1`
   * joined; `tokens.get` throws when that range leaves the list.
   */
  method ToPattern(tokens: seq<Token>, start: int, end: int) returns (r: Result<string>)
    ensures r.Err? <==> start < end && (start < 0 || end > |tokens|)
    ensures r.Err? ==> r.error == IndexOutOfBounds
    ensures r.Ok? && start < end ==> r.value == ShapesText(Shapes(tokens)[start..end])
    ensures r.Ok? && start >= end ==> r.value == ""
  {
    ghost var shs := Shapes(tokens);
    if 0 <= start <= |tokens| {
      assert shs[start..start] == [];
    }
    var sb := "";
    var k := start;
    while k < end
      invariant k == start || (0 <= start < k <= end && k <= |tokens|)
      invariant 0 <= start <= k <= |tokens| ==> sb == ShapesText(shs[start..k])
      invariant k == start ==> sb == ""
      invariant forall o | o in Objects(tokens) :: allocated(o)
      invariant Shapes(tokens) == shs
      decreases end - k
    {
      if k < 0 || k >= |tokens| {
        return Err(IndexOutOfBounds);
      }
      sb := AppendText(tokens, start, k, sb);
      k := k + 1;
    }
    if start < end {
      assert k == end;
      assert sb == ShapesText(shs[start..end]);
    }
    return Ok(sb);
  }

  /** `toPattern(tokens, start)`: from `start` to the end of the list. */
  method ToPatternFrom(tokens: seq<Token>, start: int) returns (r: Result<string>)
    ensures r.Err? <==> start < 0
    ensures r.Ok? && start <= |tokens| ==> r.value == ShapesText(Shapes(tokens)[start..])
    ensures r.Ok? && start > |tokens| ==> r.value == ""
  {
    r := ToPattern(tokens, start, |tokens|);
    if r.Ok? && 0 <= start < |tokens| {
      assert Shapes(tokens)[start..] == Shapes(tokens)[start..|tokens|];
    } else if r.Ok? && start == |tokens| {
      assert Shapes(tokens)[start..] == [];
    }
  }

  // ----- process -----

  /** The token `process` builds for a matched text, or the error its constructor throws. */
  function ShapeOfText(t: string): Result<Shape>
  {
    match KindOf(t)
    case QuotedKind => Ok(QuotedShape(QuotedData(t)))
    case BracketKind => (match ParseFlags(t) case Ok(f) => Ok(BracketShape(f)) case Err(e) => Err(e))
    case ClassKind => Ok(BracketShape(CharClass(t)))
    case EscapedKind => (match EscapedCharOf(t) case Ok(b) => Ok(EscapedShape(b)) case Err(e) => Err(e))
    case PlainKind => Ok(PlainShape(RegExSymbols.GetBytes(t)))
  }

  /**
   * `process` from `i`: the text up to the next match as a plain token when
   * it is not empty, then the match classified, and so on to the end; the
   * first error thrown stops it.
   */
  function ProcessFrom(m: string, i: nat): Result<seq<Shape>>
    requires i <= |m|
    decreases |m| - i
  {
    match FindOperand(m, i)
    case None => Ok(Gap(m, i, |m|))
    case Some((s, e)) =>
      match ShapeOfText(m[s..e])
      case Err(err) => Err(err)
      case Ok(sh) => Prepended(Gap(m, i, s) + [sh], ProcessFrom(m, e))
  }

  /** The plain token for the text between `i` and `s`, none when it is empty. */
  function Gap(m: string, i: nat, s: nat): seq<Shape>
    requires i <= s <= |m|
  {
    if i != s then [PlainShape(RegExSymbols.GetBytes(m[i..s]))] else []
  }

  /** Putting `p` and then `q` in front is putting `p + q` in front. */
  lemma PrependedTwice(p: seq<Shape>, q: seq<Shape>, r: Result<seq<Shape>>)
    ensures Prepended(p, Prepended(q, r)) == Prepended(p + q, r)
  {
    if r.Ok? {
      Assoc(p, q, r.value);
    }
  }

  /** `p` put in front of a successful result. */
  function Prepended(p: seq<Shape>, r: Result<seq<Shape>>): Result<seq<Shape>>
  {
    match r
    case Ok(v) => Ok(p + v)
    case Err(e) => Err(e)
  }

  /** The token for one matched text, built as `process` builds it. */
  method MakeToken(t: string) returns (r: Result<Token>)
    ensures r.Err? <==> ShapeOfText(t).Err?
    ensures r.Err? ==> r.error == ShapeOfText(t).error
    ensures r.Ok? ==> ShapeOf(r.value) == ShapeOfText(t).value
    ensures r.Ok? && r.value.BracketToken? ==> fresh(r.value.re)
  {
    var kind := KindOf(t);
    if kind == QuotedKind {
      r := Ok(QuotedToken(QuotedData(t)));
    } else if kind == BracketKind {
      var re := ParseBracket(t);
      if re.Err? {
        r := Err(re.error);
      } else {
        r := Ok(BracketToken(re.value));
      }
    } else if kind == ClassKind {
      var re := new BracketedExpression.OfClass(t);
      r := Ok(BracketToken(re));
    } else if kind == EscapedKind {
      var b := EscapedCharOf(t);
      if b.Err? {
        r := Err(b.error);
      } else {
        r := Ok(EscapedToken(b.value));
      }
    } else {
      r := Ok(PlainToken(RegExSymbols.GetBytes(t)));
    }
  }

  /** Appending a token adds its class object, if it holds one. */
  lemma ObjectsSnoc(ts: seq<Token>, t: Token)
    ensures Objects(ts + [t]) == Objects(ts) + (if t.BracketToken? then {t.re} else {})
  {
    var u := ts + [t];
    assert forall k :: 0 <= k < |ts| ==> u[k] == ts[k];
    assert u[|ts|] == t;
  }

  /** A token whose class object no earlier token holds keeps the tokens separate. */
  lemma SeparateSnoc(ts: seq<Token>, t: Token)
    requires Separate(ts)
    requires t.BracketToken? ==> t.re !in Objects(ts)
    ensures Separate(ts + [t])
  {
    var u := ts + [t];
    forall a, b | 0 <= a < b < |u| && u[a].BracketToken? && u[b].BracketToken?
      ensures u[a].re != u[b].re
    {
      if b == |ts| {
        assert u[a] == ts[a];
        assert ts[a].re in Objects(ts);
      } else {
        assert u[a] == ts[a] && u[b] == ts[b];
      }
    }
  }

  /** One match of `process`: the plain token for the text before it, if any, then its own token. */
  method ProcessMatch(m: string, i: nat, start: nat, end: nat, tokens: seq<Token>) returns (r: Result<seq<Token>>)
    requires i <= start < end <= |m|
    requires Separate(tokens)
    ensures r.Err? <==> ShapeOfText(m[start..end]).Err?
    ensures r.Err? ==> r.error == ShapeOfText(m[start..end]).error
    ensures r.Ok? ==> Shapes(r.value) == old(Shapes(tokens)) + (Gap(m, i, start) + [ShapeOfText(m[start..end]).value])
    ensures r.Ok? ==> Separate(r.value) && fresh(Objects(r.value) - Objects(tokens))
  {
    assert forall o | o in Objects(tokens) :: allocated(o);
    var next := tokens;
    if i != start {
      var gap := PlainToken(RegExSymbols.GetBytes(m[i..start]));
      ShapesSnoc(next, gap);
      ObjectsSnoc(next, gap);
      SeparateSnoc(next, gap);
      next := next + [gap];
    } else {
      assert Shapes(next) + [] == Shapes(next);
    }
    ghost var mid := Shapes(next);
    assert forall o | o in Objects(next) :: allocated(o);
    var t := MakeToken(m[start..end]);
    if t.Err? {
      return Err(t.error);
    }
    assert Shapes(next) == mid;
    ShapesSnoc(next, t.value);
    ObjectsSnoc(next, t.value);
    SeparateSnoc(next, t.value);
    Assoc(old(Shapes(tokens)), Gap(m, i, start), [ShapeOf(t.value)]);
    next := next + [t.value];
    return Ok(next);
  }

  /** `process` from `i` takes one match and goes on after it. */
  lemma ProcessFromMatch(m: string, i: nat, start: nat, end: nat)
    requires i <= |m| && FindOperand(m, i) == Some((start, end))
    ensures ShapeOfText(m[start..end]).Err? ==> ProcessFrom(m, i) == Err(ShapeOfText(m[start..end]).error)
    ensures ShapeOfText(m[start..end]).Ok? ==>
      ProcessFrom(m, i) == Prepended(Gap(m, i, start) + [ShapeOfText(m[start..end]).value], ProcessFrom(m, end))
  {
  }

  /**
   * `process(regular_expression)`: the tokens in order, each class a new
   * object of its own, or the error the first failing constructor throws.
   */
  method Process(m: string) returns (r: Result<seq<Token>>)
    ensures r.Err? <==> ProcessFrom(m, 0).Err?
    ensures r.Err? ==> r.error == ProcessFrom(m, 0).error
    ensures r.Ok? ==> fresh(Objects(r.value)) && Separate(r.value) && Shapes(r.value) == ProcessFrom(m, 0).value
  {
    var tokens: seq<Token> := [];
    var i: nat := 0;
    var found := FindOperand(m, 0);
    assert Shapes(tokens) == [];
    PrependedTwice([], [], ProcessFrom(m, 0));
    assert Prepended([], ProcessFrom(m, 0)) == ProcessFrom(m, 0) by {
      if ProcessFrom(m, 0).Ok? {
        assert [] + ProcessFrom(m, 0).value == ProcessFrom(m, 0).value;
      }
    }
    while found.Some?
      invariant i <= |m| && found == FindOperand(m, i)
      invariant fresh(Objects(tokens)) && Separate(tokens)
      invariant Prepended(Shapes(tokens), ProcessFrom(m, i)) == ProcessFrom(m, 0)
      decreases |m| - i
    {
      var start, end := found.value.0, found.value.1;
      ProcessFromMatch(m, i, start, end);
      ghost var before := Shapes(tokens);
      var next := ProcessMatch(m, i, start, end, tokens);
      if next.Err? {
        return Err(next.error);
      }
      ghost var step := Gap(m, i, start) + [ShapeOfText(m[start..end]).value];
      assert Shapes(next.value) == before + step;
      PrependedTwice(before, step, ProcessFrom(m, end));
      tokens := next.value;
      i := end;
      found := FindOperand(m, i);
    }
    ghost var before := Shapes(tokens);
    assert ProcessFrom(m, i) == Ok(Gap(m, i, |m|));
    if i != |m| {
      TailToken(m, i, tokens);
      tokens := tokens + [PlainToken(RegExSymbols.GetBytes(m[i..]))];
    } else {
      assert before + Gap(m, i, |m|) == before;
    }
    return Ok(tokens);
  }

  /** The plain token for the text after the last match keeps the tokens separate and adds its gap. */
  lemma TailToken(m: string, i: nat, tokens: seq<Token>)
    requires i < |m| && Separate(tokens)
    ensures var out := tokens + [PlainToken(RegExSymbols.GetBytes(m[i..]))];
      Separate(out) && Objects(out) == Objects(tokens) && Shapes(out) == Shapes(tokens) + Gap(m, i, |m|)
  {
    var last := PlainToken(RegExSymbols.GetBytes(m[i..]));
    ShapesSnoc(tokens, last);
    ObjectsSnoc(tokens, last);
    SeparateSnoc(tokens, last);
    assert m[i..|m|] == m[i..];
    assert Gap(m, i, |m|) == [ShapeOf(last)];
  }

  // ----- what process promises -----

  /**
   * The pieces `process` cuts `m[i..]` into, as index pairs: each non-empty
   * gap before a match, the match, and the non-empty rest after the last match.
   */
  function Cuts(m: string, i: nat): seq<(nat, nat)>
    requires i <= |m|
    decreases |m| - i
  {
    match FindOperand(m, i)
    case None => if i != |m| then [(i, |m|)] else []
    case Some((s, e)) =>
      var tail := [(s, e)] + Cuts(m, e);
      if i != s then [(i, s)] + tail else tail
  }

  /** `c` cuts `[i, n)` into non-empty adjacent pieces, in order, with no gap and no overlap. */
  predicate Tiles(c: seq<(nat, nat)>, i: nat, n: nat)
  {
    (c == [] <==> i == n) &&
    (c != [] ==> c[0].0 == i && c[|c| - 1].1 == n) &&
    (forall k :: 0 <= k < |c| ==> i <= c[k].0 < c[k].1 <= n) &&
    (forall k :: 0 <= k < |c| - 1 ==> c[k].1 == c[k + 1].0) &&
    (forall k, l :: 0 <= k < l < |c| ==> c[k].1 <= c[l].0)
  }

  lemma TilesAppend(a: seq<(nat, nat)>, b: seq<(nat, nat)>, i: nat, j: nat, n: nat)
    requires Tiles(a, i, j) && Tiles(b, j, n)
    ensures Tiles(a + b, i, n)
  {
    var c := a + b;
    assert forall k :: 0 <= k < |a| ==> c[k] == a[k];
    assert forall k :: |a| <= k < |c| ==> c[k] == b[k - |a|];
    if a != [] && b != [] {
      assert c[|a| - 1].1 == j == c[|a|].0;
    }
    forall k, l | 0 <= k < l < |c|
      ensures c[k].1 <= c[l].0
    {
      if l < |a| {
      } else if k >= |a| {
        assert c[k] == b[k - |a|] && c[l] == b[l - |a|];
      } else {
        assert c[k].1 <= j;
        assert c[l] == b[l - |a|];
      }
    }
  }

  /** The pieces of `process` tile the text from `i` to its end. */
  lemma {:induction false} CutsTile(m: string, i: nat)
    requires i <= |m|
    ensures Tiles(Cuts(m, i), i, |m|)
    decreases |m| - i
  {
    match FindOperand(m, i)
    case None =>
    case Some((s, e)) =>
      CutsTile(m, e);
      CutsUnfold(m, i, s, e);
      TilesAppend([(s, e)], Cuts(m, e), s, e, |m|);
      if i != s {
        TilesAppend([(i, s)], [(s, e)] + Cuts(m, e), i, s, |m|);
      }
  }

  /**
   * A text that the anchored patterns classify as a token has a match of the
   * token pattern where it starts, so the text between two matches, where
   * `find` saw none, is always plain.
   */
  lemma GapPlain(m: string, i: nat, s: nat)
    requires i < s <= |m|
    ensures OperandAt(m, i).None? ==> KindOf(m[i..s]) == PlainKind
  {
    var t := m[i..s];
    if QuotedFull(t) {
      assert TagAt(m, 'Q', i);
      assert TagAt(m, 'E', s - 2);
      FindTagFirst(m, 'E', i + 2);
      assert OperandAt(m, i).Some?;
    } else if BracketFull(t) {
      assert m[i] == '[';
      if t[|t| - 1] == ']' {
        assert m[s - 1] == ']';
      } else {
        assert m[s - 2] == ']';
      }
      assert OperandAt(m, i).Some?;
    } else if ClassFull(t) {
      assert m[i] == t[0] && m[i + 1] == t[1] && m[i + 2] == t[2];
      assert OperandAt(m, i).Some?;
    } else if EscapedFull(t) {
      assert EscapeAt(m, i);
    }
  }

  /** Every piece of `c` lies within a text of length `n`. */
  predicate Within(c: seq<(nat, nat)>, n: nat)
  {
    forall k :: 0 <= k < |c| ==> c[k].0 <= c[k].1 <= n
  }

  /** The text of a piece. */
  function PieceText(m: string, c: (nat, nat)): string
    requires c.0 <= c.1 <= |m|
  {
    m[c.0..c.1]
  }

  /** The tokens of the pieces `c` of `m`, in order; the first piece whose token fails stops it. */
  function PieceShapes(m: string, c: seq<(nat, nat)>): Result<seq<Shape>>
    requires Within(c, |m|)
  {
    if c == [] then Ok([]) else Consed(ShapeOfText(PieceText(m, c[0])), PieceShapes(m, c[1..]))
  }

  /** A token, or the error building it, put in front of a result. */
  function Consed(h: Result<Shape>, r: Result<seq<Shape>>): Result<seq<Shape>>
  {
    match h
    case Err(e) => Err(e)
    case Ok(sh) => Prepended([sh], r)
  }

  /** `process` is the tokens of its pieces. */
  lemma {:induction false} ProcessCuts(m: string, i: nat)
    requires i <= |m|
    ensures Tiles(Cuts(m, i), i, |m|)
    ensures ProcessFrom(m, i) == PieceShapes(m, Cuts(m, i))
    decreases |m| - i
  {
    CutsTile(m, i);
    match FindOperand(m, i) {
      case None => CutsLast(m, i);
      case Some((s, e)) => ProcessCuts(m, e); CutsStep(m, i, s, e);
    }
  }

  /** With no match left, the rest of the text is the last piece, plain. */
  lemma CutsLast(m: string, i: nat)
    requires i <= |m| && FindOperand(m, i).None?
    requires Within(Cuts(m, i), |m|)
    ensures ProcessFrom(m, i) == PieceShapes(m, Cuts(m, i))
  {
    if i != |m| {
      var c := Cuts(m, i);
      GapPlain(m, i, |m|);
      assert c == [(i, |m|)];
      assert c[1..] == [];
      assert PieceText(m, c[0]) == m[i..|m|];
      assert OperandAt(m, i).None?;
      var plain := PlainShape(RegExSymbols.GetBytes(m[i..|m|]));
      assert ShapeOfText(m[i..|m|]) == Ok(plain);
      assert PieceShapes(m, c) == Prepended([plain], PieceShapes(m, []));
      assert [plain] + [] == [plain];
    }
  }

  /** A match, with the plain text before it, adds its pieces in front of those after it. */
  lemma CutsStep(m: string, i: nat, s: nat, e: nat)
    requires i <= |m| && FindOperand(m, i) == Some((s, e))
    requires Within(Cuts(m, i), |m|) && Within(Cuts(m, e), |m|)
    requires ProcessFrom(m, e) == PieceShapes(m, Cuts(m, e))
    ensures ProcessFrom(m, i) == PieceShapes(m, Cuts(m, i))
  {
    var rest := Cuts(m, e);
    var tail := [(s, e)] + rest;
    var h := ShapeOfText(m[s..e]);
    var g := Gap(m, i, s);
    var after := ProcessFrom(m, e);
    CutsUnfold(m, i, s, e);
    ProcessUnfold(m, i, s, e, h);
    PieceShapesCons(m, (s, e), rest);
    assert PieceShapes(m, tail) == Consed(h, after);
    if i != s {
      assert OperandAt(m, i).None?;
      PlainPiece(m, i, s);
      PieceShapesCons(m, (i, s), tail);
    } else {
      assert Cuts(m, i) == tail;
    }
    ConsedAfter(g, h, after);
  }

  /** `Cuts` and `ProcessFrom` at a match, one step unfolded. */
  lemma CutsUnfold(m: string, i: nat, s: nat, e: nat)
    requires i <= |m| && FindOperand(m, i) == Some((s, e))
    ensures i <= s < e <= |m|
    ensures Cuts(m, i) == if i != s then [(i, s)] + ([(s, e)] + Cuts(m, e)) else [(s, e)] + Cuts(m, e)
  {
  }

  lemma ProcessUnfold(m: string, i: nat, s: nat, e: nat, h: Result<Shape>)
    requires i <= |m| && FindOperand(m, i) == Some((s, e)) && h == ShapeOfText(m[s..e])
    ensures i <= s < e <= |m|
    ensures ProcessFrom(m, i) == (if h.Err? then Err(h.error) else Prepended(Gap(m, i, s) + [h.value], ProcessFrom(m, e)))
  {
  }

  /** A plain piece, if any, and then a token, in front of the rest. */
  lemma ConsedAfter(g: seq<Shape>, h: Result<Shape>, after: Result<seq<Shape>>)
    requires |g| <= 1
    ensures (if g == [] then Consed(h, after) else Consed(Ok(g[0]), Consed(h, after)))
         == (if h.Err? then Err(h.error) else Prepended(g + [h.value], after))
  {
    if h.Ok? {
      if g == [] {
        assert g + [h.value] == [h.value];
      } else {
        assert g == [g[0]];
        PrependedTwice(g, [h.value], after);
      }
    }
  }

  /** The tokens of a piece followed by more pieces. */
  lemma PieceShapesCons(m: string, p: (nat, nat), c: seq<(nat, nat)>)
    requires p.0 <= p.1 <= |m| && Within(c, |m|)
    ensures Within([p] + c, |m|)
    ensures PieceShapes(m, [p] + c) == Consed(ShapeOfText(m[p.0..p.1]), PieceShapes(m, c))
  {
    assert ([p] + c)[1..] == c;
  }

  /** A piece the token pattern does not match where it starts has a plain token. */
  lemma PlainPiece(m: string, i: nat, s: nat)
    requires i < s <= |m| && OperandAt(m, i).None?
    ensures ShapeOfText(m[i..s]) == Ok(PlainShape(RegExSymbols.GetBytes(m[i..s])))
  {
    GapPlain(m, i, s);
  }

  /**
   * The tokens of a run of pieces: they exist iff every piece's token does,
   * and are then exactly those, one per piece.
   */
  lemma {:induction false} PieceShapesMeaning(m: string, c: seq<(nat, nat)>)
    requires Within(c, |m|)
    ensures PieceShapes(m, c).Ok? <==> forall k :: 0 <= k < |c| ==> ShapeOfText(PieceText(m, c[k])).Ok?
    ensures PieceShapes(m, c).Ok? ==> |PieceShapes(m, c).value| == |c|
    ensures PieceShapes(m, c).Ok? ==> forall k :: 0 <= k < |c| ==> ShapeOfText(PieceText(m, c[k])) == Ok(PieceShapes(m, c).value[k])
  {
    if c != [] {
      var r := c[1..];
      PieceShapesMeaning(m, r);
      assert forall k :: 1 <= k < |c| ==> c[k] == r[k - 1];
      var h := ShapeOfText(PieceText(m, c[0]));
      if h.Ok? && PieceShapes(m, r).Ok? {
        var v := [h.value] + PieceShapes(m, r).value;
        assert PieceShapes(m, c) == Ok(v);
        assert forall k :: 1 <= k < |c| ==> v[k] == PieceShapes(m, r).value[k - 1];
      } else if h.Ok? {
        var k :| 0 <= k < |r| && !ShapeOfText(PieceText(m, r[k])).Ok?;
        assert c[k + 1] == r[k];
      }
    }
  }

  /** When the tokens of a run of pieces fail, the error is that of the first piece that fails. */
  lemma {:induction false} PieceShapesFirstError(m: string, c: seq<(nat, nat)>)
    requires Within(c, |m|)
    ensures PieceShapes(m, c).Err? ==>
      exists k :: 0 <= k < |c| && ShapeOfText(PieceText(m, c[k])) == Err(PieceShapes(m, c).error) &&
        (forall j :: 0 <= j < k ==> ShapeOfText(PieceText(m, c[j])).Ok?)
  {
    if c != [] {
      var r := c[1..];
      PieceShapesFirstError(m, r);
      if ShapeOfText(PieceText(m, c[0])).Ok? && PieceShapes(m, r).Err? {
        var k :| 0 <= k < |r| && ShapeOfText(PieceText(m, r[k])) == Err(PieceShapes(m, r).error) &&
          (forall j :: 0 <= j < k ==> ShapeOfText(PieceText(m, r[j])).Ok?);
        FirstErrorShift(m, c, k);
      }
    }
  }

  /** A first failing piece of `c[1..]` after a good first piece is a first failing piece of `c`, one place on. */
  lemma FirstErrorShift(m: string, c: seq<(nat, nat)>, k: nat)
    requires Within(c, |m|) && k + 1 < |c| && ShapeOfText(PieceText(m, c[0])).Ok?
    requires forall j :: 0 <= j < k ==> ShapeOfText(PieceText(m, c[1..][j])).Ok?
    ensures c[k + 1] == c[1..][k]
    ensures forall j :: 0 <= j < k + 1 ==> ShapeOfText(PieceText(m, c[j])).Ok?
  {
    forall j | 0 <= j < k + 1
      ensures ShapeOfText(PieceText(m, c[j])).Ok?
    {
      if j > 0 {
        assert c[j] == c[1..][j - 1];
      }
    }
  }

  // ----- process, then toPattern -----

  /**
   * A text that `process` and `toPattern` give back unchanged: one byte per
   * character, no bracket class (its printing is normalised), and every
   * escape written with upper-case digits (`toString` prints those).
   */
  predicate Reprintable(m: string)
  {
    (forall k :: 0 <= k < |m| ==> m[k] as int < 256 && m[k] != '[') &&
    (forall p :: 0 <= p < |m| && EscapeAt(m, p) ==> IsUpperHex(m[p + 2]) && IsUpperHex(m[p + 3]))
  }

  /** The bytes of a text of one-byte characters, read back as characters, are the text. */
  lemma CharsOfBytes(t: string)
    requires forall k :: 0 <= k < |t| ==> t[k] as int < 256
    ensures Chars(RegExSymbols.GetBytes(t)) == t
  {
    var b := RegExSymbols.GetBytes(t);
    var r := Chars(b);
    assert |r| == |b| == |t|;
    forall k | 0 <= k < |t|
      ensures r[k] == t[k]
    {
      assert b[k] == LowByte(t[k]);
      UnsignedLowByte(t[k]);
      assert r[k] as int == t[k] as int;
    }
  }

  /** A one-byte character survives the cast to a signed byte and back. */
  lemma UnsignedLowByte(c: char)
    requires c as int < 256
    ensures Unsigned(LowByte(c)) == c as int
  {
    assert c as int % 256 == c as int;
  }

  /** The token `process` builds for a reprintable piece prints as the piece. */
  lemma ShapeTextRoundTrip(t: string)
    requires forall k :: 0 <= k < |t| ==> t[k] as int < 256 && t[k] != '['
    requires EscapedFull(t) ==> IsUpperHex(t[2]) && IsUpperHex(t[3])
    ensures ShapeOfText(t).Ok? && ShapeText(ShapeOfText(t).value) == t
  {
    var sh: Shape;
    if QuotedFull(t) {
      sh := QuotedShape(QuotedData(t));
      QuotedRoundTrip(t);
    } else if BracketFull(t) {
      assert false;
    } else if ClassFull(t) {
      sh := BracketShape(CharClass(t));
      CharClassRoundTrip(t);
    } else if EscapedFull(t) {
      EscapedCharOfEscape(t);
      sh := EscapedShape(EscapedByte(t));
      EscapedTextRoundTrip(t);
    } else {
      sh := PlainShape(RegExSymbols.GetBytes(t));
      CharsOfBytes(t);
    }
    assert ShapeOfText(t) == Ok(sh);
  }

  /** A quoted span of one-byte characters prints as itself. */
  lemma QuotedRoundTrip(t: string)
    requires QuotedFull(t)
    requires forall k :: 0 <= k < |t| ==> t[k] as int < 256
    ensures ShapeText(QuotedShape(QuotedData(t))) == t
  {
    var d := t[2..|t| - 2];
    CharsOfBytes(d);
    assert t == t[..2] + d + t[|t| - 2..];
  }

  /** A piece of a reprintable text prints as itself. */
  lemma PieceRoundTrip(m: string, a: nat, b: nat)
    requires a <= b <= |m| && Reprintable(m)
    ensures ShapeOfText(m[a..b]).Ok? && ShapeText(ShapeOfText(m[a..b]).value) == m[a..b]
  {
    var t := m[a..b];
    if EscapedFull(t) {
      assert EscapeAt(m, a);
    }
    ShapeTextRoundTrip(t);
  }

  /** From `i` on, `process` of a reprintable text succeeds and its tokens print as the rest of the text. */
  lemma {:induction false} ProcessRoundTripFrom(m: string, i: nat)
    requires i <= |m| && Reprintable(m)
    ensures ProcessFrom(m, i).Ok? && ShapesText(ProcessFrom(m, i).value) == m[i..]
    decreases |m| - i
  {
    match FindOperand(m, i) {
      case None =>
        if i != |m| {
          assert m[i..|m|] == m[i..];
          GapText(m, i, |m|);
        }
      case Some((s, e)) =>
        ProcessRoundTripFrom(m, e);
        RoundTripStep(m, i, s, e);
    }
  }

  /** A match and the gap before it print as the text up to the end of the match. */
  lemma RoundTripStep(m: string, i: nat, s: nat, e: nat)
    requires i <= |m| && Reprintable(m) && FindOperand(m, i) == Some((s, e))
    requires ProcessFrom(m, e).Ok? && ShapesText(ProcessFrom(m, e).value) == m[e..]
    ensures ProcessFrom(m, i).Ok? && ShapesText(ProcessFrom(m, i).value) == m[i..]
  {
    PieceRoundTrip(m, s, e);
    var sh := ShapeOfText(m[s..e]).value;
    var rest := ProcessFrom(m, e).value;
    var g := Gap(m, i, s);
    assert ProcessFrom(m, i) == Prepended(g + [sh], ProcessFrom(m, e));
    JoinMapAppend(ShapeText, g + [sh], rest);
    JoinMapAppend(ShapeText, g, [sh]);
    JoinMapSingle(ShapeText, sh);
    GapText(m, i, s);
    SliceThree(m, i, s, e);
  }

  /** The plain token of a gap of a reprintable text prints as the gap. */
  lemma GapText(m: string, i: nat, s: nat)
    requires i <= s <= |m| && Reprintable(m)
    ensures ShapesText(Gap(m, i, s)) == m[i..s]
  {
    if i != s {
      JoinMapSingle(ShapeText, PlainShape(RegExSymbols.GetBytes(m[i..s])));
      CharsOfBytes(m[i..s]);
    }
  }

  /** `toPattern` of the tokens of `process` gives back any reprintable text. */
  lemma ProcessRoundTrip(m: string)
    requires Reprintable(m)
    ensures ProcessFrom(m, 0).Ok? && ShapesText(ProcessFrom(m, 0).value) == m
  {
    ProcessRoundTripFrom(m, 0);
    assert m[0..] == m;
  }

  // ----- merging two tokens -----

  /** The bytes `\s` stands for: space, tab, newline, vertical tab, form feed and carriage return. */
  predicate IsSpaceByte(b: Byte)
  {
    b == 32 || 9 <= b <= 13
  }

  /** The bytes the printed class stands for: its ranges, its other bytes, and every non-space byte for `\S`. */
  predicate Admits(f: Flags, b: Byte)
  {
    (f.alpha && IsAlpha(b)) || (f.digit && IsDigit(b)) || b in f.others || (f.anyNonWhitespace && !IsSpaceByte(b))
  }

  /** The class `generalize()` of a token yields: a bracket generalized in place, or a new class from the token's bytes. */
  function Generalization(sh: Shape): Flags
  {
    match sh
    case BracketShape(f) => Generalized(f)
    case PlainShape(d) => GeneralizeData(d)
    case QuotedShape(d) => GeneralizeData(d)
    case EscapedShape(b) => GeneralizeData([b])
  }

  /** What `merge` joins on behalf of `sh`: the class itself when both are classes, otherwise its generalization. */
  function MergeOperand(sh: Shape, other: Shape): Flags
  {
    if sh.BracketShape? && other.BracketShape? then sh.flags else Generalization(sh)
  }

  /** The static `merge` of two tokens. */
  function MergedShapes(a: Shape, b: Shape): Flags
  {
    Join(MergeOperand(a, b), MergeOperand(b, a))
  }

  /** The class built from a token's bytes stands for each of those bytes. */
  lemma GeneralizeDataAdmits(data: seq<Byte>, k: nat)
    requires k < |data|
    ensures Admits(GeneralizeData(data), data[k])
  {
    GeneralizeDataMeaning(data);
    var b := data[k];
    if !IsAlpha(b) && !IsDigit(b) {
      assert b in RegExSymbols.OthersOf(data);
    }
  }

  /** Generalizing a class only widens what it stands for. */
  lemma GeneralizedWidens(f: Flags, b: Byte)
    requires Admits(f, b)
    ensures Admits(Generalized(f), b)
  {
  }

  /**
   * The merged class stands for a byte iff one of the two classes merged
   * stands for it; it repeats iff one of them does.
   */
  lemma MergeAdmits(a: Shape, b: Shape, x: Byte)
    ensures Admits(MergedShapes(a, b), x) <==> Admits(MergeOperand(a, b), x) || Admits(MergeOperand(b, a), x)
    ensures MergedShapes(a, b).many <==> MergeOperand(a, b).many || MergeOperand(b, a).many
  {
  }

  /** Merging is symmetric: the order of the two tokens does not matter. */
  lemma MergeCommutes(a: Shape, b: Shape)
    ensures MergedShapes(a, b) == MergedShapes(b, a)
  {
    JoinLattice(MergeOperand(a, b), MergeOperand(b, a), NoFlags);
  }

  /**
   * The merge of a plain, quoted or escaped token with any token stands for
   * every byte of the first token.
   */
  lemma MergeKeepsBytes(a: Shape, b: Shape, k: nat)
    requires !a.BracketShape?
    requires k < |ShapeBytes(a)|
    ensures Admits(MergedShapes(a, b), ShapeBytes(a)[k])
  {
    GeneralizeDataAdmits(ShapeBytes(a), k);
    assert MergeOperand(a, b) == GeneralizeData(ShapeBytes(a));
  }

  /** The bytes of a plain, quoted or escaped token. */
  function ShapeBytes(sh: Shape): seq<Byte>
  {
    match sh
    case PlainShape(d) => d
    case QuotedShape(d) => d
    case EscapedShape(b) => [b]
    case BracketShape(_) => []
  }

  /** The footprint of a token: its class object, if it has one. */
  function Footprint(t: Token): set<BracketedExpression>
  {
    if t.BracketToken? then {t.re} else {}
  }

  /** `generalize()` of one token. */
  method GeneralizeToken(t: Token) returns (re: BracketedExpression)
    modifies Footprint(t)
    ensures t.BracketToken? ==> re == t.re
    ensures !t.BracketToken? ==> fresh(re)
    ensures re.Value() == Generalization(old(ShapeOf(t)))
  {
    match t {
      case BracketToken(r) => re := r.Generalize();
      case PlainToken(d) => re := GeneralizeBytes(d);
      case QuotedToken(d) => re := GeneralizeBytes(d);
      case EscapedToken(b) => re := GeneralizeBytes([b]);
    }
  }

  /**
   * The static `merge(re0, re1)`: two classes are joined into a new one and
   * left as they are; otherwise both tokens are generalized, a class in
   * place, and the results joined.
   */
  method MergeTokens(t0: Token, t1: Token) returns (merged: BracketedExpression)
    modifies Footprint(t0), Footprint(t1)
    ensures fresh(merged)
    ensures merged.Value() == MergedShapes(old(ShapeOf(t0)), old(ShapeOf(t1)))
    ensures t0.BracketToken? && t1.BracketToken? ==> unchanged(t0.re, t1.re)
    ensures !(t0.BracketToken? && t1.BracketToken?) && t0.BracketToken? ==> t0.re.Value() == Generalized(old(t0.re.Value()))
    ensures !(t0.BracketToken? && t1.BracketToken?) && t1.BracketToken? ==> t1.re.Value() == Generalized(old(t1.re.Value()))
  {
    if t0.BracketToken? && t1.BracketToken? {
      merged := MergeBrackets(t0.re, t1.re);
    } else {
      ghost var s0, s1 := ShapeOf(t0), ShapeOf(t1);
      var r0 := GeneralizeToken(t0);
      var r1 := GeneralizeToken(t1);
      assert r0.Value() == Generalization(s0);
      merged := MergeBrackets(r0, r1);
    }
  }
}
