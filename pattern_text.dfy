// The pattern-text algebra shared by both RegEx classes: how message data is
// quoted into a pattern, how `toString` strips the quote marks again, how
// `concat` joins two quoted patterns, and the literal searches (separators,
// quoted spans, single characters) that the tokenizers and `generalize` run.
module PatternText {
  import opened Wrappers
  import opened JavaTypes
  import opened JavaStrings
  import opened Traces

  const OPEN: string := "\\Q"
  const CLOSE: string := "\\E"
  /** What `concat` deletes: a close mark directly followed by an open mark. */
  const JOIN: string := "\\E\\Q"

  /** `(byte) c`: the low eight bits of a character, signed. */
  function LowByte(c: char): Byte
  {
    var v := c as int % 256;
    if v < 128 then v else v - 256
  }

  /** In text mode `quote` keeps a character whose low byte is printable literal. */
  predicate Literal(c: char, text: bool)
  {
    text && IsPrintable(LowByte(c))
  }

  /**
   * What `quote` appends for the rest `d` of its input when a `\Q` is open or
   * not: literal runs between `\Q` and `\E`, every other character as `\xHH`.
   */
  function QuoteFrom(d: string, quoting: bool, text: bool): string
    decreases |d|
  {
    if d == [] then (if quoting then CLOSE else "")
    else if Literal(d[0], text) then (if quoting then "" else OPEN) + [d[0]] + QuoteFrom(d[1..], true, text)
    else (if quoting then CLOSE else "") + Escape(LowByte(d[0])) + QuoteFrom(d[1..], false, text)
  }

  /** `quote(data)`; `text` is `IS_TEXT_BASED_PROTOCOL` (always true in the reverx copy). */
  function Quoted(d: string, text: bool): string
  {
    QuoteFrom(d, false, text)
  }

  /** The characters `quote` appends for one character `c` of the data. */
  function QuoteChunk(c: char, quoting: bool, text: bool): string
  {
    if Literal(c, text) then (if quoting then "" else OPEN) + [c]
    else (if quoting then CLOSE else "") + Escape(LowByte(c))
  }

  /** One iteration of `quote`'s loop keeps "what is built + what is still to come". */
  lemma QuoteStep(built: string, data: string, i: nat, quoting: bool, text: bool)
    requires i < |data|
    requires built + QuoteFrom(data[i..], quoting, text) == Quoted(data, text)
    ensures (built + QuoteChunk(data[i], quoting, text)) + QuoteFrom(data[i + 1..], Literal(data[i], text), text)
      == Quoted(data, text)
  {
    assert data[i..][1..] == data[i + 1..];
    assert QuoteFrom(data[i..], quoting, text)
      == QuoteChunk(data[i], quoting, text) + QuoteFrom(data[i + 1..], Literal(data[i], text), text);
  }

  /** `quote`: one pass over the data with a flag telling whether a `\Q` is open. */
  method Quote(data: string, text: bool) returns (s: string)
    ensures s == Quoted(data, text)
  {
    s := "";
    var quoting := false;
    var i := 0;
    while i < |data|
      invariant 0 <= i <= |data|
      invariant s + QuoteFrom(data[i..], quoting, text) == Quoted(data, text)
    {
      QuoteStep(s, data, i, quoting, text);
      s, quoting := AppendChunk(s, data[i], quoting, text);
      i := i + 1;
    }
    if quoting {
      s := s + CLOSE;
    } else {
      assert s + "" == s;
    }
  }

  /**
   * The body of `quote`'s loop: a literal character opens a `\Q` when none is
   * open; any other character closes an open one and is written as `\xHH`.
   */
  method AppendChunk(s0: string, b: char, quoting0: bool, text: bool) returns (s: string, quoting: bool)
    ensures s == s0 + QuoteChunk(b, quoting0, text)
    ensures quoting == Literal(b, text)
  {
    s, quoting := s0, quoting0;
    if Literal(b, text) {
      if !quoting {
        s := s + OPEN;
        quoting := true;
      }
      s := s + [b];
    } else {
      if quoting {
        s := s + CLOSE;
        quoting := false;
      }
      s := s + Escape(LowByte(b));
    }
  }

  // ----- toString: removing every \E and \Q -----

  /** `replaceAll("\\\\E|\\\\Q", "")`: each `\E` or `\Q`, scanned left to right, is deleted. */
  function Unquote(s: string): string
    decreases |s|
  {
    if |s| >= 2 && s[0] == '\\' && (s[1] == 'E' || s[1] == 'Q') then Unquote(s[2..])
    else if s == [] then ""
    else [s[0]] + Unquote(s[1..])
  }

  /** A character of the data as `ByteChars.toString` writes it. */
  function PlainChar(c: char): string
  {
    if IsPrintable(LowByte(c)) then [c] else Escape(LowByte(c))
  }

  /** The data with every non-printable character written as `\xHH`. */
  function Plain(d: string): string
    decreases |d|
  {
    if d == [] then "" else PlainChar(d[0]) + Plain(d[1..])
  }

  /** The data never holds a backslash followed by `E` or `Q`. */
  predicate NoQuoteTags(d: string)
  {
    forall i :: 0 <= i < |d| - 1 && d[i] == '\\' ==> d[i + 1] != 'E' && d[i + 1] != 'Q'
  }

  lemma NoQuoteTagsTail(d: string)
    requires NoQuoteTags(d) && d != []
    ensures NoQuoteTags(d[1..])
  {
    forall i | 0 <= i < |d[1..]| - 1 && d[1..][i] == '\\'
      ensures d[1..][i + 1] != 'E' && d[1..][i + 1] != 'Q'
    {
      assert d[i + 1] == '\\';
    }
  }

  lemma UnquoteKeep(c: char, z: string)
    requires c != '\\' || z == [] || (z[0] != 'E' && z[0] != 'Q')
    ensures Unquote([c] + z) == [c] + Unquote(z)
  {
    assert ([c] + z)[1..] == z;
  }

  lemma UnquoteTag(t: string, z: string)
    requires t == OPEN || t == CLOSE
    ensures Unquote(t + z) == Unquote(z)
  {
    assert (t + z)[2..] == z;
  }

  /** An escape starts with a backslash and an `x`. */
  lemma EscapeHead(b: Byte)
    ensures Escape(b)[0] == '\\' && Escape(b)[1] == 'x'
  {
    var e := Escape(b);
    assert e[..2][0] == e[0] && e[..2][1] == e[1];
  }

  lemma UnquoteEscape(b: Byte, z: string)
    ensures Unquote(Escape(b) + z) == Escape(b) + Unquote(z)
  {
    var e := Escape(b);
    EscapeHead(b);
    assert IsUpperHex(e[2]) && IsUpperHex(e[3]);
    UnquoteFour(e, z);
  }

  /** Four characters with an `x` after the backslash and no backslash after that hold no quote mark. */
  lemma UnquoteFour(e: string, z: string)
    requires |e| == 4 && e[1] == 'x' && e[2] != '\\' && e[3] != '\\'
    ensures Unquote(e + z) == e + Unquote(z)
  {
    assert e + z == [e[0]] + ([e[1]] + ([e[2]] + ([e[3]] + z)));
    UnquoteKeep(e[3], z);
    UnquoteKeep(e[2], [e[3]] + z);
    UnquoteKeep(e[1], [e[2]] + ([e[3]] + z));
    UnquoteKeep(e[0], [e[1]] + ([e[2]] + ([e[3]] + z)));
    assert [e[0]] + ([e[1]] + ([e[2]] + ([e[3]] + Unquote(z)))) == e + Unquote(z);
  }

  /** A quoted pattern starts with a backslash, or with the data's first character when a `\Q` is open. */
  lemma QuoteHead(d: string, quoting: bool)
    requires d != [] || quoting
    ensures QuoteFrom(d, quoting, true) != []
    ensures var s := QuoteFrom(d, quoting, true);
      s[0] == '\\' || (quoting && d != [] && Literal(d[0], true) && s[0] == d[0])
  {
  }

  /** Deleting the quote marks from what `quote` writes for one literal character. */
  lemma UnquoteLiteralChunk(c: char, quoting: bool, z: string)
    requires Literal(c, true)
    requires c != '\\' || z == [] || (z[0] != 'E' && z[0] != 'Q')
    ensures Unquote(QuoteChunk(c, quoting, true) + z) == PlainChar(c) + Unquote(z)
  {
    UnquoteKeep(c, z);
    if !quoting {
      assert QuoteChunk(c, quoting, true) + z == OPEN + ([c] + z);
      UnquoteTag(OPEN, [c] + z);
    } else {
      assert QuoteChunk(c, quoting, true) + z == [c] + z;
    }
  }

  /** Deleting the quote marks from what `quote` writes for one escaped character. */
  lemma UnquoteEscapeChunk(c: char, quoting: bool, z: string)
    requires !Literal(c, true)
    ensures Unquote(QuoteChunk(c, quoting, true) + z) == PlainChar(c) + Unquote(z)
  {
    var e := Escape(LowByte(c));
    UnquoteEscape(LowByte(c), z);
    if quoting {
      assert QuoteChunk(c, quoting, true) + z == CLOSE + (e + z);
      UnquoteTag(CLOSE, e + z);
    } else {
      assert QuoteChunk(c, quoting, true) + z == e + z;
    }
  }

  /**
   * Deleting the quote marks from `quote(d)` gives `d` with its non-printable
   * characters written as `\xHH`, provided `d` holds no literal `\E` or `\Q`.
   */
  lemma {:induction false} UnquoteQuote(d: string, quoting: bool)
    requires NoQuoteTags(d)
    ensures Unquote(QuoteFrom(d, quoting, true)) == Plain(d)
    decreases |d|
  {
    if d == [] {
      if quoting {
        UnquoteTag(CLOSE, "");
      }
    } else {
      var c := d[0];
      var lit := Literal(c, true);
      NoQuoteTagsTail(d);
      QuoteUnfold(d, quoting, true);
      var z := QuoteFrom(d[1..], lit, true);
      UnquoteQuote(d[1..], lit);
      if lit {
        if c == '\\' && d[1..] != [] {
          assert d[1..][0] == d[1];
        }
        QuoteHead(d[1..], true);
        UnquoteLiteralChunk(c, quoting, z);
      } else {
        UnquoteEscapeChunk(c, quoting, z);
      }
    }
  }

  /** For bytes read through `charAt`, the plain form is `ByteChars.toString`. */
  function Chars(bytes: seq<Byte>): (s: string)
    ensures |s| == |bytes|
    ensures forall i :: 0 <= i < |s| ==> s[i] as int == Unsigned(bytes[i])
  {
    if bytes == [] then "" else [Unsigned(bytes[0]) as char] + Chars(bytes[1..])
  }

  lemma {:induction false} PlainChars(bytes: seq<Byte>)
    ensures Plain(Chars(bytes)) == Render(bytes)
    decreases |bytes|
  {
    if bytes != [] {
      var b := bytes[0];
      assert LowByte(Unsigned(b) as char) == b by {
        assert CastByte(Unsigned(b)) == b;
      }
      assert Chars(bytes)[1..] == Chars(bytes[1..]);
      PlainChars(bytes[1..]);
      RenderAppend([b], bytes[1..]);
      assert [b] + bytes[1..] == bytes;
      assert Render([b]) == RenderByte(b) by {
        assert [b][..0] == [];
      }
    }
  }

  // ----- concat: deleting every \E\Q -----

  /** `replaceAll("\\\\E\\\\Q", "")`: every `\E\Q`, scanned left to right, is deleted. */
  function DeleteJoins(s: string): string
    decreases |s|
  {
    if |s| >= 4 && s[0] == '\\' && s[1] == 'E' && s[2] == '\\' && s[3] == 'Q' then DeleteJoins(s[4..])
    else if s == [] then ""
    else [s[0]] + DeleteJoins(s[1..])
  }

  lemma ReplaceKeep(c: char, z: string)
    requires c != '\\' || |z| < 3 || z[0] != 'E' || z[1] != '\\' || z[2] != 'Q'
    ensures DeleteJoins([c] + z) == [c] + DeleteJoins(z)
  {
    assert ([c] + z)[1..] == z;
  }

  lemma ReplaceDrop(z: string)
    ensures DeleteJoins(JOIN + z) == DeleteJoins(z)
  {
    assert (JOIN + z)[4..] == z;
  }

  lemma ReplaceEscape(b: Byte, z: string)
    ensures DeleteJoins(Escape(b) + z) == Escape(b) + DeleteJoins(z)
  {
    var e := Escape(b);
    EscapeHead(b);
    assert e + z == [e[0]] + ([e[1]] + ([e[2]] + ([e[3]] + z)));
    ReplaceKeep(e[3], z);
    ReplaceKeep(e[2], [e[3]] + z);
    ReplaceKeep(e[1], [e[2]] + ([e[3]] + z));
    ReplaceKeep(e[0], [e[1]] + ([e[2]] + ([e[3]] + z)));
  }

  lemma OpenShape(c: char, z: string)
    ensures OPEN + [c] + z == ['\\'] + (['Q'] + ([c] + z))
  {
  }

  lemma ReplaceOpen(c: char, z: string)
    requires c != '\\' || z == [] || z[0] != 'E'
    ensures DeleteJoins(OPEN + [c] + z) == OPEN + [c] + DeleteJoins(z)
  {
    var y, dz := [c] + z, DeleteJoins(z);
    calc {
      DeleteJoins(OPEN + [c] + z);
      { OpenShape(c, z); }
      DeleteJoins(['\\'] + (['Q'] + y));
      { ReplaceKeep('\\', ['Q'] + y); }
      ['\\'] + DeleteJoins(['Q'] + y);
      { ReplaceKeep('Q', y); }
      ['\\'] + (['Q'] + DeleteJoins(y));
      { ReplaceKeep(c, z); }
      ['\\'] + (['Q'] + ([c] + dz));
      { OpenShape(c, dz); }
      OPEN + [c] + dz;
    }
  }

  lemma ReplaceClose(b: Byte, z: string)
    ensures DeleteJoins(CLOSE + Escape(b) + z) == CLOSE + Escape(b) + DeleteJoins(z)
  {
    var e := Escape(b);
    var w := e + z;
    EscapeHead(b);
    assert w[0] == '\\' && w[1] == 'x';
    ReplaceKeep('E', w);
    ReplaceKeep('\\', ['E'] + w);
    assert CLOSE + e + z == ['\\'] + (['E'] + w);
    ReplaceEscape(b, z);
    assert ['\\'] + (['E'] + (e + DeleteJoins(z))) == CLOSE + e + DeleteJoins(z);
  }

  lemma QuoteUnfold(d: string, quoting: bool, text: bool)
    requires d != []
    ensures QuoteFrom(d, quoting, text) == QuoteChunk(d[0], quoting, text) + QuoteFrom(d[1..], Literal(d[0], text), text)
  {
  }

  /** `concat`'s deletion passes over what `quote` writes for one character. */
  lemma ReplaceChunk(c: char, quoting: bool, z: string)
    requires Literal(c, true) && c == '\\' ==> z == [] || z[0] != 'E'
    ensures DeleteJoins(QuoteChunk(c, quoting, true) + z) == QuoteChunk(c, quoting, true) + DeleteJoins(z)
  {
    if Literal(c, true) {
      if quoting {
        assert QuoteChunk(c, quoting, true) == [c];
        ReplaceKeep(c, z);
      } else {
        ReplaceOpen(c, z);
      }
    } else if quoting {
      ReplaceClose(LowByte(c), z);
    } else {
      assert QuoteChunk(c, quoting, true) == Escape(LowByte(c));
      ReplaceEscape(LowByte(c), z);
    }
  }

  /** What `quote` writes after an open `\Q` never starts with `E`. */
  lemma QuoteNotE(d: string, quoting: bool, w: string)
    requires NoQuoteTags(d) && (d == [] || !(d[0] == 'E'))
    requires w == [] || w[0] == '\\'
    ensures var z := QuoteFrom(d, quoting, true) + w; z == [] || z[0] != 'E'
  {
    if d != [] || quoting {
      QuoteHead(d, quoting);
    }
  }

  /** A quoted pattern never holds `\E\Q`, so `concat`'s deletion leaves it alone. */
  lemma {:induction false} ReplaceQuoted(d: string, quoting: bool)
    requires NoQuoteTags(d)
    ensures DeleteJoins(QuoteFrom(d, quoting, true)) == QuoteFrom(d, quoting, true)
    decreases |d|
  {
    if d != [] {
      var c := d[0];
      NoQuoteTagsTail(d);
      QuoteUnfold(d, quoting, true);
      var z := QuoteFrom(d[1..], Literal(c, true), true);
      ReplaceQuoted(d[1..], Literal(c, true));
      if Literal(c, true) && c == '\\' {
        QuoteNotE(d[1..], true, "");
        assert z + "" == z;
      }
      ReplaceChunk(c, quoting, z);
    }
  }

  lemma NoQuoteTagsSplit(a: string, b: string)
    requires NoQuoteTags(a + b)
    ensures NoQuoteTags(a) && NoQuoteTags(b)
  {
    forall i | 0 <= i < |b| - 1 && b[i] == '\\' ensures b[i + 1] != 'E' && b[i + 1] != 'Q' {
      assert (a + b)[|a| + i] == '\\' && (a + b)[|a| + i + 1] == b[i + 1];
    }
    forall i | 0 <= i < |a| - 1 && a[i] == '\\' ensures a[i + 1] != 'E' && a[i + 1] != 'Q' {
      assert (a + b)[i] == '\\' && (a + b)[i + 1] == a[i + 1];
    }
  }

  /** An `\E` ending the first pattern before a second that starts with a literal run. */
  lemma ConcatOpenLiteral(b: string)
    requires NoQuoteTags(b) && b != [] && Literal(b[0], true)
    ensures DeleteJoins(CLOSE + Quoted(b, true)) == QuoteFrom(b, true, true)
  {
    QuoteUnfold(b, false, true);
    QuoteUnfold(b, true, true);
    var z := QuoteFrom(b[1..], true, true);
    assert CLOSE + Quoted(b, true) == JOIN + ([b[0]] + z);
    ReplaceDrop([b[0]] + z);
    ReplaceQuoted(b, true);
  }

  /** An `\E` ending the first pattern before a second that starts with an escape. */
  lemma ConcatOpenEscape(b: string)
    requires NoQuoteTags(b) && b != [] && !Literal(b[0], true)
    ensures DeleteJoins(CLOSE + Quoted(b, true)) == QuoteFrom(b, true, true)
  {
    var e, z := Escape(LowByte(b[0])), QuoteFrom(b[1..], false, true);
    assert Quoted(b, true) == e + z by {
      QuoteUnfold(b, false, true);
      assert QuoteChunk(b[0], false, true) == e;
    }
    assert QuoteFrom(b, true, true) == CLOSE + e + z by {
      QuoteUnfold(b, true, true);
    }
    Assoc(CLOSE, e, z);
    ReplaceQuoted(b, true);
  }

  /** Where the first pattern ends: nothing, or an `\E` that a following `\Q` run absorbs. */
  lemma ConcatBase(b: string, quoting: bool)
    requires NoQuoteTags(b)
    ensures DeleteJoins(QuoteFrom([], quoting, true) + Quoted(b, true)) == QuoteFrom(b, quoting, true)
  {
    if !quoting {
      assert QuoteFrom([], quoting, true) + Quoted(b, true) == QuoteFrom(b, false, true);
      ReplaceQuoted(b, false);
    } else if b == [] {
      assert QuoteFrom([], quoting, true) + Quoted(b, true) == ['\\'] + (['E'] + []);
      ReplaceKeep('E', []);
      ReplaceKeep('\\', ['E']);
    } else if Literal(b[0], true) {
      ConcatOpenLiteral(b);
    } else {
      ConcatOpenEscape(b);
    }
  }

  /** After a literal backslash, what follows in `quote(a + b)` cannot start with `E`. */
  lemma ConcatNotE(a: string, b: string)
    requires NoQuoteTags(a + b) && a != [] && a[0] == '\\'
    ensures var z := QuoteFrom(a[1..], true, true) + Quoted(b, true); z == [] || z[0] != 'E'
  {
    NoQuoteTagsSplit(a, b);
    NoQuoteTagsTail(a + b);
    assert (a + b)[1..] == a[1..] + b;
    NoQuoteTagsSplit(a[1..], b);
    if a[1..] != [] {
      assert (a + b)[1] == a[1..][0];
    }
    if b != [] {
      QuoteHead(b, false);
    }
    QuoteNotE(a[1..], true, Quoted(b, true));
  }

  /** One character of `a` through `concat`'s deletion, with the second pattern after it. */
  lemma ConcatStep(a: string, b: string, quoting: bool)
    requires NoQuoteTags(a + b) && a != []
    ensures DeleteJoins(QuoteFrom(a, quoting, true) + Quoted(b, true))
      == QuoteChunk(a[0], quoting, true) + DeleteJoins(QuoteFrom(a[1..], Literal(a[0], true), true) + Quoted(b, true))
  {
    var c := a[0];
    var w := Quoted(b, true);
    var lit := Literal(c, true);
    var z := QuoteFrom(a[1..], lit, true) + w;
    assert QuoteFrom(a, quoting, true) + w == QuoteChunk(c, quoting, true) + z by {
      QuoteUnfold(a, quoting, true);
    }
    assert DeleteJoins(QuoteChunk(c, quoting, true) + z) == QuoteChunk(c, quoting, true) + DeleteJoins(z) by {
      if lit && c == '\\' {
        ConcatNotE(a, b);
      }
      ReplaceChunk(c, quoting, z);
    }
  }

  /** One character of `a + b` through `quote`. */
  lemma QuoteConsStep(a: string, b: string, quoting: bool)
    requires NoQuoteTags(a + b) && a != []
    ensures NoQuoteTags(a[1..] + b)
    ensures QuoteFrom(a + b, quoting, true)
      == QuoteChunk(a[0], quoting, true) + QuoteFrom(a[1..] + b, Literal(a[0], true), true)
  {
    var ab := a + b;
    assert ab[0] == a[0] && ab[1..] == a[1..] + b;
    NoQuoteTagsTail(ab);
    QuoteUnfold(ab, quoting, true);
  }

  /**
   * `concat` of two quoted patterns is the quoted concatenation: where the
   * first ends inside a `\Q` run and the second starts one, the `\E\Q` between
   * them is what `concat` deletes.
   */
  lemma {:induction false} ConcatQuoteFrom(a: string, b: string, quoting: bool)
    requires NoQuoteTags(a + b)
    ensures DeleteJoins(QuoteFrom(a, quoting, true) + Quoted(b, true)) == QuoteFrom(a + b, quoting, true)
    decreases |a|
  {
    if a == [] {
      NoQuoteTagsSplit(a, b);
      assert a + b == b;
      ConcatBase(b, quoting);
    } else {
      ConcatStep(a, b, quoting);
      QuoteConsStep(a, b, quoting);
      ConcatQuoteFrom(a[1..], b, Literal(a[0], true));
    }
  }

  /** `concat(quote(a), quote(b))` has the pattern `quote(a + b)`. */
  lemma ConcatQuoted(a: string, b: string)
    requires NoQuoteTags(a + b)
    ensures DeleteJoins(Quoted(a, true) + Quoted(b, true)) == Quoted(a + b, true)
  {
    ConcatQuoteFrom(a, b, false);
  }

  // ----- the literal searches -----

  /** The length of a `" "` or `"\r\n"` separator starting at `p`, or 0. */
  function SepLength(m: string, p: int): nat
    requires 0 <= p < |m|
  {
    if m[p] == ' ' then 1 else if m[p] == '\r' && p + 1 < |m| && m[p + 1] == '\n' then 2 else 0
  }

  /** `find(i)` of the alternation `" |\r\n"`: the first separator at or after `i`. */
  function FindSep(m: string, i: nat): (r: Option<(nat, nat)>)
    requires i <= |m|
    decreases |m| - i
    ensures r.Some? ==> i <= r.value.0 < r.value.1 <= |m| && SepLength(m, r.value.0) == r.value.1 - r.value.0
  {
    if i == |m| then None
    else if SepLength(m, i) > 0 then Some((i, i + SepLength(m, i)))
    else FindSep(m, i + 1)
  }

  /** No separator starts before the one `find` returns, and none at all when it finds nothing. */
  lemma {:induction false} FindSepFirst(m: string, i: nat)
    requires i <= |m|
    ensures FindSep(m, i).Some? ==> forall p :: i <= p < FindSep(m, i).value.0 ==> SepLength(m, p) == 0
    ensures FindSep(m, i).None? ==> forall p :: i <= p < |m| ==> SepLength(m, p) == 0
    decreases |m| - i
  {
    if i < |m| && SepLength(m, i) == 0 {
      FindSepFirst(m, i + 1);
    }
  }

  /** A backslash followed by `t` (the tag `\Q` or `\E`) starts at `i`. */
  predicate TagAt(m: string, t: char, i: int)
  {
    0 <= i && i + 1 < |m| && m[i] == '\\' && m[i + 1] == t
  }

  /** `indexOf` of the tag `\t` from `i`: an occurrence at or after `i`. */
  function FindTag(m: string, t: char, i: nat): (r: Option<nat>)
    decreases |m| - i
    ensures r.Some? ==> i <= r.value && TagAt(m, t, r.value)
  {
    if i + 1 >= |m| then None
    else if TagAt(m, t, i) then Some(i)
    else FindTag(m, t, i + 1)
  }

  /** `indexOf` returns the first occurrence, and finds nothing only when there is none. */
  lemma {:induction false} FindTagFirst(m: string, t: char, i: nat)
    ensures FindTag(m, t, i).Some? ==> forall p :: i <= p < FindTag(m, t, i).value ==> !TagAt(m, t, p)
    ensures FindTag(m, t, i).None? ==> forall p :: i <= p ==> !TagAt(m, t, p)
    decreases |m| - i
  {
    if i + 1 < |m| && !TagAt(m, t, i) {
      FindTagFirst(m, t, i + 1);
    }
  }

  /** `indexOf` finds an occurrence with none before it. */
  lemma {:induction false} FindTagAt(m: string, t: char, i: nat, k: nat)
    requires i <= k && TagAt(m, t, k)
    requires forall q :: i <= q < k ==> !TagAt(m, t, q)
    ensures FindTag(m, t, i) == Some(k)
    decreases k - i
  {
    if i < k {
      FindTagAt(m, t, i + 1, k);
    }
  }

  /**
   * `find(i)` of `\\Q(.*?)\\E` (dot matching newlines): the first `\Q` at or
   * after `i` that some later `\E` closes, up to the first such `\E`.
   */
  function FindQuote(m: string, i: nat): (r: Option<(nat, nat)>)
    ensures r.Some? ==> i <= r.value.0 && r.value.0 + 4 <= r.value.1 <= |m|
    ensures r.Some? ==> TagAt(m, 'Q', r.value.0) && TagAt(m, 'E', r.value.1 - 2)
  {
    match FindTag(m, 'Q', i)
    case None => None
    case Some(k) =>
      match FindTag(m, 'E', k + 2)
      case None => None
      case Some(e) => Some((k, e + 2))
  }

  /**
   * The span `find` returns opens at the first `\Q` and closes at the first
   * `\E` after it; it finds nothing only when no `\Q` has an `\E` after it.
   */
  lemma FindQuoteFirst(m: string, i: nat)
    ensures var r := FindQuote(m, i);
      r.Some? ==> forall p :: i <= p < r.value.0 ==> !TagAt(m, 'Q', p)
    ensures var r := FindQuote(m, i);
      r.Some? ==> forall p :: r.value.0 + 2 <= p < r.value.1 - 2 ==> !TagAt(m, 'E', p)
    ensures var r := FindQuote(m, i);
      r.None? ==> forall p, q :: i <= p && p + 2 <= q && TagAt(m, 'Q', p) ==> !TagAt(m, 'E', q)
  {
    FindTagFirst(m, 'Q', i);
    match FindTag(m, 'Q', i)
    case None =>
    case Some(k) =>
      FindTagFirst(m, 'E', k + 2);
      if FindTag(m, 'E', k + 2).None? {
        forall p, q | i <= p && p + 2 <= q && TagAt(m, 'Q', p) ensures !TagAt(m, 'E', q) {
          assert k <= p;
        }
      }
  }

  /** The three token patterns of the tokenizers. */
  datatype TokenPattern =
    | SpaceOrCrlf  // " |\r\n": every space or CRLF
    | QuotedSpan   // "\\Q(.*?)\\E"
    | AnyChar      // ".": every character

  /** `matcher.find(i)` for a token pattern: a non-empty match at or after `i`. */
  function FindToken(tp: TokenPattern, m: string, i: nat): (r: Option<(nat, nat)>)
    requires i <= |m|
    ensures r.Some? ==> i <= r.value.0 < r.value.1 <= |m|
  {
    match tp
    case SpaceOrCrlf => FindSep(m, i)
    case QuotedSpan => FindQuote(m, i)
    case AnyChar => if i < |m| then Some((i, i + 1)) else None
  }

  /**
   * The pieces `tokenize` cuts `m[i..]` into: the gap before each match (when
   * non-empty), the match itself, and finally whatever follows the last match.
   */
  function Split(tp: TokenPattern, m: string, i: nat): seq<string>
    requires i <= |m|
    decreases |m| - i
  {
    match FindToken(tp, m, i)
    case None => if i != |m| then [m[i..]] else []
    case Some((s, e)) => (if i < s then [m[i..s]] else []) + [m[s..e]] + Split(tp, m, e)
  }

  /** A list of one piece joins to that piece. */
  lemma FlattenOne<T>(x: seq<T>)
    ensures Flatten([x]) == x
  {
    assert [x][..0] == [];
  }

  /** The pieces before and at a match: the gap (when non-empty) and the match. */
  function Head(m: string, i: nat, s: nat, e: nat): seq<string>
    requires i <= s <= e <= |m|
  {
    (if i < s then [m[i..s]] else []) + [m[s..e]]
  }

  /** Split at a match is the head pieces followed by the split of the rest. */
  lemma SplitMatch(tp: TokenPattern, m: string, i: nat, s: nat, e: nat)
    requires i <= |m| && FindToken(tp, m, i) == Some((s, e))
    ensures i <= s < e <= |m|
    ensures Split(tp, m, i) == Head(m, i, s, e) + Split(tp, m, e)
  {
  }

  lemma HeadTiles(m: string, i: nat, s: nat, e: nat)
    requires i <= s < e <= |m|
    ensures Flatten(Head(m, i, s, e)) + m[e..] == m[i..]
    ensures forall k :: 0 <= k < |Head(m, i, s, e)| ==> Head(m, i, s, e)[k] != []
  {
    FlattenOne(m[s..e]);
    if i < s {
      FlattenAppend([m[i..s]], [m[s..e]]);
      FlattenOne(m[i..s]);
      assert m[i..] == m[i..s] + m[s..e] + m[e..];
    } else {
      assert m[i..] == m[s..e] + m[e..];
    }
  }

  /** The pieces tile the input: joined in order they give `m[i..]`. */
  lemma {:induction false} SplitTiles(tp: TokenPattern, m: string, i: nat)
    requires i <= |m|
    ensures Flatten(Split(tp, m, i)) == m[i..]
    decreases |m| - i
  {
    match FindToken(tp, m, i)
    case None =>
      if i != |m| {
        FlattenOne(m[i..]);
      }
    case Some((s, e)) =>
      SplitMatch(tp, m, i, s, e);
      SplitTiles(tp, m, e);
      HeadTiles(m, i, s, e);
      FlattenAppend(Head(m, i, s, e), Split(tp, m, e));
  }

  /** No piece of a split is empty. */
  lemma {:induction false} SplitNonEmpty(tp: TokenPattern, m: string, i: nat)
    requires i <= |m|
    ensures forall k :: 0 <= k < |Split(tp, m, i)| ==> Split(tp, m, i)[k] != []
    decreases |m| - i
  {
    match FindToken(tp, m, i)
    case None =>
    case Some((s, e)) =>
      SplitMatch(tp, m, i, s, e);
      SplitNonEmpty(tp, m, e);
      HeadTiles(m, i, s, e);
      var head := Head(m, i, s, e);
      var rest := Split(tp, m, e);
      forall k | 0 <= k < |head + rest| ensures (head + rest)[k] != [] {
        if k >= |head| {
          assert (head + rest)[k] == rest[k - |head|];
        } else {
          assert (head + rest)[k] == head[k];
        }
      }
  }

  /** A piece of the space/CRLF split with no separator in it. */
  predicate SeparatorFree(p: string)
  {
    forall k :: 0 <= k < |p| ==> SepLength(p, k) == 0
  }

  /**
   * Splitting at separators: every piece is a separator of its own, `" "` or
   * `"\r\n"`, or a gap holding no separator.
   */
  lemma {:induction false} SplitSeparators(m: string, i: nat)
    requires i <= |m|
    ensures forall k :: 0 <= k < |Split(SpaceOrCrlf, m, i)| ==>
      var p := Split(SpaceOrCrlf, m, i)[k]; p == " " || p == "\r\n" || SeparatorFree(p)
    decreases |m| - i
  {
    var pieces := Split(SpaceOrCrlf, m, i);
    assert FindToken(SpaceOrCrlf, m, i) == FindSep(m, i);
    FindSepFirst(m, i);
    match FindSep(m, i)
    case None =>
      if i != |m| {
        GapFree(m, i, |m|);
        assert FindToken(SpaceOrCrlf, m, i).None?;
        assert pieces == [m[i..]];
        assert m[i..] == m[i..|m|];
      }
    case Some((s, e)) =>
      SplitSeparators(m, e);
      var head := (if i < s then [m[i..s]] else []) + [m[s..e]];
      assert pieces == head + Split(SpaceOrCrlf, m, e);
      if i < s {
        GapFree(m, i, s);
      }
      assert m[s..e] == " " || m[s..e] == "\r\n" by {
        if SepLength(m, s) == 1 {
          assert m[s..e] == [m[s]];
        } else {
          assert m[s..e] == [m[s], m[s + 1]];
        }
      }
      forall k | 0 <= k < |pieces|
        ensures var p := pieces[k]; p == " " || p == "\r\n" || SeparatorFree(p)
      {
        if k >= |head| {
          assert pieces[k] == Split(SpaceOrCrlf, m, e)[k - |head|];
        }
      }
  }

  /** A stretch with no separator start in `m` has none as a piece either. */
  lemma GapFree(m: string, i: nat, s: nat)
    requires i <= s <= |m|
    requires forall p :: i <= p < s ==> SepLength(m, p) == 0
    ensures SeparatorFree(m[i..s])
  {
    var g := m[i..s];
    forall k | 0 <= k < |g| ensures SepLength(g, k) == 0 {
      assert g[k] == m[i + k];
      assert SepLength(m, i + k) == 0;
      if k + 1 < |g| {
        assert g[k + 1] == m[i + k + 1];
      }
    }
  }
}
