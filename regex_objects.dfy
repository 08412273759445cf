// The pattern symbol of the src copy (src/automata/RegEx.java): an object
// holding a pattern text that `setPattern` replaces, the two static settings
// that choose how data is quoted and where `tokenize` cuts a message, and the
// operations built on them.
module RegExObjects {
  import opened Wrappers
  import opened JavaTypes
  import opened JavaStrings
  import opened Traces
  import opened PatternText

  /**
   * The static fields `IS_TEXT_BASED_PROTOCOL` and `PATTERN_TOKEN`, gathered
   * in one object that the operations depending on them are given.
   */
  class Settings {
    var textBased: bool
    var token: TokenPattern

    /** The initial values: text mode, and tokens cut at every space or CRLF. */
    constructor ()
      ensures textBased && token == SpaceOrCrlf
    {
      textBased, token := true, SpaceOrCrlf;
    }

    /**
     * `setTextBasedSupport(b)`: the mode is `b`, and the tokenizer now
     * cuts out quoted spans in text mode and every single character otherwise.
     */
    method SetTextBasedSupport(b: bool)
      modifies this
      ensures textBased == b
      ensures token == (if b then QuotedSpan else AnyChar)
    {
      textBased := b;
      if b {
        token := QuotedSpan;
      } else {
        token := AnyChar;
      }
    }
  }

  /** A pattern symbol; the compiled `Pattern` is represented by its text. */
  class RegEx {
    var pattern: string

    /** `new RegEx(String)` and `new RegEx(Pattern)`: the pattern as given. */
    constructor OfPattern(p: string)
      ensures pattern == p
    {
      pattern := p;
    }

    /** `new RegEx(CharSequence)`: the data quoted in the current mode. */
    constructor OfData(settings: Settings, d: string)
      ensures pattern == Quoted(d, settings.textBased)
    {
      var p := Quote(d, settings.textBased);
      pattern := p;
    }

    /** `setPattern(s)`: the pattern is replaced by `s`. */
    method SetPattern(s: string)
      modifies this
      ensures pattern == s
    {
      pattern := s;
    }

    /** `getPattern()`. */
    function GetPattern(): string
      reads this
    {
      pattern
    }

    /** `toString()`: the pattern with every `\E` and `\Q` deleted. */
    method ToString() returns (s: string)
      ensures s == Unquote(pattern)
    {
      s := Unquote(pattern);
    }

    /** `equals` against another symbol: the same pattern text. */
    predicate Equals(other: RegEx)
      reads this, other
    {
      pattern == other.pattern
    }

    /** `hashCode()`: the hash of the pattern text. */
    function HashCode(): Int32
      reads this
    {
      StringHash(pattern)
    }

    /** `clone()`: a new symbol with the same pattern, equal to this one. */
    method Clone() returns (c: RegEx)
      ensures fresh(c) && c.pattern == pattern
      ensures c.Equals(this) && this.Equals(c) && c.HashCode() == HashCode()
    {
      c := new RegEx.OfPattern(pattern);
    }
  }

  /** Equal symbols hash equally. */
  lemma EqualsHashCode(r0: RegEx, r1: RegEx)
    requires r0.Equals(r1)
    ensures r0.HashCode() == r1.HashCode()
    ensures r1.Equals(r0)
  {
  }

  /** `setPattern(s)` followed by `getPattern()` gives `s` back, and the printed symbol is `s` unquoted. */
  method SetThenGet(r: RegEx, s: string) returns (got: string, printed: string)
    modifies r
    ensures got == s && r.pattern == s
    ensures printed == Unquote(s)
  {
    r.SetPattern(s);
    got := r.GetPattern();
    printed := r.ToString();
  }

  /** The static `concat(r0, r1)`: a new symbol of the two patterns joined with every `\E\Q` deleted. */
  method Concat(r0: RegEx, r1: RegEx) returns (r: RegEx)
    ensures fresh(r) && r.pattern == DeleteJoins(r0.pattern + r1.pattern)
  {
    r := new RegEx.OfPattern(DeleteJoins(r0.pattern + r1.pattern));
  }

  // ----- quote in the two modes -----

  /** The escapes of every character, one after another. */
  function Escapes(d: string): string
  {
    if d == [] then "" else Escape(LowByte(d[0])) + Escapes(d[1..])
  }

  /**
   * Outside text mode `quote` opens no quoted span: from any position it
   * writes every character as its `\xHH` escape (closing a span if one was open).
   */
  lemma {:induction false} QuoteBinaryFrom(d: string, quoting: bool)
    ensures QuoteFrom(d, quoting, false) == (if quoting then CLOSE else "") + Escapes(d)
    decreases |d|
  {
    if d != [] {
      QuoteBinaryFrom(d[1..], false);
    }
  }

  /** Binary mode: `quote(d)` is the escape of every character, four characters each, in order. */
  lemma QuoteBinary(d: string)
    ensures Quoted(d, false) == Escapes(d)
    ensures |Quoted(d, false)| == 4 * |d|
  {
    QuoteBinaryFrom(d, false);
    EscapesLength(d);
  }

  lemma {:induction false} EscapesLength(d: string)
    ensures |Escapes(d)| == 4 * |d|
    decreases |d|
  {
    if d != [] {
      EscapesLength(d[1..]);
    }
  }

  /** A slice that lies past the prefix `h` of `h + r` is a slice of `r`. */
  lemma SliceAfterPrefix(h: string, r: string, i: nat, j: nat)
    requires |h| <= i <= j <= |h| + |r|
    ensures (h + r)[i..j] == r[i - |h|..j - |h|]
  {
  }

  /** Each character's escape sits at four times its index. */
  lemma {:induction false} EscapesAt(d: string, k: nat)
    requires k < |d|
    ensures |Escapes(d)| == 4 * |d|
    ensures Escapes(d)[4 * k..4 * k + 4] == Escape(LowByte(d[k]))
    decreases k
  {
    EscapesLength(d);
    if k > 0 {
      EscapesAt(d[1..], k - 1);
      var h := Escape(LowByte(d[0]));
      var r := Escapes(d[1..]);
      assert Escapes(d) == h + r;
      SliceAfterPrefix(h, r, 4 * k, 4 * k + 4);
    }
  }

  /** In binary mode the printed symbol of data is its escapes: there is no quote mark to delete. */
  lemma {:induction false} UnquoteEscapes(d: string)
    ensures Unquote(Escapes(d)) == Escapes(d)
    decreases |d|
  {
    if d != [] {
      UnquoteEscapes(d[1..]);
      UnquoteEscape(LowByte(d[0]), Escapes(d[1..]));
    }
  }

  /** In text mode the symbol of data without quote marks prints as the data with non-printable characters escaped. */
  lemma ToStringOfData(d: string)
    requires NoQuoteTags(d)
    ensures Unquote(Quoted(d, true)) == Plain(d)
  {
    UnquoteQuote(d, false);
  }

  /** In text mode concatenating the symbols of two pieces of data quotes the joined data. */
  lemma ConcatOfData(a: string, b: string)
    requires NoQuoteTags(a + b)
    ensures DeleteJoins(Quoted(a, true) + Quoted(b, true)) == Quoted(a + b, true)
  {
    ConcatQuoted(a, b);
  }

  // ----- tokenize -----

  /** New symbols for the pieces at a match: the gap when it is not empty, then the match. */
  method AppendHead(settings: Settings, tokens: seq<RegEx>, m: string, i: nat, s: nat, e: nat) returns (r: seq<RegEx>)
    requires i <= s < e <= |m|
    ensures |r| == |tokens| + |Head(m, i, s, e)| && r[..|tokens|] == tokens
    ensures forall k :: |tokens| <= k < |r| ==>
      fresh(r[k]) && r[k].pattern == Quoted(Head(m, i, s, e)[k - |tokens|], settings.textBased)
  {
    r := tokens;
    if i < s {
      var t := new RegEx.OfData(settings, m[i..s]);
      r := r + [t];
    }
    var t := new RegEx.OfData(settings, m[s..e]);
    r := r + [t];
  }

  /**
   * `tokenize(message, offset)`: one new symbol per piece the current
   * tokenizer cuts `message[offset..]` into, each quoting its piece in the
   * current mode; an offset outside the message makes `find` throw.
   */
  method Tokenize(settings: Settings, message: string, offset: int) returns (r: Result<seq<RegEx>>)
    ensures r.Err? <==> !(0 <= offset <= |message|)
    ensures r.Err? ==> r.error == IndexOutOfBounds
    ensures r.Ok? ==> |r.value| == |Split(settings.token, message, offset)|
    ensures r.Ok? ==> forall k :: 0 <= k < |r.value| ==>
      fresh(r.value[k]) && r.value[k].pattern == Quoted(Split(settings.token, message, offset)[k], settings.textBased)
  {
    if !(0 <= offset <= |message|) {
      return Err(IndexOutOfBounds);
    }
    var tp := settings.token;
    var text := settings.textBased;
    var tokens: seq<RegEx> := [];
    ghost var pieces: seq<string> := [];
    var i: nat := offset;
    var found := FindToken(tp, message, i);
    while found.Some?
      invariant offset <= i <= |message|
      invariant found == FindToken(tp, message, i)
      invariant pieces + Split(tp, message, i) == Split(tp, message, offset)
      invariant |tokens| == |pieces|
      invariant forall k :: 0 <= k < |tokens| ==> fresh(tokens[k]) && tokens[k].pattern == Quoted(pieces[k], text)
      decreases |message| - i
    {
      var start := found.value.0;
      var end := found.value.1;
      SplitMatch(tp, message, i, start, end);
      ghost var head := Head(message, i, start, end);
      Assoc(pieces, head, Split(tp, message, end));
      ghost var before := tokens;
      tokens := AppendHead(settings, tokens, message, i, start, end);
      assert forall k :: 0 <= k < |before| ==> tokens[k] == before[k];
      pieces := pieces + head;
      i := end;
      found := FindToken(tp, message, i);
    }
    if i != |message| {
      var t := new RegEx.OfData(settings, message[i..|message|]);
      assert message[i..|message|] == message[i..];
      tokens, pieces := tokens + [t], pieces + [message[i..]];
    }
    assert pieces == Split(tp, message, offset);
    return Ok(tokens);
  }

  /**
   * Whatever the settings, the pieces behind the tokens tile the message
   * from `offset`: joined in order they give `message[offset..]`, and none
   * is empty.
   */
  lemma TokenizeTiles(tp: TokenPattern, message: string, offset: nat)
    requires offset <= |message|
    ensures Flatten(Split(tp, message, offset)) == message[offset..]
    ensures forall k :: 0 <= k < |Split(tp, message, offset)| ==> Split(tp, message, offset)[k] != []
  {
    SplitTiles(tp, message, offset);
    SplitNonEmpty(tp, message, offset);
  }

  /** Outside text mode the tokenizer cuts out every character on its own. */
  lemma {:induction false} TokenizeBytes(message: string, i: nat)
    requires i <= |message|
    ensures |Split(AnyChar, message, i)| == |message| - i
    ensures forall k :: 0 <= k < |message| - i ==> Split(AnyChar, message, i)[k] == [message[i + k]]
    decreases |message| - i
  {
    if i < |message| {
      TokenizeBytes(message, i + 1);
      SplitMatch(AnyChar, message, i, i, i + 1);
      var rest := Split(AnyChar, message, i + 1);
      assert Split(AnyChar, message, i) == [message[i..i + 1]] + rest;
      assert message[i..i + 1] == [message[i]];
    }
  }
}
