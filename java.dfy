// Java's primitive types and the few java.lang operations the model relies on.
module JavaTypes {

  const TWO_32: int := 0x1_0000_0000

  /** A Java `byte`: signed, -128..127. */
  type Byte = x: int | -128 <= x < 128

  /** A Java `int`: signed 32-bit. */
  type Int32 = x: int | -0x8000_0000 <= x < 0x8000_0000

  /** Two's-complement wrap-around of an `int` computation. */
  function Wrap32(x: int): (r: Int32)
    ensures (r - x) % TWO_32 == 0
    ensures -0x8000_0000 <= x < 0x8000_0000 ==> r == x
  {
    (x + 0x8000_0000) % TWO_32 - 0x8000_0000
  }

  /** The cast `(byte) x`: keeps the low 8 bits, read as signed. */
  function CastByte(x: int): (r: Byte)
    ensures (r - x) % 256 == 0
    ensures -128 <= x < 128 ==> r == x
  {
    (x + 128) % 256 - 128
  }

  /** `b & 0xFF`: the byte read as unsigned. */
  function Unsigned(b: Byte): (r: int)
    ensures 0 <= r < 256 && (r - b) % 256 == 0
    ensures CastByte(r) == b
  {
    if b < 0 then b + 256 else b
  }

  /** Java's `a / d` for a positive divisor: the quotient truncated toward zero. */
  function Quot(a: int, d: int): int
    requires d > 0
  {
    if a >= 0 then a / d else -((-a) / d)
  }

  /** Java's `a % d` for a positive divisor: the remainder takes the sign of `a`. */
  function Rem(a: int, d: int): (r: int)
    requires d > 0
    ensures Quot(a, d) * d + r == a
    ensures a >= 0 ==> 0 <= r < d
    ensures a < 0 ==> -d < r <= 0
  {
    if a >= 0 then a % d else -((-a) % d)
  }

  function DigitChar(d: int): (c: char)
    requires 0 <= d < 10
    ensures '0' <= c <= '9' && c as int - '0' as int == d
  {
    ('0' as int + d) as char
  }

  /** Decimal digits of a non-negative number, most significant first. */
  function Digits(n: nat): (s: string)
    ensures |s| > 0
    ensures forall i :: 0 <= i < |s| ==> '0' <= s[i] <= '9'
  {
    if n < 10 then [DigitChar(n)] else Digits(n / 10) + [DigitChar(n % 10)]
  }

  /** `Integer.toString(n)`, which string concatenation with an `int` uses. */
  function Decimal(n: int): (s: string)
    ensures |s| > 0
  {
    if n < 0 then "-" + Digits(-n) else Digits(n)
  }

  /** Reads a string of decimal digits; the partner of `Digits`. */
  function ParseDigits(s: string): int
  {
    if s == [] then 0 else ParseDigits(s[..|s| - 1]) * 10 + (s[|s| - 1] as int - '0' as int)
  }

  lemma {:induction false} ParseDigitsInverse(n: nat)
    ensures ParseDigits(Digits(n)) == n
  {
    if n >= 10 {
      var s := Digits(n / 10) + [DigitChar(n % 10)];
      assert s[..|s| - 1] == Digits(n / 10);
      ParseDigitsInverse(n / 10);
    }
  }

  /** Only a negative number prints with a leading minus sign. */
  lemma DecimalSign(n: int)
    ensures Decimal(n)[0] == '-' <==> n < 0
  {
    if n >= 0 {
      assert '0' <= Digits(n)[0] <= '9';
    }
  }

  /** Distinct numbers print differently. */
  lemma DecimalInjective(m: int, n: int)
    requires Decimal(m) == Decimal(n)
    ensures m == n
  {
    DecimalSign(m);
    DecimalSign(n);
    if m < 0 {
      assert Decimal(m)[1..] == Digits(-m);
      assert Decimal(n)[1..] == Digits(-n);
      ParseDigitsInverse(-m);
      ParseDigitsInverse(-n);
    } else {
      ParseDigitsInverse(m);
      ParseDigitsInverse(n);
    }
  }

  /** An upper-case hexadecimal digit, as in `"0123456789ABCDEF"`. */
  function HexDigit(v: int): (c: char)
    requires 0 <= v < 16
    ensures ('0' <= c <= '9') || ('A' <= c <= 'F')
  {
    if v < 10 then ('0' as int + v) as char else ('A' as int + v - 10) as char
  }

  /** The value of an upper-case hexadecimal digit; the partner of `HexDigit`. */
  function HexValue(c: char): int
  {
    if '0' <= c <= '9' then c as int - '0' as int
    else if 'A' <= c <= 'F' then c as int - 'A' as int + 10
    else if 'a' <= c <= 'f' then c as int - 'a' as int + 10
    else -1
  }

  lemma HexValueOfDigit(v: int)
    requires 0 <= v < 16
    ensures HexValue(HexDigit(v)) == v
  {
  }

  /** A character `HexDigit` can produce. */
  predicate IsUpperHex(c: char)
  {
    ('0' <= c <= '9') || ('A' <= c <= 'F')
  }

  /** `String.format("%02X", b)` of a byte: two digits of `b` mod 256. */
  function Hex2(b: Byte): (s: string)
    ensures |s| == 2 && IsUpperHex(s[0]) && IsUpperHex(s[1])
    ensures HexValue(s[0]) * 16 + HexValue(s[1]) == Unsigned(b)
  {
    var u := Unsigned(b);
    HexValueOfDigit(u / 16);
    HexValueOfDigit(u % 16);
    [HexDigit(u / 16), HexDigit(u % 16)]
  }

  /** `String.hashCode()`: `h = 31 * h + c` over the characters, in 32-bit arithmetic. */
  function StringHash(s: string): Int32
  {
    if s == [] then 0 else Wrap32(31 * StringHash(s[..|s| - 1]) + s[|s| - 1] as int)
  }
}

// String operations of java.lang.String used with literal arguments.
module JavaStrings {

  predicate StartsWith(s: string, prefix: string)
  {
    |prefix| <= |s| && s[..|prefix|] == prefix
  }

  /**
   * `s.replaceAll(p, r)` for a regular expression that matches only the literal
   * text `pat` and a replacement without group references: matches are found
   * left to right and do not overlap.
   */
  function ReplaceAll(s: string, pat: string, rep: string): string
    requires |pat| > 0
    decreases |s|
  {
    if |s| < |pat| then s
    else if s[..|pat|] == pat then rep + ReplaceAll(s[|pat|..], pat, rep)
    else [s[0]] + ReplaceAll(s[1..], pat, rep)
  }

  /** `pat` occurs in `s` at index `i`. */
  predicate OccursAt(s: string, pat: string, i: int)
  {
    0 <= i && i + |pat| <= |s| && s[i..i + |pat|] == pat
  }

  /** No occurrence of `pat` in `s`. */
  predicate Free(s: string, pat: string)
  {
    forall i | 0 <= i <= |s| - |pat| :: !OccursAt(s, pat, i)
  }

  lemma {:induction false} ReplaceAllFree(s: string, pat: string, rep: string)
    requires |pat| > 0 && Free(s, pat)
    ensures ReplaceAll(s, pat, rep) == s
    decreases |s|
  {
    if |s| >= |pat| {
      assert !OccursAt(s, pat, 0);
      assert Free(s[1..], pat) by {
        forall i ensures !OccursAt(s[1..], pat, i) {
          assert !OccursAt(s, pat, i + 1);
          if 0 <= i && i + |pat| <= |s[1..]| {
            assert s[1..][i..i + |pat|] == s[i + 1..i + 1 + |pat|];
          }
        }
      }
      ReplaceAllFree(s[1..], pat, rep);
    }
  }

  /** The pieces of `list` joined in order (a StringBuffer appending each). */
  function Flatten<T>(list: seq<seq<T>>): seq<T>
  {
    if list == [] then [] else Flatten(list[..|list| - 1]) + list[|list| - 1]
  }

  /** Joining two lists joins their concatenations. */
  lemma {:induction false} FlattenAppend<T>(a: seq<seq<T>>, b: seq<seq<T>>)
    ensures Flatten(a + b) == Flatten(a) + Flatten(b)
    decreases |b|
  {
    if b != [] {
      assert (a + b)[..|a + b| - 1] == a + b[..|b| - 1];
      FlattenAppend(a, b[..|b| - 1]);
    } else {
      assert a + b == a;
    }
  }

  /** A slice is the slice one shorter followed by its last element. */
  /** A suffix cut at two points is the three slices between them. */
  lemma SliceThree<T>(s: seq<T>, i: int, j: int, k: int)
    requires 0 <= i <= j <= k <= |s|
    ensures s[i..] == s[i..j] + s[j..k] + s[k..]
  {
  }

  lemma SliceSnoc<T>(s: seq<T>, i: int, j: int)
    requires 0 <= i < j <= |s|
    ensures s[i..j] == s[i..j - 1] + [s[j - 1]]
  {
  }

  /** The pieces `f` gives for the elements of `xs`, joined in order. */
  function JoinMap<T, U>(f: T -> seq<U>, xs: seq<T>): seq<U>
  {
    if xs == [] then [] else JoinMap(f, xs[..|xs| - 1]) + f(xs[|xs| - 1])
  }

  /** Joining the pieces of `a + b` joins those of `a`, then those of `b`. */
  lemma {:induction false} JoinMapAppend<T, U>(f: T -> seq<U>, a: seq<T>, b: seq<T>)
    ensures JoinMap(f, a + b) == JoinMap(f, a) + JoinMap(f, b)
    decreases |b|
  {
    if b == [] {
      assert a + b == a;
    } else {
      assert (a + b)[..|a + b| - 1] == a + b[..|b| - 1];
      assert (a + b)[|a + b| - 1] == b[|b| - 1];
      JoinMapAppend(f, a, b[..|b| - 1]);
    }
  }

  /** Appending the piece of element `k` to the join of elements `i` to `k - 1` gives the join up to `k`. */
  lemma JoinMapStep<T, U>(f: T -> seq<U>, xs: seq<T>, i: int, k: int, sb: seq<U>, s: seq<U>)
    requires 0 <= i <= k < |xs|
    requires sb == JoinMap(f, xs[i..k]) && s == f(xs[k])
    ensures sb + s == JoinMap(f, xs[i..k + 1])
  {
    assert xs[i..k + 1][..k - i] == xs[i..k];
  }

  /** The join of one element is its piece. */
  lemma JoinMapSingle<T, U>(f: T -> seq<U>, x: T)
    ensures JoinMap(f, [x]) == f(x)
  {
    assert [x][..0] == [];
  }

  /**
   * Regrouping three strings. Stating it for opaque parts keeps the solver
   * from looking inside large definitions when only grouping changes.
   */
  lemma Assoc<T>(x: seq<T>, y: seq<T>, z: seq<T>)
    ensures x + y + z == x + (y + z)
  {
  }

  /** Regrouping four strings, likewise. */
  lemma Regroup<T>(x: seq<T>, y: seq<T>, z: seq<T>, w: seq<T>)
    ensures x + y + z + w == x + (y + z + w)
  {
  }

  /** `f` applied to every element, in order. */
  function MapSeq<A, B>(f: A -> B, s: seq<A>): (r: seq<B>)
    ensures |r| == |s| && forall k :: 0 <= k < |s| ==> r[k] == f(s[k])
  {
    if s == [] then [] else [f(s[0])] + MapSeq(f, s[1..])
  }

  /** Mapping distributes over concatenation. */
  lemma MapAppend<A, B>(f: A -> B, a: seq<A>, b: seq<A>)
    ensures MapSeq(f, a + b) == MapSeq(f, a) + MapSeq(f, b)
  {
  }
}
