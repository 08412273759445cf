// traces.ByteChars: a read-only window (offset, length) onto a shared byte buffer,
// together with the byte classes and the `\xHH` escape the pattern code shares.
module Traces {
  import opened Wrappers
  import opened JavaTypes

  /** `isASCIIPrintable`: the signed byte lies in 32..126. */
  predicate IsPrintable(b: Byte) { 32 <= b <= 126 }

  /** `isASCIIAlpha`: an ASCII letter, upper or lower case. */
  predicate IsAlpha(b: Byte) { (65 <= b <= 90) || (97 <= b <= 122) }

  /** `isASCIIDigit`: an ASCII decimal digit. */
  predicate IsDigit(b: Byte) { 48 <= b <= 57 }

  /** `RegEx.escape`: a backslash, an `x` and the byte mod 256 as two upper-case hex digits. */
  function Escape(b: Byte): (s: string)
    ensures |s| == 4 && s[..2] == "\\x" && IsUpperHex(s[2]) && IsUpperHex(s[3])
    ensures HexValue(s[2]) * 16 + HexValue(s[3]) == Unsigned(b)
  {
    "\\x" + Hex2(b)
  }

  /** From an escape the byte is read back. */
  lemma EscapeInjective(a: Byte, b: Byte)
    requires Escape(a) == Escape(b)
    ensures a == b
  {
    assert Unsigned(a) == Unsigned(b);
    assert CastByte(Unsigned(a)) == a;
  }

  /** One byte as `ByteChars.toString` writes it. */
  function RenderByte(b: Byte): string
  {
    if IsPrintable(b) then [b as char] else Escape(b)
  }

  /** `ByteChars.toString` of the viewed bytes `s`. */
  function Render(s: seq<Byte>): string
  {
    if s == [] then "" else Render(s[..|s| - 1]) + RenderByte(s[|s| - 1])
  }

  lemma {:induction false} RenderAppend(s: seq<Byte>, t: seq<Byte>)
    ensures Render(s + t) == Render(s) + Render(t)
    decreases |t|
  {
    if t != [] {
      assert (s + t)[..|s + t| - 1] == s + t[..|t| - 1];
      assert (s + t)[|s + t| - 1] == t[|t| - 1];
      RenderAppend(s, t[..|t| - 1]);
    } else {
      assert s + t == s;
    }
  }

  /** Every byte occupies one character if printable and four if not. */
  lemma {:induction false} RenderLength(s: seq<Byte>)
    ensures |Render(s)| == |s| + 3 * NonPrintable(s)
  {
    if s != [] {
      RenderLength(s[..|s| - 1]);
    }
  }

  function NonPrintable(s: seq<Byte>): nat
  {
    if s == [] then 0 else NonPrintable(s[..|s| - 1]) + (if IsPrintable(s[|s| - 1]) then 0 else 1)
  }

  /** Printable text is rendered as itself. */
  lemma {:induction false} RenderPrintable(s: seq<Byte>)
    requires forall i :: 0 <= i < |s| ==> IsPrintable(s[i])
    ensures |Render(s)| == |s|
    ensures forall i :: 0 <= i < |s| ==> Render(s)[i] as int == s[i]
  {
    if s != [] {
      RenderPrintable(s[..|s| - 1]);
    }
  }

  /**
   * `equals` as the loop is written: the lengths agree and the pairs
   * `a[i], b[j]` agree for `i` running from `aOff` up to (not including) `len`.
   */
  predicate LoopAgrees(a: seq<Byte>, aOff: int, b: seq<Byte>, bOff: int, len: int)
    requires 0 <= aOff && 0 <= bOff && 0 <= len && aOff + len <= |a| && bOff + len <= |b|
  {
    forall i :: aOff <= i < len ==> a[i] == b[bOff + (i - aOff)]
  }

  class ByteChars {
    const buf: array<Byte>
    const off: Int32
    const len: Int32

    /** The window lies inside the buffer. */
    predicate Valid()
    {
      0 <= off && 0 <= len && off + len <= buf.Length < 0x8000_0000
    }

    /** The viewed bytes. */
    function View(): (s: seq<Byte>)
      requires Valid()
      reads buf
      ensures |s| == len
    {
      buf[off..off + len]
    }

    /** `ByteChars()`: an empty view over a fresh empty buffer. */
    constructor Empty()
      ensures Valid() && View() == [] && off == 0 && buf.Length == 0
      ensures fresh(buf)
    {
      buf := new Byte[0];
      off := 0;
      len := 0;
    }

    /** `ByteChars(byte[])`: the whole array. */
    constructor Of(arr: array<Byte>)
      requires arr.Length < 0x8000_0000
      ensures buf == arr && off == 0 && len == arr.Length
      ensures Valid() && View() == arr[..]
    {
      buf := arr;
      off := 0;
      len := arr.Length;
    }

    /** `ByteChars(byte[], int, int)`: stores the three arguments, unchecked. */
    constructor Window(arr: array<Byte>, offset: Int32, length: Int32)
      ensures buf == arr && off == offset && len == length
    {
      buf := arr;
      off := offset;
      len := length;
    }

    /** `charAt`: the byte `off + idx` read unsigned, or the array-bounds exception. */
    function CharAt(idx: Int32): (r: Result<char>)
      reads buf
      ensures r.Ok? <==> 0 <= off + idx < buf.Length
      ensures r.Ok? ==> r.value as int == Unsigned(buf[off + idx]) && r.value as int < 256
      ensures r.Ok? && Valid() && 0 <= idx < len ==> CastByte(r.value as int) == View()[idx]
    {
      if 0 <= off + idx < buf.Length then Ok(Unsigned(buf[off + idx]) as char)
      else Err(IndexOutOfBounds)
    }

    function Length(): Int32
    {
      len
    }

    /** `hashCode` is the length alone. */
    function HashCode(): Int32
    {
      len
    }

    /**
     * `subSequence(start, end)`: a new view sharing the buffer, offset moved by
     * `start`, length `end - start` (32-bit arithmetic, no bounds check).
     */
    method SubSequence(start: Int32, end: Int32) returns (r: ByteChars)
      ensures fresh(r)
      ensures r.buf == buf && r.off == Wrap32(off + start) && r.len == Wrap32(end - start)
      ensures Valid() && 0 <= start <= end <= len ==> r.Valid() && r.View() == View()[start..end]
    {
      r := new ByteChars.Window(buf, Wrap32(off + start), Wrap32(end - start));
      if Valid() && 0 <= start <= end <= len {
        assert r.View() == View()[start..end];
      }
    }

    /**
     * `getByteArray`: the backing buffer itself when the view covers all of
     * it, otherwise a fresh copy of the viewed bytes.
     */
    method GetByteArray() returns (r: array<Byte>)
      requires Valid()
      ensures r[..] == View()
      ensures off == 0 && len == buf.Length ==> r == buf
      ensures !(off == 0 && len == buf.Length) ==> fresh(r)
    {
      if off == 0 && len == buf.Length {
        r := buf;
      } else {
        r := new Byte[len];
        forall i | 0 <= i < len {
          r[i] := buf[off + i];
        }
      }
    }

    /** `toString`: printable bytes as characters, all others as `\xHH`. */
    method ToString() returns (s: string)
      requires Valid()
      ensures s == Render(View())
    {
      s := "";
      var i := off;
      while i < off + len
        invariant off <= i <= off + len
        invariant s == Render(buf[off..i])
      {
        assert buf[off..i + 1][..i - off] == buf[off..i];
        if IsPrintable(buf[i]) {
          s := s + [buf[i] as char];
        } else {
          s := s + Escape(buf[i]);
        }
        i := i + 1;
      }
      assert buf[off..off + len] == View();
    }

    /** `equals` against another ByteChars, exactly as its loop is written. */
    method EqualsAsWritten(other: ByteChars) returns (r: bool)
      requires Valid() && other.Valid()
      ensures r <==> len == other.len && LoopAgrees(buf[..], off, other.buf[..], other.off, len)
    {
      if len != other.len {
        return false;
      }
      var i := off;
      var j := other.off;
      while i < len
        invariant off <= i && j == other.off + (i - off)
        invariant i <= len || i == off
        invariant forall p :: off <= p < i ==> buf[p] == other.buf[other.off + (p - off)]
      {
        if buf[i] != other.buf[j] {
          return false;
        }
        i := i + 1;
        j := j + 1;
      }
      return true;
    }

    /** `equals` with the loop running over the whole window: equal views. */
    method Equals(other: ByteChars) returns (r: bool)
      requires Valid() && other.Valid()
      ensures r <==> View() == other.View()
      ensures r ==> HashCode() == other.HashCode()
    {
      if len != other.len {
        return false;
      }
      var i := off;
      var j := other.off;
      while i < off + len
        invariant off <= i <= off + len && j == other.off + (i - off)
        invariant forall p :: off <= p < i ==> buf[p] == other.buf[other.off + (p - off)]
      {
        if buf[i] != other.buf[j] {
          assert View()[i - off] != other.View()[i - off];
          return false;
        }
        i := i + 1;
        j := j + 1;
      }
      assert View() == other.View() by {
        forall k | 0 <= k < len ensures View()[k] == other.View()[k] {
          assert buf[off + k] == other.buf[other.off + ((off + k) - off)];
        }
      }
      return true;
    }
  }

  /**
   * `concat`: a fresh buffer holding the first view followed by the second,
   * or NegativeArraySizeException when the summed length wraps negative.
   */
  method Concat(arg0: ByteChars, arg1: ByteChars) returns (r: Result<ByteChars>)
    requires arg0.Valid() && arg1.Valid()
    ensures r.Err? <==> arg0.len + arg1.len >= 0x8000_0000
    ensures r.Err? ==> r.error == NegativeArraySize
    ensures r.Ok? ==> fresh(r.value) && fresh(r.value.buf) && r.value.off == 0 && r.value.Valid()
    ensures r.Ok? ==> r.value.View() == arg0.View() + arg1.View()
  {
    if arg0.len + arg1.len >= 0x8000_0000 {
      return Err(NegativeArraySize);
    }
    var data := new Byte[arg0.len + arg1.len];
    forall i | 0 <= i < arg0.len {
      data[i] := arg0.buf[arg0.off + i];
    }
    forall i | arg0.len <= i < data.Length {
      data[i] := arg1.buf[arg1.off + i - arg0.len];
    }
    var c := new ByteChars.Of(data);
    assert c.View() == arg0.View() + arg1.View();
    return Ok(c);
  }

  /**
   * With a non-zero offset the written loop compares too few pairs: the views
   * [1] and [2] of the buffers [0, 1] and [0, 2] (offset 1, length 1) pass it.
   */
  lemma EqualsAsWrittenCounterexample()
    ensures var a, b := [0, 1], [0, 2];
      LoopAgrees(a, 1, b, 1, 1) && a[1..2] != b[1..2]
  {
    var a, b := [0, 1], [0, 2];
    assert a[1..2] == [1] && b[1..2] == [2];
  }

  /** Over whole-window comparison, the written loop agrees when the offset is 0. */
  lemma LoopAgreesAtOffsetZero(a: seq<Byte>, b: seq<Byte>, bOff: int, len: int)
    requires 0 <= bOff && 0 <= len && len <= |a| && bOff + len <= |b|
    ensures LoopAgrees(a, 0, b, bOff, len) <==> a[..len] == b[bOff..bOff + len]
  {
    if LoopAgrees(a, 0, b, bOff, len) {
      assert forall k :: 0 <= k < len ==> a[..len][k] == b[bOff..bOff + len][k];
    }
    if a[..len] == b[bOff..bOff + len] {
      forall k | 0 <= k < len ensures a[k] == b[bOff + k] {
        assert a[..len][k] == b[bOff..bOff + len][k];
      }
    }
  }

  /** The written loop is implied by equal views: it never rejects equal windows. */
  lemma EqualViewsPassLoop(a: seq<Byte>, aOff: int, b: seq<Byte>, bOff: int, len: int)
    requires 0 <= aOff && 0 <= bOff && 0 <= len && aOff + len <= |a| && bOff + len <= |b|
    requires a[aOff..aOff + len] == b[bOff..bOff + len]
    ensures LoopAgrees(a, aOff, b, bOff, len)
  {
    forall i | aOff <= i < len ensures a[i] == b[bOff + (i - aOff)] {
      assert a[aOff..aOff + len][i - aOff] == b[bOff..bOff + len][i - aOff];
    }
  }
}
