// Convert: big-endian codecs between Java ints and byte arrays, and renderings of bytes.
//
// An `int` is its 32-bit two's-complement pattern (bv32) and a `long` its 64-bit
// pattern (bv64). A `byte` is kept as the `int` Java widens it to before any
// arithmetic: a bv32 that is the sign extension of its low 8 bits.
module Convert {
  import opened Wrappers
  import opened JavaStrings
  import opened JavaTypes

  /** The patterns a `byte` widens to: 0..127 and -128..-1. */
  predicate IsByte(x: bv32)
  {
    x < 0x80 || x >= 0xFFFF_FF80
  }

  type JByte = x: bv32 | IsByte(x)

  // ----- Java's int operators -----

  /**
   * `u << (8 * i)` on an int. Java takes the shift distance mod 32, so only
   * `i mod 4` matters; each case shifts by a constant.
   */
  function ShlBytes(u: bv32, i: int): bv32
  {
    var q := i % 4;
    if q == 0 then u else if q == 1 then u << 8 else if q == 2 then u << 16 else u << 24
  }

  /** `x >> (8 * j)` on an int: arithmetic (sign-filling), the distance taken mod 32. */
  function SarBytes(x: bv32, j: int): bv32
  {
    var q := j % 4;
    var fill: bv32 := if x & 0x8000_0000 == 0 then 0 else 0xFFFF_FFFF;
    if q == 0 then x
    else if q == 1 then (x >> 8) | (fill & 0xFF00_0000)
    else if q == 2 then (x >> 16) | (fill & 0xFFFF_0000)
    else (x >> 24) | (fill & 0xFFFF_FF00)
  }

  /** The shift distance wraps: shifting by `8 * (i + 4)` is shifting by `8 * i`. */
  lemma ShiftsWrap(u: bv32, i: int)
    ensures ShlBytes(u, i + 4) == ShlBytes(u, i)
  {
    assert (i + 4) % 4 == i % 4;
  }

  lemma SarShiftsWrap(u: bv32, i: int)
    ensures SarBytes(u, i + 4) == SarBytes(u, i)
  {
    assert (i + 4) % 4 == i % 4;
  }

  /** Arithmetic right shift copies the sign bit. */
  lemma SarBytesSign(x: bv32, j: int)
    ensures SarBytes(x, j) & 0x8000_0000 == x & 0x8000_0000
  {
  }

  /** `(byte) x`: the low 8 bits, sign-extended. */
  function CastByte(x: bv32): (r: JByte)
    ensures r & 0xFF == x & 0xFF
  {
    if x & 0x80 == 0 then x & 0xFF else x | 0xFFFF_FF00
  }

  /** A byte is determined by its low 8 bits. */
  lemma CastByteOfLow(x: bv32, b: JByte)
    requires x & 0xFF == b & 0xFF
    ensures CastByte(x) == b
  {
    assert IsByte(b);
  }

  lemma CastByteSame(x: bv32, y: bv32)
    requires x & 0xFF == y & 0xFF
    ensures CastByte(x) == CastByte(y)
  {
  }

  /** `unsignedByteToInt(b)`, that is `b & 0xFF`. */
  function UnsignedByteToInt(b: JByte): (r: bv32)
    ensures r < 256
  {
    b & 0xFF
  }

  /** `(byte)(b & 0xFF) == b`. */
  lemma UnsignedByteRoundTrip(b: JByte)
    ensures CastByte(UnsignedByteToInt(b)) == b
  {
    assert IsByte(b);
  }

  // ----- toByteInPlace / toByte -----

  function Min(a: int, b: int): int
  {
    if a < b then a else b
  }

  /** The byte `toByteInPlace` stores at offset `i`: `(byte)((integer << i * 8) >> (n - 1) * 8)`. */
  function StoredByte(integer: bv32, n: int, i: int): JByte
  {
    CastByte(SarBytes(ShlBytes(integer, i), n - 1))
  }

  /** `toByteInPlace`: writes `min(n, 4)` bytes from `beginIndex` and nothing else. */
  method ToByteInPlace(converted: array<JByte>, beginIndex: int, sizeOfInt: Int32, integer: bv32)
    requires sizeOfInt > 0 ==> 0 <= beginIndex && beginIndex + Min(sizeOfInt, 4) <= converted.Length
    modifies converted
    ensures forall k :: 0 <= k < converted.Length ==>
      converted[k] == if beginIndex <= k < beginIndex + Min(sizeOfInt, 4)
                      then StoredByte(integer, sizeOfInt, k - beginIndex)
                      else old(converted[k])
  {
    var maxLength := if sizeOfInt > 4 then 4 else sizeOfInt;
    var i := 0;
    while i < maxLength
      invariant 0 <= i && (sizeOfInt > 0 ==> i <= Min(sizeOfInt, 4)) && (sizeOfInt <= 0 ==> i == 0)
      invariant forall k :: 0 <= k < converted.Length ==>
        converted[k] == if beginIndex <= k < beginIndex + i
                        then StoredByte(integer, sizeOfInt, k - beginIndex)
                        else old(converted[k])
    {
      converted[beginIndex + i] := CastByte(SarBytes(ShlBytes(integer, i), sizeOfInt - 1));
      i := i + 1;
    }
  }

  /** Byte `i` of `toByte(integer, n)`. */
  function StoredAt(integer: bv32, n: nat, i: nat): JByte
  {
    if i < 4 then StoredByte(integer, n, i) else 0
  }

  /** The first `k` bytes of `toByte(integer, n)`. */
  function StoredPrefix(integer: bv32, n: nat, k: nat): (s: seq<JByte>)
    ensures |s| == k
    ensures forall i :: 0 <= i < k ==> s[i] == StoredAt(integer, n, i)
  {
    if k == 0 then [] else StoredPrefix(integer, n, k - 1) + [StoredAt(integer, n, k - 1)]
  }

  /** The bytes `toByte(integer, n)` returns. */
  function ToByteSpec(integer: bv32, n: nat): (s: seq<JByte>)
    ensures |s| == n
  {
    StoredPrefix(integer, n, n)
  }

  /** `toByte`: a fresh zeroed array of `sizeOfInt` bytes filled by `toByteInPlace`. */
  method ToByte(integer: bv32, sizeOfInt: Int32) returns (r: Result<array<JByte>>)
    ensures sizeOfInt < 0 <==> r == Err(NegativeArraySize)
    ensures r.Ok? ==> fresh(r.value) && r.value[..] == ToByteSpec(integer, sizeOfInt)
  {
    if sizeOfInt < 0 {
      return Err(NegativeArraySize);
    }
    var converted := new JByte[sizeOfInt](_ => 0);
    ToByteInPlace(converted, 0, sizeOfInt, integer);
    assert forall k :: 0 <= k < sizeOfInt ==> converted[k] == ToByteSpec(integer, sizeOfInt)[k];
    return Ok(converted);
  }

  /** Only the low byte of a shift survives the cast, and there the fill bits do not reach. */
  lemma CastSar3(y: bv32) ensures CastByte(SarBytes(y, 3)) == CastByte(y >> 24) { SarLow3(y); CastByteSame(SarBytes(y, 3), y >> 24); }
  lemma CastSar2(y: bv32) ensures CastByte(SarBytes(y, 2)) == CastByte(y >> 16) { SarLow2(y); CastByteSame(SarBytes(y, 2), y >> 16); }
  lemma CastSar1(y: bv32) ensures CastByte(SarBytes(y, 1)) == CastByte(y >> 8) { SarLow1(y); CastByteSame(SarBytes(y, 1), y >> 8); }

  lemma SarLow3(x: bv32) ensures SarBytes(x, 3) & 0xFF == (x >> 24) & 0xFF { }
  lemma SarLow2(x: bv32) ensures SarBytes(x, 2) & 0xFF == (x >> 16) & 0xFF { }
  lemma SarLow1(x: bv32) ensures SarBytes(x, 1) & 0xFF == (x >> 8) & 0xFF { }

  // One stored byte at a time: each is a shift by constants and a cast.
  lemma Stored4At0(x: bv32) ensures StoredByte(x, 4, 0) == CastByte(x >> 24) { CastSar3(x); }
  lemma Stored4At1(x: bv32) ensures StoredByte(x, 4, 1) == CastByte(x >> 16)
  {
    var y := ShlBytes(x, 1);
    assert y == x << 8;
    CastSar3(y);
    assert (y >> 24) & 0xFF == (x >> 16) & 0xFF by { ShiftBack8_24(x); }
    CastByteSame(y >> 24, x >> 16);
  }
  lemma Stored4At2(x: bv32) ensures StoredByte(x, 4, 2) == CastByte(x >> 8)
  {
    var y := ShlBytes(x, 2);
    assert y == x << 16;
    CastSar3(y);
    assert (y >> 24) & 0xFF == (x >> 8) & 0xFF by { ShiftBack16_24(x); }
    CastByteSame(y >> 24, x >> 8);
  }
  lemma Stored4At3(x: bv32) ensures StoredByte(x, 4, 3) == CastByte(x)
  {
    var y := ShlBytes(x, 3);
    assert y == x << 24;
    CastSar3(y);
    assert (y >> 24) & 0xFF == (x) & 0xFF by { ShiftBack24_24(x); }
    CastByteSame(y >> 24, x);
  }
  lemma Stored3At0(x: bv32) ensures StoredByte(x, 3, 0) == CastByte(x >> 16) { CastSar2(x); }
  lemma Stored3At1(x: bv32) ensures StoredByte(x, 3, 1) == CastByte(x >> 8)
  {
    var y := ShlBytes(x, 1);
    assert y == x << 8;
    CastSar2(y);
    assert (y >> 16) & 0xFF == (x >> 8) & 0xFF by { ShiftBack8_16(x); }
    CastByteSame(y >> 16, x >> 8);
  }
  lemma Stored3At2(x: bv32) ensures StoredByte(x, 3, 2) == CastByte(x)
  {
    var y := ShlBytes(x, 2);
    assert y == x << 16;
    CastSar2(y);
    assert (y >> 16) & 0xFF == (x) & 0xFF by { ShiftBack16_16(x); }
    CastByteSame(y >> 16, x);
  }
  lemma Stored2At0(x: bv32) ensures StoredByte(x, 2, 0) == CastByte(x >> 8) { CastSar1(x); }
  lemma Stored2At1(x: bv32) ensures StoredByte(x, 2, 1) == CastByte(x)
  {
    var y := ShlBytes(x, 1);
    assert y == x << 8;
    CastSar1(y);
    assert (y >> 8) & 0xFF == (x) & 0xFF by { ShiftBack8_8(x); }
    CastByteSame(y >> 8, x);
  }
  lemma ShiftBack8_24(x: bv32) ensures ((x << 8) >> 24) & 0xFF == (x >> 16) & 0xFF { }
  lemma ShiftBack16_24(x: bv32) ensures ((x << 16) >> 24) & 0xFF == (x >> 8) & 0xFF { }
  lemma ShiftBack24_24(x: bv32) ensures ((x << 24) >> 24) & 0xFF == (x) & 0xFF { }
  lemma ShiftBack8_16(x: bv32) ensures ((x << 8) >> 16) & 0xFF == (x >> 8) & 0xFF { }
  lemma ShiftBack16_16(x: bv32) ensures ((x << 16) >> 16) & 0xFF == (x) & 0xFF { }
  lemma ShiftBack8_8(x: bv32) ensures ((x << 8) >> 8) & 0xFF == (x) & 0xFF { }
  lemma Stored5At0(x: bv32) ensures StoredByte(x, 5, 0) == CastByte(x) { }
  lemma Stored5At1(x: bv32) ensures StoredByte(x, 5, 1) == 0 { }
  lemma Stored5At2(x: bv32) ensures StoredByte(x, 5, 2) == 0 { }
  lemma Stored5At3(x: bv32) ensures StoredByte(x, 5, 3) == 0 { }

  /** Four bytes: the integer, most significant byte first. */
  lemma ToByteFour(x: bv32)
    ensures ToByteSpec(x, 4) == [CastByte(x >> 24), CastByte(x >> 16), CastByte(x >> 8), CastByte(x)]
  {
    Stored4At0(x); Stored4At1(x); Stored4At2(x); Stored4At3(x);
  }

  /** Three bytes: the low three bytes of the integer, most significant first. */
  lemma ToByteThree(x: bv32)
    ensures ToByteSpec(x, 3) == [CastByte(x >> 16), CastByte(x >> 8), CastByte(x)]
  {
    Stored3At0(x); Stored3At1(x); Stored3At2(x);
  }

  /** Two bytes: the low two bytes of the integer, most significant first. */
  lemma ToByteTwo(x: bv32)
    ensures ToByteSpec(x, 2) == [CastByte(x >> 8), CastByte(x)]
  {
    Stored2At0(x); Stored2At1(x);
  }

  /** One byte: the low byte of the integer. */
  lemma ToByteOne(x: bv32)
    ensures ToByteSpec(x, 1) == [CastByte(x)]
  {
  }

  /**
   * Five bytes: only four are written, and the right shift by 32 wraps to 0,
   * so the low byte of the integer comes first and zeros follow.
   */
  lemma ToByteFive(x: bv32)
    ensures ToByteSpec(x, 5) == [CastByte(x), 0, 0, 0, 0]
  {
    var s := ToByteSpec(x, 5);
    assert s[0] == CastByte(x) by { Stored5At0(x); }
    assert s[1] == 0 by { Stored5At1(x); }
    assert s[2] == 0 by { Stored5At2(x); }
    assert s[3] == 0 by { Stored5At3(x); }
  }

  // ----- toInteger / toInt32 / toLong -----

  /** The lane `toInteger` ORs in at step i: the byte i places from the end, shifted left by `i * 8`. */
  function Lane(s: seq<JByte>, i: nat): bv32
    requires i < |s|
  {
    ShlBytes(UnsignedByteToInt(s[|s| - 1 - i]), i)
  }

  /** The OR of the first `k` lanes. */
  function Lanes(s: seq<JByte>, k: nat): bv32
    requires k <= |s|
  {
    if k == 0 then 0 else Lanes(s, k - 1) | Lane(s, k - 1)
  }

  /** `toInteger(bytes, beginIndex, n)`. */
  method ToInteger(bytes: array<JByte>, beginIndex: int, sizeOfInt: Int32) returns (r: bv32)
    requires sizeOfInt > 0 ==> 0 <= beginIndex && beginIndex + sizeOfInt <= bytes.Length
    ensures sizeOfInt <= 0 ==> r == 0
    ensures sizeOfInt > 0 ==> r == Lanes(bytes[beginIndex..beginIndex + sizeOfInt], sizeOfInt)
  {
    var endIndex := beginIndex + sizeOfInt;
    r := 0;
    var i := 0;
    ghost var s := if sizeOfInt > 0 then bytes[beginIndex..beginIndex + sizeOfInt] else [];
    while i < sizeOfInt
      invariant 0 <= i && (sizeOfInt > 0 ==> i <= sizeOfInt)
      invariant endIndex == beginIndex + sizeOfInt - i
      invariant sizeOfInt > 0 ==> r == Lanes(s, i)
      invariant sizeOfInt <= 0 ==> r == 0
    {
      endIndex := endIndex - 1;
      assert s[|s| - 1 - i] == bytes[endIndex];
      r := r | ShlBytes(UnsignedByteToInt(bytes[endIndex]), i);
      i := i + 1;
    }
  }

  /** Four bytes OR together into one int, the first byte at the top. */
  lemma LanesFour(s: seq<JByte>)
    requires |s| == 4
    ensures Lanes(s, 4) == (UnsignedByteToInt(s[0]) << 24) | (UnsignedByteToInt(s[1]) << 16)
                         | (UnsignedByteToInt(s[2]) << 8) | UnsignedByteToInt(s[3])
  {
    assert Lanes(s, 1) == Lane(s, 0);
    assert Lanes(s, 3) == Lane(s, 0) | Lane(s, 1) | Lane(s, 2);
  }

  lemma LanesThree(s: seq<JByte>)
    requires |s| == 3
    ensures Lanes(s, 3) == (UnsignedByteToInt(s[0]) << 16) | (UnsignedByteToInt(s[1]) << 8) | UnsignedByteToInt(s[2])
  {
    assert Lanes(s, 1) == Lane(s, 0);
  }

  lemma LanesTwo(s: seq<JByte>)
    requires |s| == 2
    ensures Lanes(s, 2) == (UnsignedByteToInt(s[0]) << 8) | UnsignedByteToInt(s[1])
  {
    assert Lanes(s, 1) == Lane(s, 0);
  }

  /** `toInteger(toByte(x, 4), 0, 4) == x`. */
  lemma IntegerRoundTrip(x: bv32)
    ensures Lanes(ToByteSpec(x, 4), 4) == x
  {
    ToByteFour(x);
    LanesFour(ToByteSpec(x, 4));
  }

  /** With fewer than four bytes, `toInteger(toByte(x, n), 0, n)` keeps the low n bytes of x. */
  lemma ThreeIntegerRoundTrip(x: bv32)
    ensures Lanes(ToByteSpec(x, 3), 3) == x & 0xFF_FFFF
  {
    ToByteThree(x);
    LanesThree(ToByteSpec(x, 3));
  }

  lemma TwoIntegerRoundTrip(x: bv32)
    ensures Lanes(ToByteSpec(x, 2), 2) == x & 0xFFFF
  {
    ToByteTwo(x);
    LanesTwo(ToByteSpec(x, 2));
  }

  lemma OneIntegerRoundTrip(x: bv32)
    ensures Lanes(ToByteSpec(x, 1), 1) == x & 0xFF
  {
    ToByteOne(x);
  }

  /** `toByte(toInteger(s, 0, 4), 4) == s`: four bytes survive the trip through an int. */
  lemma BytesRoundTrip(s: seq<JByte>)
    requires |s| == 4
    ensures ToByteSpec(Lanes(s, 4), 4) == s
  {
    var x := Lanes(s, 4);
    LanesFour(s);
    ToByteFour(x);
    CastByteOfLow(x >> 24, s[0]);
    CastByteOfLow(x >> 16, s[1]);
    CastByteOfLow(x >> 8, s[2]);
    CastByteOfLow(x, s[3]);
  }

  /**
   * `toInt32(bytes)`: the first four bytes, big-endian; the same int as
   * `toInteger(bytes, 0, 4)`, from which `toByte(_, 4)` gives the four bytes back.
   */
  function ToInt32(bytes: seq<JByte>): (r: bv32)
    requires |bytes| >= 4
    ensures r == Lanes(bytes[..4], 4)
    ensures ToByteSpec(r, 4) == bytes[..4]
  {
    LanesFour(bytes[..4]);
    BytesRoundTrip(bytes[..4]);
    UnsignedByteToInt(bytes[3]) | (UnsignedByteToInt(bytes[2]) << 8)
      | (UnsignedByteToInt(bytes[1]) << 16) | (UnsignedByteToInt(bytes[0]) << 24)
  }

  /** An int widened to a long, copying its sign bit into the high half. */
  function SignExtend(x: bv32): bv64
  {
    if x & 0x8000_0000 == 0 then x as bv64 else (x as bv64) | 0xFFFF_FFFF_0000_0000
  }

  /** The term `toLong` ORs in at step i: an int-width lane, then sign-extended to a long. */
  function LongLane(s: seq<JByte>, i: nat): bv64
    requires i < |s|
  {
    SignExtend(Lane(s, i))
  }

  function LongLanes(s: seq<JByte>, k: nat): bv64
    requires k <= |s|
  {
    if k == 0 then 0 else LongLanes(s, k - 1) | LongLane(s, k - 1)
  }

  /** `toLong(bytes, index)`, as written: the shifts are done in int arithmetic. */
  method ToLong(bytes: array<JByte>, index: int) returns (r: bv64)
    requires 0 <= index && index + 8 <= bytes.Length
    ensures r == LongLanes(bytes[index..index + 8], 8)
  {
    var endIndex := index + 8;
    r := 0;
    ghost var s := bytes[index..index + 8];
    for i := 0 to 8
      invariant endIndex == index + 8 - i
      invariant r == LongLanes(s, i)
    {
      endIndex := endIndex - 1;
      ToLongStep(s, i, r, bytes[endIndex]);
      r := r | SignExtend(ShlBytes(UnsignedByteToInt(bytes[endIndex]), i));
    }
  }

  /** One step of `toLong`'s loop adds the next lane. */
  lemma ToLongStep(s: seq<JByte>, i: nat, r: bv64, b: JByte)
    requires i < |s| && b == s[|s| - 1 - i] && r == LongLanes(s, i)
    ensures r | SignExtend(ShlBytes(UnsignedByteToInt(b), i)) == LongLanes(s, i + 1)
  {
  }

  /** The low byte of a widened byte, as a long. */
  function LongByte(b: JByte): (r: bv64)
    ensures r < 256
  {
    (b & 0xFF) as bv64
  }

  /** The first `k` bytes of `s` as one big-endian long. */
  function BigEndian64(s: seq<JByte>, k: nat): bv64
    requires k <= |s|
  {
    if k == 0 then 0 else (BigEndian64(s, k - 1) << 8) | LongByte(s[k - 1])
  }

  /**
   * `toLong` is not an 8-byte decode: the int shift distance wraps at 32, so
   * 00 00 00 01 00 00 00 00 and 00 00 00 00 00 00 00 01 both give 1.
   */
  lemma ToLongCounterexample()
    ensures LongLanes([0, 0, 0, 1, 0, 0, 0, 0], 8) == 1
    ensures LongLanes([0, 0, 0, 0, 0, 0, 0, 1], 8) == 1
  {
    var s: seq<JByte> := [0, 0, 0, 1, 0, 0, 0, 0];
    assert LongLanes(s, 4) == 0;
    assert LongLanes(s, 5) == 1;
    assert LongLanes(s, 8) == 1;
    var t: seq<JByte> := [0, 0, 0, 0, 0, 0, 0, 1];
    assert LongLanes(t, 1) == 1;
    assert LongLanes(t, 4) == 1;
    assert LongLanes(t, 8) == 1;
  }

  /** The evidently intended `toLong`: the shifts done in long arithmetic. */
  method ToLongBigEndian(bytes: array<JByte>, index: int) returns (r: bv64)
    requires 0 <= index && index + 8 <= bytes.Length
    ensures r == BigEndian64(bytes[index..index + 8], 8)
  {
    ghost var s := bytes[index..index + 8];
    r := 0;
    var i := 0;
    while i < 8
      invariant 0 <= i <= 8
      invariant r == BigEndian64(s, i)
    {
      assert s[i] == bytes[index + i];
      r := (r << 8) | LongByte(bytes[index + i]);
      i := i + 1;
    }
  }

  /** The corrected decode tells the two inputs apart: the first is 2^32. */
  lemma ToLongBigEndianSeparates()
    ensures BigEndian64([0, 0, 0, 1, 0, 0, 0, 0], 8) == 0x1_0000_0000
    ensures BigEndian64([0, 0, 0, 0, 0, 0, 0, 1], 8) == 1
  {
    var s: seq<JByte> := [0, 0, 0, 1, 0, 0, 0, 0];
    assert BigEndian64(s, 3) == 0;
    assert BigEndian64(s, 4) == 1;
    assert BigEndian64(s, 6) == 0x1_0000;
    assert BigEndian64(s, 8) == 0x1_0000_0000;
    var t: seq<JByte> := [0, 0, 0, 0, 0, 0, 0, 1];
    assert BigEndian64(t, 3) == 0;
    assert BigEndian64(t, 6) == 0;
    assert BigEndian64(t, 8) == 1;
  }

  // ----- renderings -----

  const HEXES: string := "0123456789ABCDEF"

  /** `HEXES.charAt(v)` for a nibble. */
  function HexChar(v: bv32): char
    requires v < 16
  {
    if v == 0 then '0' else if v == 1 then '1' else if v == 2 then '2' else if v == 3 then '3'
    else if v == 4 then '4' else if v == 5 then '5' else if v == 6 then '6' else if v == 7 then '7'
    else if v == 8 then '8' else if v == 9 then '9' else if v == 10 then 'A' else if v == 11 then 'B'
    else if v == 12 then 'C' else if v == 13 then 'D' else if v == 14 then 'E' else 'F'
  }

  /** The nibble of a hex digit; the partner of `HexChar`. */
  function HexNibble(c: char): bv32
  {
    if c == '0' then 0 else if c == '1' then 1 else if c == '2' then 2 else if c == '3' then 3
    else if c == '4' then 4 else if c == '5' then 5 else if c == '6' then 6 else if c == '7' then 7
    else if c == '8' then 8 else if c == '9' then 9 else if c == 'A' then 10 else if c == 'B' then 11
    else if c == 'C' then 12 else if c == 'D' then 13 else if c == 'E' then 14 else 15
  }

  lemma HexNibbleOfChar(v: bv32)
    requires v < 16
    ensures HexNibble(HexChar(v)) == v && HexChar(v) in HEXES
  {
  }

  /** The two characters `toHexadecimalString` appends for a byte. */
  function HexPair(b: JByte): string
  {
    [HexChar((b & 0xF0) >> 4), HexChar(b & 0x0F)]
  }

  /** Two upper-case hex digits per byte, high nibble first. */
  function HexOf(data: seq<JByte>): (s: string)
    ensures |s| == 2 * |data|
  {
    if data == [] then [] else HexOf(data[..|data| - 1]) + HexPair(data[|data| - 1])
  }

  /** Reads back pairs of hex digits as unsigned byte values; the partner of `HexOf`. */
  function ParseHex(s: string): seq<bv32>
  {
    if |s| < 2 then [] else ParseHex(s[..|s| - 2]) + [(HexNibble(s[|s| - 2]) << 4) | HexNibble(s[|s| - 1])]
  }

  lemma PairRoundTrip(b: JByte)
    ensures (HexNibble(HexPair(b)[0]) << 4) | HexNibble(HexPair(b)[1]) == UnsignedByteToInt(b)
  {
    HexNibbleOfChar((b & 0xF0) >> 4);
    HexNibbleOfChar(b & 0x0F);
  }

  /** Parsing the hex string gives back every byte's unsigned value. */
  lemma {:induction false} ParseHexOf(data: seq<JByte>)
    ensures var p := ParseHex(HexOf(data));
      |p| == |data| && forall i :: 0 <= i < |data| ==> p[i] == UnsignedByteToInt(data[i])
  {
    if data != [] {
      var init := data[..|data| - 1];
      var b := data[|data| - 1];
      ParseHexOf(init);
      var s := HexOf(data);
      assert s[..|s| - 2] == HexOf(init);
      assert s[|s| - 2..] == HexPair(b);
      PairRoundTrip(b);
      var p := ParseHex(s);
      forall i | 0 <= i < |data| ensures p[i] == UnsignedByteToInt(data[i]) {
        if i < |data| - 1 {
          assert data[i] == init[i];
        }
      }
    }
  }

  /** `toHexadecimalString`: null gives null. */
  method ToHexadecimalString(data: array?<JByte>) returns (r: Option<string>)
    ensures data == null <==> r == None
    ensures data != null ==> r == Some(HexOf(data[..]))
  {
    if data == null {
      return None;
    }
    var hex := "";
    var i := 0;
    while i < data.Length
      invariant 0 <= i <= data.Length
      invariant hex == HexOf(data[..i])
    {
      var b := data[i];
      assert data[..i + 1][..i] == data[..i];
      hex := hex + [HexChar((b & 0xF0) >> 4)] + [HexChar(b & 0x0F)];
      i := i + 1;
    }
    assert data[..data.Length] == data[..];
    return Some(hex);
  }

  /** `1 << bit` for a bit position of a byte. */
  function BitMask(bit: int): (m: bv32)
    requires 0 <= bit < 8
    ensures m < 256 && m != 0
  {
    if bit == 0 then 0x01 else if bit == 1 then 0x02 else if bit == 2 then 0x04 else if bit == 3 then 0x08
    else if bit == 4 then 0x10 else if bit == 5 then 0x20 else if bit == 6 then 0x40 else 0x80
  }

  /** The digit for bit `bit` of a byte. */
  function BitChar(b: JByte, bit: int): char
    requires 0 <= bit < 8
  {
    if b & BitMask(bit) != 0 then '1' else '0'
  }

  /** The first `k` binary digits of a byte, bit 7 first. */
  function BitsDown(b: JByte, k: nat): string
    requires k <= 8
  {
    if k == 0 then [] else BitsDown(b, k - 1) + [BitChar(b, 8 - k)]
  }

  lemma {:induction false} BitsDownLength(b: JByte, k: nat)
    requires k <= 8
    ensures |BitsDown(b, k)| == k
  {
    if k > 0 {
      BitsDownLength(b, k - 1);
    }
  }

  /** The 8 binary digits of a byte, bit 7 first. */
  function BitsOf(b: JByte): (s: string)
    ensures |s| == 8
  {
    BitsDownLength(b, 8);
    BitsDown(b, 8)
  }

  lemma BitsOfList(b: JByte)
    ensures BitsOf(b) == [BitChar(b, 7), BitChar(b, 6), BitChar(b, 5), BitChar(b, 4),
                          BitChar(b, 3), BitChar(b, 2), BitChar(b, 1), BitChar(b, 0)]
  {
    var d := BitsDown(b, 0);
    d := d + [BitChar(b, 7)];
    assert d == BitsDown(b, 1);
    d := d + [BitChar(b, 6)];
    assert d == BitsDown(b, 2);
    d := d + [BitChar(b, 5)];
    assert d == BitsDown(b, 3);
    d := d + [BitChar(b, 4)];
    assert d == BitsDown(b, 4);
    d := d + [BitChar(b, 3)];
    assert d == BitsDown(b, 5);
    d := d + [BitChar(b, 2)];
    assert d == BitsDown(b, 6);
    d := d + [BitChar(b, 1)];
    assert d == BitsDown(b, 7);
    d := d + [BitChar(b, 0)];
    assert d == BitsDown(b, 8);
  }

  function BinaryOf(data: seq<JByte>): (s: string)
    ensures |s| == 8 * |data|
  {
    if data == [] then [] else BinaryOf(data[..|data| - 1]) + BitsOf(data[|data| - 1])
  }

  /** Reads 8 binary digits back as an unsigned byte value; the partner of `BitsOf`. */
  function ParseBits(s: string): bv32
    requires |s| == 8
  {
    (if s[0] == '1' then 0x80 else 0) | (if s[1] == '1' then 0x40 else 0) | (if s[2] == '1' then 0x20 else 0)
    | (if s[3] == '1' then 0x10 else 0) | (if s[4] == '1' then 0x08 else 0) | (if s[5] == '1' then 0x04 else 0)
    | (if s[6] == '1' then 0x02 else 0) | (if s[7] == '1' then 0x01 else 0)
  }

  lemma BitsRoundTrip(b: JByte)
    ensures ParseBits(BitsOf(b)) == UnsignedByteToInt(b)
  {
    BitsOfList(b);
  }

  /** `toBinaryString`: for each byte, its bits from bit 7 down to bit 0. */
  method ToBinaryString(data: array<JByte>) returns (r: string)
    ensures r == BinaryOf(data[..])
  {
    r := "";
    var i := 0;
    while i < data.Length
      invariant 0 <= i <= data.Length
      invariant r == BinaryOf(data[..i])
    {
      ghost var before := r;
      ghost var b := data[i];
      var bit := 7;
      while bit >= 0
        invariant -1 <= bit <= 7
        invariant r == before + BitsDown(b, 7 - bit)
      {
        assert BitsDown(b, 8 - bit) == BitsDown(b, 7 - bit) + [BitChar(b, bit)];
        if data[i] & BitMask(bit) != 0 {
          r := r + "1";
        } else {
          r := r + "0";
        }
        bit := bit - 1;
      }
      assert data[..i + 1][..i] == data[..i];
      i := i + 1;
    }
    assert data[..data.Length] == data[..];
  }

  // ----- strings -----

  /** `concatArrayList`: the strings joined in list order. */
  method ConcatArrayList(list: seq<string>) returns (r: string)
    ensures r == Flatten(list)
  {
    r := "";
    var i := 0;
    while i < |list|
      invariant 0 <= i <= |list|
      invariant r == Flatten(list[..i])
    {
      assert list[..i + 1][..i] == list[..i];
      r := r + list[i];
      i := i + 1;
    }
    assert list[..|list|] == list;
  }

  /** The form-feed character. */
  const FORM_FEED: char := 12 as char

  /** `sanitize`: `\n`, `\r`, `\f`, `\t` and `\0` become the characters they name, in that order. */
  function Sanitize(s: string): (r: string)
    ensures Free(s, "\\") ==> r == s
  {
    var s1 := ReplaceAll(s, "\\n", "\n");
    var s2 := ReplaceAll(s1, "\\r", "\r");
    var s3 := ReplaceAll(s2, "\\f", [FORM_FEED]);
    var s4 := ReplaceAll(s3, "\\t", "\t");
    SanitizeFree(s);
    ReplaceAll(s4, "\\0", "\0")
  }

  lemma SanitizeFree(s: string)
    ensures Free(s, "\\") ==> ReplaceAll(ReplaceAll(ReplaceAll(ReplaceAll(ReplaceAll(s, "\\n", "\n"), "\\r", "\r"), "\\f", [FORM_FEED]), "\\t", "\t"), "\\0", "\0") == s
  {
    if Free(s, "\\") {
      FreeOfLonger(s, "\\n");
      ReplaceAllFree(s, "\\n", "\n");
      FreeOfLonger(s, "\\r");
      ReplaceAllFree(s, "\\r", "\r");
      FreeOfLonger(s, "\\f");
      ReplaceAllFree(s, "\\f", [FORM_FEED]);
      FreeOfLonger(s, "\\t");
      ReplaceAllFree(s, "\\t", "\t");
      FreeOfLonger(s, "\\0");
      ReplaceAllFree(s, "\\0", "\0");
    }
  }

  /** Text without a backslash holds no two-character escape. */
  lemma FreeOfLonger(s: string, pat: string)
    requires |pat| == 2 && pat[0] == '\\' && Free(s, "\\")
    ensures Free(s, pat)
  {
    forall i | 0 <= i <= |s| - |pat| ensures !OccursAt(s, pat, i) {
      assert !OccursAt(s, "\\", i);
      assert s[i..i + 1] == [s[i]];
      assert s[i..i + 2][0] == s[i];
    }
  }
}
