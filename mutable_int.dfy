// MutableInt: a boxed Java `int` that can be changed in place.
module MutableInts {
  import opened JavaTypes

  class MutableInt {
    var val: Int32

    /** `MutableInt()` starts at 0. */
    constructor ()
      ensures val == 0
    {
      val := 0;
    }

    /** `MutableInt(int)` stores its argument. */
    constructor WithValue(v: Int32)
      ensures val == v
    {
      val := v;
    }

    function GetValue(): Int32
      reads this
    {
      val
    }

    method SetValue(v: Int32)
      modifies this
      ensures GetValue() == v
    {
      val := v;
    }

    /** `inc()`: adds one with 32-bit wrap-around and returns the same object. */
    method Inc() returns (self: MutableInt)
      modifies this
      ensures self == this
      ensures val == Wrap32(old(val) + 1)
    {
      val := Wrap32(val + 1);
      self := this;
    }

    /** `dec()`: subtracts one with 32-bit wrap-around and returns the same object. */
    method Dec() returns (self: MutableInt)
      modifies this
      ensures self == this
      ensures val == Wrap32(old(val) - 1)
    {
      val := Wrap32(val - 1);
      self := this;
    }
  }

  /** `dec()` after `inc()` restores the value, also across the wrap-around. */
  lemma IncThenDec(v: Int32)
    ensures Wrap32(Wrap32(v + 1) - 1) == v
  {
    if v == 0x7FFF_FFFF {
      assert Wrap32(v + 1) == -0x8000_0000;
    }
  }

  /** `inc()` of the largest `int` gives the smallest. */
  lemma IncWraps()
    ensures Wrap32(0x7FFF_FFFF + 1) == -0x8000_0000
    ensures Wrap32(-0x8000_0000 - 1) == 0x7FFF_FFFF
  {
  }
}
