// Timer: the static millisecond formatters (integer arithmetic only).
module Timer {
  import opened JavaTypes

  /** The hours, the leftover minutes and the leftover seconds of `ms`, as Java's `/` and `%` compute them. */
  datatype Breakdown = Breakdown(hours: int, minutes: int, seconds: int)

  function BreakDown(ms: Int32): (b: Breakdown)
    ensures ms >= 0 ==>
      b.hours >= 0 && 0 <= b.minutes < 60 && 0 <= b.seconds < 60 &&
      (b.hours * 3600 + b.minutes * 60 + b.seconds) * 1000 <= ms < (b.hours * 3600 + b.minutes * 60 + b.seconds) * 1000 + 1000
    ensures ms < 0 ==> b.hours <= 0 && -60 < b.minutes <= 0 && -60 < b.seconds <= 0
  {
    var total := Quot(ms, 1000);
    var hours := Quot(total, 3600);
    var rest := Rem(total, 3600);
    Breakdown(hours, Quot(rest, 60), Rem(rest, 60))
  }

  /**
   * `Timer.toString(int)`: "<h>h <m>m" when there are hours, else "<m>m <s>s"
   * when there are leftover seconds, else the raw "<ms>ms". In terms of the
   * milliseconds themselves: whole hours and leftover minutes from one hour
   * on; minutes and seconds when a part of a minute of at least one second is
   * left; the raw count for whole minutes and for negative counts.
   */
  function ToString(ms: Int32): (r: string)
    ensures ms >= 3600000 ==> r == Decimal(ms / 3600000) + "h " + Decimal(ms / 60000 % 60) + "m"
    ensures 0 <= ms < 3600000 && ms % 60000 >= 1000 ==> r == Decimal(ms / 60000) + "m " + Decimal(ms / 1000 % 60) + "s"
    ensures ms < 0 || (ms < 3600000 && ms % 60000 < 1000) ==> r == Decimal(ms) + "ms"
  {
    var b := BreakDown(ms);
    BreakDownUnits(ms);
    if b.hours > 0 then Decimal(b.hours) + "h " + Decimal(b.minutes) + "m"
    else if b.seconds > 0 then Decimal(b.minutes) + "m " + Decimal(b.seconds) + "s"
    else Decimal(ms) + "ms"
  }

  /** For a non-negative count the breakdown is the count in hours, minutes mod 60 and seconds mod 60. */
  lemma BreakDownUnits(ms: Int32)
    ensures ms >= 0 ==> BreakDown(ms) == Breakdown(ms / 3600000, ms / 60000 % 60, ms / 1000 % 60)
    ensures ms >= 0 ==> (BreakDown(ms).seconds > 0 <==> ms % 60000 >= 1000)
  {
    if ms >= 0 {
      var t := ms / 1000;
      assert ms == t * 1000 + ms % 1000;
      var h, m, s := t / 3600, t % 3600 / 60, t % 60;
      assert t == h * 3600 + m * 60 + s;
      assert ms == h * 3600000 + m * 60000 + s * 1000 + ms % 1000;
      assert ms / 3600000 == h;
      assert ms / 60000 == h * 60 + m;
      assert ms % 60000 == s * 1000 + ms % 1000;
    }
  }

  /** A whole number of minutes under an hour is printed in milliseconds. */
  lemma WholeMinutesPrintRaw(ms: Int32)
    requires 0 <= ms < 3600000 && ms % 60000 < 1000
    ensures ToString(ms) == Decimal(ms) + "ms"
  {
    var b := BreakDown(ms);
    assert b.hours == 0;
    assert b.seconds == 0;
  }

  /** For example, one minute is "60000ms" and a minute and a second is "1m 1s". */
  lemma ToStringExamples()
    ensures ToString(60000) == "60000ms"
    ensures ToString(61000) == "1m 1s"
    ensures ToString(3723000) == "1h 2m"
  {
    WholeMinutesPrintRaw(60000);
    assert Decimal(60000) == "60000";
    assert BreakDown(61000) == Breakdown(0, 1, 1);
    assert BreakDown(3723000) == Breakdown(1, 2, 3);
  }

  /**
   * The integer branches of `toStringFuzzy` (under an hour): the minutes
   * rounded up iff more than 30 seconds are left, or the seconds when there
   * are no whole minutes.
   */
  function ToStringFuzzy(ms: Int32): (r: string)
    requires ms < 3600000
    ensures var b := BreakDown(ms);
      (b.minutes > 0 ==> r == Decimal(b.minutes + (if b.seconds > 30 then 1 else 0)) + " min(s)") &&
      (b.minutes <= 0 ==> r == Decimal(b.seconds) + " sec(s)")
  {
    var b := BreakDown(ms);
    if b.minutes > 0 then
      Decimal(if b.seconds > 30 then b.minutes + 1 else b.minutes) + " min(s)"
    else Decimal(b.seconds) + " sec(s)"
  }

  /** The fuzzy form rounds to the nearest minute, halves going down. */
  lemma FuzzyRounds(ms: Int32)
    requires 60000 <= ms < 3600000
    ensures var m := Quot(ms, 1000) / 60 + (if Quot(ms, 1000) % 60 > 30 then 1 else 0);
      ToStringFuzzy(ms) == Decimal(m) + " min(s)" && -30 <= m * 60 - Quot(ms, 1000) < 30
  {
  }
}
