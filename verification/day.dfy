/**
 * Time/Day.cs: a settable number of days and its integer conversions to
 * milliseconds, seconds and minutes.
 */
module Time {
  import opened Ints

  /** One day in milliseconds (the source's `_inMilliseconds`). */
  const InMilliseconds: int := 86_400_000

  class Day {
    /** The amount of days the conversions are done with; settable. */
    var count: Int32

    /** `Day(int count = 1)`: the explicit count. */
    constructor (count: Int32)
      ensures this.count == count
    {
      this.count := count;
    }

    /** `Day()`: the default argument gives one day. */
    constructor Default()
      ensures count == 1
    {
      count := 1;
    }

    /**
     * `Count * _inMilliseconds`, an `int` times a `long` evaluated in 64 bits:
     * no `int` count can make it wrap.
     */
    function Milliseconds(): (ms: Int64)
      reads this
      ensures ms == count * InMilliseconds
    {
      WrapInt64(count * InMilliseconds)
    }

    /** `Milliseconds / 1000` with C#'s truncating division: exactly 86400 per day. */
    function Seconds(): (s: Int64)
      reads this
      ensures s == count * 86_400
    {
      var ms := Milliseconds();
      var q := DivTrunc(ms, 1000);
      assert q * 1000 - ms == (q - count * 86_400) * 1000;
      q
    }

    /**
     * `Seconds / 60`, a `long` division whose result the source widens to
     * `double`; the value is exactly 1440 per day, well inside the integers a
     * `double` represents exactly.
     */
    function Minutes(): (m: Int64)
      reads this
      ensures m == count * 1440
    {
      var s := Seconds();
      var q := DivTrunc(s, 60);
      assert q * 60 - s == (q - count * 1440) * 60;
      q
    }

    /** The `Count` setter: every derived value follows the new count. */
    method SetCount(c: Int32)
      modifies this
      ensures count == c
      ensures Milliseconds() == c * InMilliseconds
      ensures Seconds() == c * 86_400 && Minutes() == c * 1440
    {
      count := c;
    }
  }
}
