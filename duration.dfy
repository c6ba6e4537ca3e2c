/** Elapsed minutes between two validated clock times, rolling over past
    midnight when the end is earlier than the start. */
module Duration {
  import opened TimeFormat

  const SecondsPerDay: int := 86400

  /** The `seconds` part of a time difference: a difference is normalised to
      whole days plus a remainder in [0, 86400), with the days rounded down. */
  function DeltaSeconds(delta: int): (r: nat)
    ensures r < SecondsPerDay
    ensures (delta - r) % SecondsPerDay == 0
  {
    delta % SecondsPerDay
  }

  /** The duration calculator: both times are parsed onto one reference day;
      an end strictly earlier than the start moves to the following day; the
      result is the `seconds` part of the difference, divided down to whole
      minutes.  Equal times do not roll over. */
  function CalculateDuration(start: string, end: string): (d: nat)
    requires ValidTime(start) && ValidTime(end)
    ensures d < MinutesPerDay
    ensures d == (MinutesOfDay(end) - MinutesOfDay(start)) % MinutesPerDay
  {
    var s := MinutesOfDay(start);
    var e := MinutesOfDay(end);
    var e' := if e < s then e + MinutesPerDay else e;
    WholeMinutes(e' - s);
    DayRemainder(e - s, e' - s);
    DeltaSeconds((e' - s) * 60) / 60
  }

  /** Less than a day of minutes, taken as seconds, survives normalisation. */
  lemma WholeMinutes(n: int)
    requires 0 <= n < MinutesPerDay
    ensures DeltaSeconds(n * 60) / 60 == n
  {
  }

  lemma DayRemainder(x: int, n: int)
    requires 0 <= n < MinutesPerDay
    requires n == x || n == x + MinutesPerDay
    ensures x % MinutesPerDay == n
  {
  }

  /** An end no earlier than the start gives the plain difference. */
  lemma SameDay(start: string, end: string)
    requires ValidTime(start) && ValidTime(end)
    requires MinutesOfDay(start) <= MinutesOfDay(end)
    ensures CalculateDuration(start, end) == MinutesOfDay(end) - MinutesOfDay(start)
  {
  }

  /** An end earlier than the start rolls over midnight. */
  lemma Rollover(start: string, end: string)
    requires ValidTime(start) && ValidTime(end)
    requires MinutesOfDay(end) < MinutesOfDay(start)
    ensures CalculateDuration(start, end) == MinutesPerDay - (MinutesOfDay(start) - MinutesOfDay(end))
    ensures CalculateDuration(start, end) > 0
  {
  }

  /** Equal times give zero minutes, never a whole day; and zero happens only
      for equal times. */
  lemma ZeroOnlyForEqualTimes(start: string, end: string)
    requires ValidTime(start) && ValidTime(end)
    ensures CalculateDuration(start, end) == 0 <==> MinutesOfDay(start) == MinutesOfDay(end)
  {
  }

  /** Going from a to b and then from b to c takes as long as going from a
      to c, up to whole days (a property of the model beyond what the
      planner promises). */
  lemma Additive(a: string, b: string, c: string)
    requires ValidTime(a) && ValidTime(b) && ValidTime(c)
    ensures (CalculateDuration(a, b) + CalculateDuration(b, c)) % MinutesPerDay == CalculateDuration(a, c)
  {
    var x, y, z := MinutesOfDay(a), MinutesOfDay(b), MinutesOfDay(c);
    var d1 := if y < x then MinutesPerDay - (x - y) else y - x;
    var d2 := if z < y then MinutesPerDay - (y - z) else z - y;
    var d3 := if z < x then MinutesPerDay - (x - z) else z - x;
    if y < x { Rollover(a, b); } else { SameDay(a, b); }
    if z < y { Rollover(b, c); } else { SameDay(b, c); }
    if z < x { Rollover(a, c); } else { SameDay(a, c); }
    var sum := d1 + d2;
    assert sum == d3 || sum == d3 + MinutesPerDay;
    if sum == d3 + MinutesPerDay {
      assert sum % MinutesPerDay == d3 by { WrapOnce(d3); }
    }
  }

  lemma WrapOnce(d: nat)
    requires d < MinutesPerDay
    ensures (d + MinutesPerDay) % MinutesPerDay == d
  {
  }

  /** The worked examples: 09:00 to 10:30, an overnight 23:00 to 01:00, a
      backwards 10:00 to 9:00, and equal times. */
  lemma DurationExamples()
    ensures ValidTime("09:00") && ValidTime("10:30") && ValidTime("23:00") && ValidTime("01:00")
    ensures ValidTime("10:00") && ValidTime("9:00")
    ensures CalculateDuration("09:00", "10:30") == 90
    ensures CalculateDuration("23:00", "01:00") == 120
    ensures CalculateDuration("10:00", "9:00") == 1380
    ensures CalculateDuration("09:00", "09:00") == 0
    ensures CalculateDuration("09:00", "9:00") == 0
  {
  }
}
