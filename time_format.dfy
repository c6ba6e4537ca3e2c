/** Clock times written as text, `H:MM` or `HH:MM`, in 24-hour form.

    `ValidTime` is the planner's time validator: the anchored pattern
    `(2[0-3]|[01]?[0-9]):([0-5][0-9])`.  `MinutesOfDay` reads a validated
    time the way the `%H:%M` parse does, as minutes since midnight.
    `Render` writes an hour and a minute back as text, which gives the
    validator an independent description: it accepts exactly the renderings
    of a time of day, padded or not. */
module TimeFormat {

  const MinutesPerDay: nat := 1440

  predicate IsDigit(c: char) {
    '0' <= c <= '9'
  }

  function DigitValue(c: char): (d: nat)
    requires IsDigit(c)
    ensures d < 10
  {
    c as int - '0' as int
  }

  function DigitChar(d: nat): (c: char)
    requires d < 10
    ensures IsDigit(c) && DigitValue(c) == d
  {
    ('0' as int + d) as char
  }

  /** The hour group `2[0-3]|[01]?[0-9]`, matched against the whole field. */
  predicate HourField(h: string) {
    || (|h| == 2 && h[0] == '2' && '0' <= h[1] <= '3')
    || (|h| == 2 && (h[0] == '0' || h[0] == '1') && IsDigit(h[1]))
    || (|h| == 1 && IsDigit(h[0]))
  }

  /** The minute group `[0-5][0-9]`, matched against the whole field. */
  predicate MinuteField(m: string) {
    |m| == 2 && '0' <= m[0] <= '5' && IsDigit(m[1])
  }

  /** The validator: the minute group is the last two characters, a colon
      comes just before it, and everything before the colon is the hour
      group.  Neither group can contain a colon, so this split is the only
      one the anchored pattern can use. */
  predicate ValidTime(s: string)
    ensures ValidTime(s) ==> (|s| == 4 || |s| == 5) && ':' in s
  {
    |s| >= 3 && s[|s| - 3] == ':' && HourField(s[..|s| - 3]) && MinuteField(s[|s| - 2..])
  }

  function HourValue(h: string): (v: nat)
    requires HourField(h)
    ensures v < 24
  {
    if |h| == 1 then DigitValue(h[0]) else 10 * DigitValue(h[0]) + DigitValue(h[1])
  }

  function MinuteValue(m: string): (v: nat)
    requires MinuteField(m)
    ensures v < 60
  {
    10 * DigitValue(m[0]) + DigitValue(m[1])
  }

  function HourOf(s: string): (h: nat)
    requires ValidTime(s)
    ensures h < 24
  {
    HourValue(s[..|s| - 3])
  }

  function MinuteOf(s: string): (m: nat)
    requires ValidTime(s)
    ensures m < 60
  {
    MinuteValue(s[|s| - 2..])
  }

  /** A validated time parsed as minutes since midnight, as `%H:%M` parses it. */
  function MinutesOfDay(s: string): (t: nat)
    requires ValidTime(s)
    ensures t < MinutesPerDay
    ensures t / 60 == HourOf(s) && t % 60 == MinuteOf(s)
  {
    HourOf(s) * 60 + MinuteOf(s)
  }

  /** The text of hour `h` and minute `m`; the hour gets a leading zero when
      `padded` holds or when it has two digits anyway. */
  function Render(h: nat, m: nat, padded: bool): string
    requires h < 24 && m < 60
  {
    (if padded || h >= 10 then [DigitChar(h / 10), DigitChar(h % 10)] else [DigitChar(h)])
    + [':', DigitChar(m / 10), DigitChar(m % 10)]
  }

  /** Every rendering passes the validator and parses back to the same time. */
  lemma RenderIsValid(h: nat, m: nat, padded: bool)
    requires h < 24 && m < 60
    ensures ValidTime(Render(h, m, padded))
    ensures HourOf(Render(h, m, padded)) == h && MinuteOf(Render(h, m, padded)) == m
    ensures MinutesOfDay(Render(h, m, padded)) == h * 60 + m
    ensures |Render(h, m, padded)| == if padded || h >= 10 then 5 else 4
  {
  }

  /** Every text the validator accepts is a rendering of the time it parses to. */
  lemma ValidTimeIsRendered(s: string)
    requires ValidTime(s)
    ensures s == Render(HourOf(s), MinuteOf(s), |s| == 5)
  {
  }

  /** The validator accepts exactly the renderings of the times of day. */
  lemma ValidTimeExactly(s: string)
    ensures ValidTime(s) <==> exists h: nat, m: nat, padded: bool :: h < 24 && m < 60 && s == Render(h, m, padded)
  {
    if ValidTime(s) {
      ValidTimeIsRendered(s);
    }
    if exists h: nat, m: nat, padded: bool :: h < 24 && m < 60 && s == Render(h, m, padded) {
      var h: nat, m: nat, padded: bool :| h < 24 && m < 60 && s == Render(h, m, padded);
      RenderIsValid(h, m, padded);
    }
  }

  /** The validator's documented examples. */
  lemma ValidTimeExamples()
    ensures ValidTime("9:00") && ValidTime("09:00") && ValidTime("23:59") && ValidTime("0:00")
    ensures !ValidTime("24:00") && !ValidTime("12:60") && !ValidTime("12:5") && !ValidTime("")
    ensures !ValidTime("009:00") && !ValidTime("9-00") && !ValidTime("30:00")
  {
  }
}
