/** Activity records and the intake rule that decides whether a submitted
    form becomes one. */
module Activities {
  import opened TimeFormat
  import opened Duration
  import opened TextOrder

  datatype Priority = High | Medium | Low

  /** One planned activity; `duration` is fixed when the record is made. */
  datatype Activity = Activity(name: string, startTime: string, endTime: string, priority: Priority, duration: nat)

  /** What a submission comes to: a new record, or the first check it failed. */
  datatype Intake =
    | Accepted(activity: Activity)
    | MissingName
    | InvalidTime
    | StartNotBeforeEnd

  /** The intake rule.  The checks run in order and the first failure
      decides: an empty name, then either time failing the validator, then a
      start that does not sort before the end as text. */
  function Decide(name: string, start: string, end: string, priority: Priority): (r: Intake)
    ensures r.Accepted? ==> r.activity.name == name && r.activity.startTime == start
                            && r.activity.endTime == end && r.activity.priority == priority
  {
    if name == [] then MissingName
    else if !ValidTime(start) || !ValidTime(end) then InvalidTime
    else if !StrLess(start, end) then StartNotBeforeEnd
    else Accepted(Activity(name, start, end, priority, CalculateDuration(start, end)))
  }

  /** What every stored record satisfies: it passed every intake check and
      its duration is the calculated one. */
  ghost predicate WellFormed(a: Activity)
    ensures WellFormed(a) ==> a.startTime != a.endTime && a.duration < MinutesPerDay
  {
    && a.name != []
    && ValidTime(a.startTime) && ValidTime(a.endTime)
    && StrLess(a.startTime, a.endTime)
    && a.duration == CalculateDuration(a.startTime, a.endTime)
  }

  /** A submission is accepted exactly when it passes all three checks, and
      then the record is well formed and carries the calculated duration. */
  lemma AcceptedExactly(name: string, start: string, end: string, priority: Priority)
    ensures Decide(name, start, end, priority).Accepted?
        <==> name != [] && ValidTime(start) && ValidTime(end) && StrLess(start, end)
    ensures Decide(name, start, end, priority).Accepted? ==>
              && WellFormed(Decide(name, start, end, priority).activity)
              && Decide(name, start, end, priority).activity.duration == CalculateDuration(start, end)
  {
  }

  /** The first failing check decides the rejection: an empty name is
      reported whatever the times are, and a bad time is reported before any
      ordering problem. */
  lemma RejectionPrecedence(name: string, start: string, end: string, priority: Priority)
    ensures name == [] ==> Decide(name, start, end, priority) == MissingName
    ensures Decide(name, start, end, priority) == InvalidTime
        <==> name != [] && !(ValidTime(start) && ValidTime(end))
    ensures Decide(name, start, end, priority) == StartNotBeforeEnd
        <==> name != [] && ValidTime(start) && ValidTime(end) && !StrLess(start, end)
  {
  }

  /** The intake never accepts a start equal to its end, nor a pair in
      which the end sorts before the start as text. */
  lemma AcceptedStartSortsFirst(name: string, start: string, end: string, priority: Priority)
    requires Decide(name, start, end, priority).Accepted?
    ensures start != end && !StrLess(end, start)
  {
    StrLessTrichotomy(start, end);
  }

  /** With two-digit hours on both sides, an accepted submission starts
      strictly earlier in the day than it ends, so its duration is the plain
      difference and is positive: the overnight branch of the duration
      calculator is never taken. */
  lemma PaddedAcceptedIsSameDay(name: string, start: string, end: string, priority: Priority)
    requires |start| == 5 && |end| == 5
    requires Decide(name, start, end, priority).Accepted?
    ensures MinutesOfDay(start) < MinutesOfDay(end)
    ensures Decide(name, start, end, priority).activity.duration == MinutesOfDay(end) - MinutesOfDay(start) > 0
  {
    PaddedTimesOrderAsTimes(start, end);
    SameDay(start, end);
  }

  /** With two-digit hours on both sides, a start that is not earlier in the
      day than the end is rejected for its order: overnight activities
      written with padded hours cannot be submitted. */
  lemma PaddedOvernightRejected(name: string, start: string, end: string, priority: Priority)
    requires name != [] && ValidTime(start) && ValidTime(end) && |start| == 5 && |end| == 5
    requires MinutesOfDay(end) <= MinutesOfDay(start)
    ensures Decide(name, start, end, priority) == StartNotBeforeEnd
  {
    PaddedTimesOrderAsTimes(start, end);
  }

  /** Two ordinary submissions with padded hours: 10:00 to 10:30 and
      09:00 to 10:30 are accepted with durations 30 and 90. */
  lemma PaddedExamples()
    ensures Decide("Walk", "10:00", "10:30", Medium) == Accepted(Activity("Walk", "10:00", "10:30", Medium, 30))
    ensures Decide("Plan", "09:00", "10:30", High) == Accepted(Activity("Plan", "09:00", "10:30", High, 90))
  {
    RenderIsValid(9, 0, true);
    RenderIsValid(10, 0, true);
    RenderIsValid(10, 30, true);
    assert Render(9, 0, true) == "09:00";
    assert Render(10, 0, true) == "10:00";
    assert Render(10, 30, true) == "10:30";
    SameDay("10:00", "10:30");
    SameDay("09:00", "10:30");
    assert StrLess("10:00", "10:30");
    assert StrLess("09:00", "10:30");
  }

  /** The text comparison on mixed hour widths: an end earlier in the day
      ("10:00" to "9:00") and an end equal in time ("09:00" to "9:00") are
      accepted, with durations 1380 and 0; "9:00" to "10:00", which is
      chronologically fine, is rejected; and the overnight "23:00" to
      "01:00" is rejected although its duration would be 120. */
  lemma MixedWidthExamples()
    ensures Decide("Read", "10:00", "9:00", Low) == Accepted(Activity("Read", "10:00", "9:00", Low, 1380))
    ensures Decide("Read", "09:00", "9:00", Low) == Accepted(Activity("Read", "09:00", "9:00", Low, 0))
    ensures Decide("Read", "9:00", "10:00", Low) == StartNotBeforeEnd
    ensures Decide("Run", "23:00", "01:00", Low) == StartNotBeforeEnd
    ensures Decide("", "09:00", "10:00", High) == MissingName
    ensures Decide("Run", "9:60", "10:00", High) == InvalidTime
  {
    DurationExamples();
    assert StrLess("10:00", "9:00");
    assert StrLess("09:00", "9:00");
    assert !StrLess("9:00", "10:00");
    assert !StrLess("23:00", "01:00");
    assert "9:60"[2..] == "60";
  }
}
