/** The daily summary: a message tier chosen from the number of planned
    activities alone, and the two break recommendations shown whenever
    anything is planned. */
module Summaries {

  datatype Tier = Relax | GreatStart | ProductiveDay | PackedSchedule

  /** What the summary shows: the count, the tier with its message, and
      the break lines (empty when none are shown). */
  datatype Summary = Summary(total: nat, tier: Tier, message: string, breakLines: seq<string>)

  const BreakLines: seq<string> := [
    "Take a 10-15 minute break after every 90 minutes of work.",
    "Use short pauses to stretch or be lazy between tasks!"
  ]

  function Message(t: Tier): (m: string)
    ensures |m| > 0
  {
    match t
    case Relax => "No activities planned? Use this time to relax, reflect, or set some goals!"
    case GreatStart => "You're off to a great start! Focus and finish strong!"
    case ProductiveDay => "You've got a productive day ahead! Remember to take breaks!"
    case PackedSchedule => "You have a packed schedule! Stay organized and take care of yourself."
  }

  /** How busy a tier says the day is. */
  function Rank(t: Tier): nat {
    match t
    case Relax => 0
    case GreatStart => 1
    case ProductiveDay => 2
    case PackedSchedule => 3
  }

  /** The tier for `count` activities: none, up to three, up to six, more. */
  function TierFor(count: nat): (t: Tier)
    ensures t == Relax <==> count == 0
  {
    if count == 0 then Relax
    else if count <= 3 then GreatStart
    else if count <= 6 then ProductiveDay
    else PackedSchedule
  }

  function SummaryFor(count: nat): (s: Summary)
    ensures s.total == count && s.tier == TierFor(count) && s.message == Message(s.tier)
    ensures |s.breakLines| > 0 <==> s.tier != Relax
  {
    var t := TierFor(count);
    Summary(count, t, Message(t), if count > 0 then BreakLines else [])
  }

  /** Each tier covers exactly its band of counts. */
  lemma TierBands(count: nat)
    ensures TierFor(count) == Relax <==> count == 0
    ensures TierFor(count) == GreatStart <==> 1 <= count <= 3
    ensures TierFor(count) == ProductiveDay <==> 4 <= count <= 6
    ensures TierFor(count) == PackedSchedule <==> count > 6
  {
  }

  /** More activities never give a less busy tier (a property of the model
      beyond what the page promises). */
  lemma TierMonotone(a: nat, b: nat)
    requires a <= b
    ensures Rank(TierFor(a)) <= Rank(TierFor(b))
  {
  }

  /** The break lines appear exactly when the count is positive, and then
      they are the two fixed recommendations. */
  lemma BreaksExactlyWhenPlanned(count: nat)
    ensures SummaryFor(count).breakLines == BreakLines <==> count > 0
    ensures SummaryFor(count).breakLines == [] <==> count == 0
  {
  }

  /** Different tiers show different messages, so the message tells the tier. */
  lemma MessagesDistinct(t: Tier, u: Tier)
    ensures Message(t) == Message(u) <==> t == u
  {
    assert |Message(Relax)| == 74 && |Message(GreatStart)| == 53;
    assert |Message(ProductiveDay)| == 59 && |Message(PackedSchedule)| == 69;
  }

  /** The examples: counts 0, 2, 5 and 8 give the four tiers. */
  lemma SummaryExamples()
    ensures SummaryFor(0).tier == Relax && SummaryFor(0).breakLines == []
    ensures SummaryFor(2).tier == GreatStart && SummaryFor(2).breakLines == BreakLines
    ensures SummaryFor(5).tier == ProductiveDay && SummaryFor(5).breakLines == BreakLines
    ensures SummaryFor(8).tier == PackedSchedule && SummaryFor(8).breakLines == BreakLines
  {
  }
}
