/** The planner's session: the list of planned activities, the form-submit
    handler that appends to it, the prioritisation that reorders it in place,
    and the summary that reads it. */
module Planner {
  import opened TimeFormat
  import opened Duration
  import opened TextOrder
  import opened Activities
  import opened Prioritize
  import opened Summaries

  datatype Option<T> = None | Some(value: T)

  class Session {
    /** The activities in their current order: submission order until a
        prioritisation reorders them. */
    var activities: seq<Activity>

    /** Every stored record passed intake and carries its calculated duration. */
    ghost predicate Valid()
      reads this
    {
      forall i :: 0 <= i < |activities| ==> WellFormed(activities[i])
    }

    /** A session starts with no activities. */
    constructor ()
      ensures Valid() && activities == []
    {
      activities := [];
    }

    /** The form-submit handler: the first failing check rejects and leaves
        the list alone; otherwise one record, with the calculated duration,
        is appended at the end. */
    method Submit(name: string, start: string, end: string, priority: Priority) returns (outcome: Intake)
      requires Valid()
      modifies this
      ensures Valid()
      ensures outcome == Decide(name, start, end, priority)
      ensures outcome.Accepted? ==> activities == old(activities) + [outcome.activity]
      ensures !outcome.Accepted? ==> activities == old(activities)
    {
      outcome := Decide(name, start, end, priority);
      if outcome.Accepted? {
        activities := activities + [outcome.activity];
      }
    }

    /** Prioritisation: reorders the list in place, longest first, keeping
        activities of equal duration in their prior order. */
    method Prioritize()
      requires Valid()
      modifies this
      ensures Valid()
      ensures activities == SortByDuration(old(activities))
      ensures multiset(activities) == multiset(old(activities))
      ensures Sorted(activities)
      ensures forall k: nat :: WithDuration(activities, k) == WithDuration(old(activities), k)
    {
      var prior := activities;
      var a := new Activity[|prior|](i requires 0 <= i < |prior| => prior[i]);
      assert a[..] == prior;
      InsertionSort(a);
      activities := a[..];
      SortCorrect(prior);
      forall i | 0 <= i < |activities| ensures WellFormed(activities[i]) {
        assert activities[i] in multiset(prior);
        var j :| 0 <= j < |prior| && prior[j] == activities[i];
      }
    }

    /** The summary depends only on how many activities there are, and
        reads the list without changing it. */
    method Summarize() returns (s: Summary)
      ensures s == SummaryFor(|activities|)
    {
      s := SummaryFor(|activities|);
    }

    /** The "prioritize and summarize" page: with no activities it shows
        only a placeholder and changes nothing; otherwise it prioritises the
        list and then summarises it. */
    method PrioritizeAndSummarize() returns (s: Option<Summary>)
      requires Valid()
      modifies this
      ensures Valid()
      ensures old(activities) == [] ==> s == None && activities == []
      ensures old(activities) != [] ==>
                && activities == SortByDuration(old(activities))
                && s == Some(SummaryFor(|old(activities)|))
                && s.value.tier != Relax
    {
      if activities == [] {
        s := None;
      } else {
        Prioritize();
        var summary := Summarize();
        s := Some(summary);
      }
    }
  }

  /** A client run of the intake: an empty name and an overnight pair with
      padded hours are rejected without changing the list; two proper
      submissions are appended in order. */
  method IntakeExample() returns (session: Session, rejected: seq<Intake>)
    ensures fresh(session) && session.Valid()
    ensures rejected == [MissingName, StartNotBeforeEnd]
    ensures session.activities == [Activity("Walk", "10:00", "10:30", Medium, 30), Activity("Plan", "09:00", "10:30", High, 90)]
  {
    MixedWidthExamples();
    PaddedExamples();
    session := new Session();
    var first := session.Submit("", "09:00", "10:00", High);
    var second := session.Submit("Run", "23:00", "01:00", Low);
    rejected := [first, second];
    assert session.activities == [];
    var third := session.Submit("Walk", "10:00", "10:30", Medium);
    assert session.activities == [third.activity];
    var fourth := session.Submit("Plan", "09:00", "10:30", High);
  }

  lemma SortTwo(x: Activity, y: Activity)
    requires x.duration < y.duration
    ensures SortByDuration([x, y]) == [y, x]
  {
    assert [x, y][..1] == [x] && [x][..0] == [];
    assert Insert([x], y) == Insert([], y) + [x];
  }

  /** A client run of prioritisation: the longer activity moves first. */
  method PrioritizeExample() returns (order: seq<string>)
    ensures order == ["Plan", "Walk"]
  {
    var session, _ := IntakeExample();
    var x, y := session.activities[0], session.activities[1];
    assert session.activities == [x, y];
    SortTwo(x, y);
    session.Prioritize();
    order := [session.activities[0].name, session.activities[1].name];
  }
}
