# Daily planner core, modelled in Dafny

The planner is a one-page app. A user records activities with a name, a
start and end time written as `H:MM` or `HH:MM`, and a priority (High,
Medium or Low). The app has four pieces of logic:

- it checks the times against a 24-hour pattern;
- it computes each activity's duration in minutes, rolling over past
  midnight;
- it keeps the activities in a session list that accepted submissions are
  appended to, and that the "Prioritize & Summarize" page sorts in place,
  longest first;
- it shows a summary tier chosen from the number of activities.

The model has seven modules, one per piece of the program:

- `TimeFormat` (`time_format.dfy`): the time validator, as a predicate
  on text. A validated time is parsed to minutes since midnight. `Render`
  writes a time back as text, and the validator is proved to accept
  exactly the renderings of the times of day.
- `Duration` (`duration.dfy`): the duration calculator, including how a
  time difference is normalised to whole days plus a seconds remainder.
- `TextOrder` (`text_order.dfy`): text `<` (code point by code point, a
  prefix first). The intake uses it to compare start and end.
- `Activities` (`activity.dfy`): the activity record, the intake
  decision `Decide`, and the invariant `WellFormed` that every stored
  record satisfies.
- `Prioritize` (`prioritize.dfy`): the stable sort by duration,
  longest first. `SortByDuration` is a sort on sequences. The lemmas
  prove that it is a permutation, that it is sorted and that it is
  stable. They also prove that it is idempotent and the only stable
  ordering. `InsertionSort` sorts an array in place and is proved equal to
  `SortByDuration`.
- `Summaries` (`summary.dfy`): the four message tiers and the break
  lines.
- `Planner` (`planner.dfy`): the session as a class whose
  `activities` field the methods update. `Submit` is the form-submit
  handler. `Prioritize` is the in-place reordering. `Summarize` reads the
  list without changing it. `PrioritizeAndSummarize` is the page that runs
  both only when the list is not empty.

Behaviour of the code that the model keeps and proves:

- Equal start and end times give a duration of 0, not 1440. The rollover
  test at streamlit_app.py:21 is a strict `<`, and line 24 takes the
  `seconds` part of the difference.
- The validator's hour group `2[0-3]|[01]?[0-9]` accepts one-digit hours
  (`9:00`) as well as two-digit ones, and an accepted record stores the
  times as they were typed, so one-digit hours are stored too.
- The intake compares start and end as text (line 43). With two-digit
  hours on both sides, text order is time order
  (`PaddedTimesOrderAsTimes`). In that case every accepted activity ends
  later the same day, so the overnight branch of the duration calculator
  is never used (`PaddedAcceptedIsSameDay`). For the same reason, an
  overnight pair such as 23:00 to 01:00 is always rejected
  (`PaddedOvernightRejected`).
- With mixed hour widths the text comparison disagrees with time order
  (`MixedWidthExamples`):
  - `10:00` to `9:00` is accepted, with duration 1380;
  - `09:00` to `9:00` is accepted, with duration 0;
  - `9:00` to `10:00` is rejected, although it is chronologically fine.

## Model

| member | source | states |
|---|---|---|
| `TimeFormat.ValidTime` | streamlit_app.py:10-13 | defines the validator: an hour field, a colon and a two-digit minute field; an accepted text has four or five characters |
| `TimeFormat.HourOf` | streamlit_app.py:17-18 | defines the hour a validated time parses to, always below 24 |
| `TimeFormat.MinuteOf` | streamlit_app.py:17-18 | defines the minute a validated time parses to, always below 60 |
| `TimeFormat.ValidTimeExactly` | streamlit_app.py:10-13 | the validator accepts a text if and only if it is hour 0-23 (one digit, or two digits with a leading zero allowed), a colon, and a two-digit minute 00-59 |
| `TimeFormat.RenderIsValid` | streamlit_app.py:12-18 | every rendering of a time of day passes the validator, has length 4 (unpadded hour below 10) or 5, and parses back to the same hour, minute and minutes of day |
| `TimeFormat.ValidTimeIsRendered` | streamlit_app.py:12-13 | every accepted text is the rendering of the hour and minute it parses to, padded exactly when it has five characters |
| `TimeFormat.ValidTimeExamples` | streamlit_app.py:12-13 | `9:00`, `09:00`, `23:59`, `0:00` are accepted; `24:00`, `12:60`, `12:5`, the empty text, `009:00`, `9-00` and `30:00` are rejected |
| `TimeFormat.MinutesOfDay` | streamlit_app.py:17-18 | a validated time parses to minutes below 1440, whose hour and minute parts are the parsed hour and minute |
| `Duration.DeltaSeconds` | streamlit_app.py:24 | the seconds part of a time difference lies in [0, 86400) and differs from the difference by whole days |
| `Duration.CalculateDuration` | streamlit_app.py:15-25 | the duration is `(end - start) mod 1440` in minutes of day, always in [0, 1439] |
| `Duration.SameDay` | streamlit_app.py:21-24 | an end no earlier than the start gives `end - start` |
| `Duration.Rollover` | streamlit_app.py:21-22 | an end earlier than the start gives `1440 - (start - end)`, which is positive |
| `Duration.ZeroOnlyForEqualTimes` | streamlit_app.py:21-24 | the duration is 0 if and only if the two times are equal; equal times never give 1440 |
| `Duration.Additive` | streamlit_app.py:15-25 | an extra property of the model, not a promise of the program: the durations from a to b and from b to c add up, modulo a day, to the duration from a to c |
| `Duration.DurationExamples` | streamlit_app.py:15-25 | 09:00-10:30 is 90, 23:00-01:00 is 120, 10:00-9:00 is 1380, and 09:00-09:00 and 09:00-9:00 are 0 |
| `TextOrder.StrLess` | streamlit_app.py:43 | defines text `<` as the comparison uses it: code point by code point, a proper prefix first; a text is never below itself or below the empty text |
| `TextOrder.StrLessTrichotomy` | streamlit_app.py:43 | text `<` is a strict total order: exactly one of `a < b`, `a == b`, `b < a` holds |
| `TextOrder.StrLessTransitive` | streamlit_app.py:43 | an extra property of the model, not a promise of the program: text `<` is transitive |
| `TextOrder.PaddedTimesOrderAsTimes` | streamlit_app.py:43 | for two valid times with two-digit hours, `start < end` as text if and only if start is earlier in the day |
| `Activities.Decide` | streamlit_app.py:38-53 | an accepted submission's record carries the submitted name, start, end and priority |
| `Activities.WellFormed` | streamlit_app.py:39-52 | defines the rule every stored record meets: a non-empty name, two valid times with start before end as text, and the calculated duration; such a record's times differ and its duration is below 1440 |
| `Activities.AcceptedExactly` | streamlit_app.py:39-52 | a submission is accepted if and only if the name is non-empty, both times are valid and start sorts before end as text; the accepted record is well formed and its duration is the calculated one |
| `Activities.RejectionPrecedence` | streamlit_app.py:39-44 | an empty name is reported first whatever the times; an invalid time is reported if and only if the name is present; the ordering error is reported if and only if the name and both times pass and start does not sort before end |
| `Activities.AcceptedStartSortsFirst` | streamlit_app.py:43 | an accepted start never equals its end and never sorts after it |
| `Activities.PaddedAcceptedIsSameDay` | streamlit_app.py:43-51 | with two-digit hours, an accepted activity starts earlier in the day than it ends, and its duration is `end - start > 0` |
| `Activities.PaddedOvernightRejected` | streamlit_app.py:43-44 | with two-digit hours, a well-named pair whose end is not later in the day than its start is rejected for its order |
| `Activities.PaddedExamples` | streamlit_app.py:39-51 | 10:00-10:30 and 09:00-10:30 are accepted with durations 30 and 90 |
| `Activities.MixedWidthExamples` | streamlit_app.py:39-51 | 10:00-9:00 is accepted with 1380; 09:00-9:00 is accepted with 0; 9:00-10:00 and 23:00-01:00 are rejected for their order; an empty name and 9:60 are rejected for their own reasons |
| `Prioritize.Insert` | streamlit_app.py:70-72 | defines one insertion step: the record goes after every record of at least its duration, and the result is one longer |
| `Prioritize.SortByDuration` | streamlit_app.py:70-72 | defines the stable sort, longest first, as insertion from the front of the input; the result has the input's length |
| `Prioritize.InsertLast` | streamlit_app.py:70-72 | the in-place step: the array's first i+1 cells become the insertion of cell i into the first i, and the cells after are unchanged |
| `Prioritize.InsertionSort` | streamlit_app.py:70-72 | sorting the array in place leaves it equal to the stable sort of its old contents |
| `Prioritize.SortCorrect` | streamlit_app.py:70-72 | the stable sort is a permutation of its input, its durations never increase, and each duration's records keep their input order |
| `Prioritize.SortPermutes` | streamlit_app.py:70-72 | the sort is a permutation of its input |
| `Prioritize.SortSorted` | streamlit_app.py:70-72 | after the sort, durations never increase |
| `Prioritize.SortStable` | streamlit_app.py:70-72 | the records of any one duration come out in the order they went in |
| `Prioritize.SortUnique` | streamlit_app.py:70-72 | any sorted sequence that keeps each duration's records in their input order is the sort, so the sort is the only stable ordering |
| `Prioritize.SortOfSorted` | streamlit_app.py:70-72 | a sequence already sorted by duration is left unchanged |
| `Prioritize.SortIdempotent` | streamlit_app.py:70-72 | sorting twice gives the same list as sorting once |
| `Prioritize.SortKeepsRecords` | streamlit_app.py:70-72 | a record is in the sorted list if and only if it was in the input, and equally often |
| `Prioritize.SortExample` | streamlit_app.py:70-72 | durations 30, 90, 90, 10 come out as 90, 90, 30, 10, with the two 90s in their input order |
| `Summaries.SummaryFor` | streamlit_app.py:83-101 | the summary carries the count, the tier for that count and that tier's message; break lines are shown exactly when the tier is not the relax tier |
| `Summaries.Message` | streamlit_app.py:88-95 | defines the message shown for each tier; every message is non-empty |
| `Summaries.TierFor` | streamlit_app.py:88-95 | defines the tier for a count; the relax tier is chosen if and only if the count is 0 |
| `Summaries.TierBands` | streamlit_app.py:88-95 | relax exactly for 0, great start exactly for 1-3, productive day exactly for 4-6, packed schedule exactly for more than 6 |
| `Summaries.TierMonotone` | streamlit_app.py:88-95 | an extra property of the model, not a promise of the program: more activities never give a less busy tier |
| `Summaries.BreaksExactlyWhenPlanned` | streamlit_app.py:98-101 | the two break lines appear if and only if the count is positive, and otherwise none |
| `Summaries.MessagesDistinct` | streamlit_app.py:88-95 | the four tier messages differ, so the message shown identifies the tier |
| `Summaries.SummaryExamples` | streamlit_app.py:83-101 | counts 0, 2, 5 and 8 give the four tiers, with break lines for all but 0 |
| `Planner.Session.constructor` | streamlit_app.py:6-7 | a session starts with an empty activity list |
| `Planner.Session.Submit` | streamlit_app.py:38-53 | the outcome is the intake decision; a rejection leaves the list unchanged; an acceptance appends exactly that record at the end; every stored record stays well formed |
| `Planner.Session.Prioritize` | streamlit_app.py:70-72 | the list becomes the stable sort of its old contents: a permutation with durations never increasing, each duration's records in their old order; it stays well formed |
| `Planner.Session.Summarize` | streamlit_app.py:83-101 | the summary is that of the list's length, and the list is not modified |
| `Planner.Session.PrioritizeAndSummarize` | streamlit_app.py:118-123 | an empty list is left alone and gets no summary; otherwise the list is sorted and summarised, and the relax tier is never shown |
| `Planner.IntakeExample` | streamlit_app.py:38-53 | in a fresh session, an empty name and 23:00-01:00 are rejected without effect; 10:00-10:30 and 09:00-10:30 are appended in order with durations 30 and 90 |
| `Planner.PrioritizeExample` | streamlit_app.py:70-72 | after those submissions, prioritising puts the 90-minute activity before the 30-minute one |

## Left out

- The page rendering and the widgets (form, text boxes, priority select
  box, messages, dividers, sidebar navigation): streamlit_app.py:30-36,
  104-117 and 125-127. The priority is modelled as the three-valued
  `Priority`, which is all the select box can deliver.
- The listing loops (streamlit_app.py:55-66 and 73-79). They only format
  text. The summary's "Daily Summary" and count headings, the "Recommended
  Breaks" heading (streamlit_app.py:99) and the emoji in its break lines
  are formatting too. The model keeps the tier, the message text and the
  break-line text.
- The time parser and the time-difference type of the date library. A
  validated time is modelled directly as minutes since midnight. The
  difference is modelled by its normalisation to days plus seconds in
  [0, 86400).
- The pattern anchor `$` also matches before a trailing newline.
  The times come from single-line text boxes, so the validator is
  modelled on the plain pattern.
- The framework's per-user session storage. It is modelled as an
  explicit `Planner.Session` object.
- `Planner.Session.Prioritize`: the list is a `seq` field. Prioritisation
  copies it into an array, runs the in-place `InsertionSort` on that array,
  and stores the result back. No other reference to the list exists in
  the program, so the aliasing of a list sorted in place is not
  modelled.
