/** The first, per-subject planner (prototype.py): each subject's urgency is
    its remaining chapters, weighted by difficulty, per day left; the day's
    hours are shared in proportion to urgency and rounded to quarter hours;
    every subject gets one row, finished subjects a completion note, and the
    rows are sorted by their shown urgency. Dates are day numbers and
    `today` is a parameter. */
module Prototype {
  import opened Rounding
  import opened Lists

  /** A subject of the prototype: difficulty on a 1 to 10 scale. */
  datatype Subject = Subject(
    name: string, difficulty: int, chaptersTotal: int, chaptersDone: int, examDate: int)

  /** One row of the plan. */
  datatype Row = Row(
    subject: string, allocatedHours: real, urgencyScore: real, statusNote: string, examDate: int)

  /** The note of a subject with nothing left to study. */
  const CompleteNote: string := "\U{2705} 100% Complete"

  /** `chapters_remaining`: chapters not yet done, never negative. */
  function ChaptersRemaining(s: Subject): (r: int)
    ensures r >= 0
    ensures r == 0 <==> s.chaptersTotal <= s.chaptersDone
    ensures r > 0 ==> s.chaptersDone + r == s.chaptersTotal
  {
    if s.chaptersTotal - s.chaptersDone < 0 then 0 else s.chaptersTotal - s.chaptersDone
  }

  /** `days_remaining`: days until the exam, at least one even for an exam
      today or in the past. */
  function DaysRemaining(s: Subject, today: int): (d: int)
    ensures d >= 1
    ensures s.examDate - today >= 1 ==> today + d == s.examDate
    ensures s.examDate - today < 1 ==> d == 1
  {
    if s.examDate - today < 1 then 1 else s.examDate - today
  }

  /** `calculate_urgency`: remaining chapters times `1 + difficulty / 10`,
      per day remaining. */
  function Urgency(s: Subject, today: int): (u: real)
    ensures ChaptersRemaining(s) == 0 ==> u == 0.0
    ensures s.difficulty >= -10 ==> u >= 0.0
    ensures ChaptersRemaining(s) > 0 && s.difficulty > -10 ==> u > 0.0
  {
    var weight := 1.0 + s.difficulty as real / 10.0;
    var r := ChaptersRemaining(s) as real;
    assert s.difficulty >= -10 ==> weight >= 0.0 && r * weight >= 0.0;
    assert s.difficulty > -10 && r > 0.0 ==> weight > 0.0 && r * weight > 0.0;
    r * weight / DaysRemaining(s, today) as real
  }

  /** Urgency times the days remaining is the weighted work remaining. */
  lemma UrgencyTimesDays(s: Subject, today: int)
    ensures Urgency(s, today) * DaysRemaining(s, today) as real
         == ChaptersRemaining(s) as real * (1.0 + s.difficulty as real / 10.0)
  {
  }

  /** `sum(s.calculate_urgency() for s in subjects)`. */
  function TotalUrgency(subjects: seq<Subject>, today: int): real
  {
    if subjects == [] then 0.0
    else TotalUrgency(subjects[..|subjects| - 1], today) + Urgency(subjects[|subjects| - 1], today)
  }

  /** `(urgency / total_urgency) * daily_hours`. */
  function Proportion(urgency: real, total: real, dailyHours: real): real
    requires total != 0.0
  {
    urgency / total * dailyHours
  }

  /** The row the loop builds for `s`. */
  function RowOf(s: Subject, total: real, dailyHours: real, today: int): Row
  {
    var urgency := Urgency(s, today);
    if ChaptersRemaining(s) == 0 then
      Row(s.name, 0.0, RoundTo(0.0, 100), CompleteNote, s.examDate)
    else if urgency > 0.0 && total > 0.0 then
      Row(s.name, QuarterRound(Proportion(urgency, total, dailyHours)), RoundTo(urgency, 100), "", s.examDate)
    else
      Row(s.name, 0.0, RoundTo(urgency, 100), "", s.examDate)
  }

  /** `plan_data` before sorting: one row per subject, in input order. */
  function Rows(subjects: seq<Subject>, total: real, dailyHours: real, today: int): (rows: seq<Row>)
    ensures |rows| == |subjects|
    ensures forall k :: 0 <= k < |subjects| ==> rows[k] == RowOf(subjects[k], total, dailyHours, today)
  {
    seq(|subjects|, k requires 0 <= k < |subjects| => RowOf(subjects[k], total, dailyHours, today))
  }

  /** The sort key: the shown (rounded) urgency. */
  function ScoreOf(row: Row): real
  {
    row.urgencyScore
  }

  /** The result of `get_study_plan_data(subjects, daily_hours)` on day
      `today`. */
  function PlanData(subjects: seq<Subject>, dailyHours: real, today: int): seq<Row>
  {
    SortDesc(Rows(subjects, TotalUrgency(subjects, today), dailyHours, today), ScoreOf)
  }

  /** `get_study_plan_data`: sum the urgencies, build a row per subject,
      sort the rows by shown urgency, most urgent first. */
  method GetStudyPlanData(subjects: seq<Subject>, dailyHours: real, today: int)
    returns (planData: seq<Row>)
    ensures planData == PlanData(subjects, dailyHours, today)
  {
    var totalUrgency := SumUrgencies(subjects, today);
    planData := [];
    for i := 0 to |subjects|
      invariant |planData| == i
      invariant forall k :: 0 <= k < i ==> planData[k] == RowOf(subjects[k], totalUrgency, dailyHours, today)
    {
      var row := BuildRow(subjects[i], totalUrgency, dailyHours, today);
      planData := planData + [row];
    }
    assert planData == Rows(subjects, totalUrgency, dailyHours, today);
    planData := SortDesc(planData, ScoreOf);
  }

  /** `sum(s.calculate_urgency() for s in subjects)`, one subject at a
      time. */
  method SumUrgencies(subjects: seq<Subject>, today: int) returns (totalUrgency: real)
    ensures totalUrgency == TotalUrgency(subjects, today)
  {
    totalUrgency := 0.0;
    for i := 0 to |subjects|
      invariant totalUrgency == TotalUrgency(subjects[..i], today)
    {
      assert subjects[..i + 1][..i] == subjects[..i];
      totalUrgency := totalUrgency + Urgency(subjects[i], today);
    }
    assert subjects[..|subjects|] == subjects;
  }

  /** The body of the row loop for one subject. */
  method BuildRow(sub: Subject, totalUrgency: real, dailyHours: real, today: int) returns (row: Row)
    ensures row == RowOf(sub, totalUrgency, dailyHours, today)
  {
    var urgency := Urgency(sub, today);
    var allocation := 0.0;
    var note := "";
    if ChaptersRemaining(sub) == 0 {
      note := CompleteNote;
      urgency := 0.0;
    } else if urgency > 0.0 && totalUrgency > 0.0 {
      allocation := urgency / totalUrgency * dailyHours;
      assert allocation == Proportion(urgency, totalUrgency, dailyHours);
      allocation := QuarterRound(allocation);
    }
    row := Row(sub.name, allocation, RoundTo(urgency, 100), note, sub.examDate);
  }

  /** The plan has exactly the rows of the subjects, each once: a
      permutation of the per-subject rows, in descending order of shown
      urgency, with rows of equal shown urgency in input order. */
  lemma PlanDataPermutes(subjects: seq<Subject>, dailyHours: real, today: int, k: real)
    ensures var rows := Rows(subjects, TotalUrgency(subjects, today), dailyHours, today);
            var plan := PlanData(subjects, dailyHours, today);
            && |plan| == |subjects|
            && multiset(plan) == multiset(rows)
            && SortedDesc(plan, ScoreOf)
            && KeyRun(plan, ScoreOf, k) == KeyRun(rows, ScoreOf, k)
  {
    var rows := Rows(subjects, TotalUrgency(subjects, today), dailyHours, today);
    SortDescCorrect(rows, ScoreOf);
    SortDescStable(rows, ScoreOf, k);
  }

  /** A finished subject gets no hours, urgency 0 and the completion note;
      any other subject gets no note and a whole number of quarter hours,
      which is the rounded proportional share when its urgency and the total
      are positive, and none otherwise. */
  lemma RowShape(s: Subject, total: real, dailyHours: real, today: int)
    ensures var row := RowOf(s, total, dailyHours, today);
            var u := Urgency(s, today);
            && row.subject == s.name && row.examDate == s.examDate
            && (ChaptersRemaining(s) == 0 ==>
                  row.allocatedHours == 0.0 && row.urgencyScore == 0.0 && row.statusNote == CompleteNote)
            && (ChaptersRemaining(s) > 0 ==>
                  row.statusNote == "" && IsQuarterMultiple(row.allocatedHours)
                  && -0.005 <= row.urgencyScore - u <= 0.005)
            && (ChaptersRemaining(s) > 0 && u > 0.0 && total > 0.0 ==>
                  -0.125 <= row.allocatedHours - Proportion(u, total, dailyHours) <= 0.125
                  && row.allocatedHours == QuarterRound(Proportion(u, total, dailyHours)))
            && (ChaptersRemaining(s) > 0 && !(u > 0.0 && total > 0.0) ==> row.allocatedHours == 0.0)
  {
    RoundHalfEvenOfInt(0);
    assert IsQuarterMultiple(0.0) by { assert (0.0 * 4.0).Floor == 0; }
  }

  /** With difficulties of at least -10, no urgency exceeds the total. */
  lemma {:induction false} UrgencyAtMostTotal(subjects: seq<Subject>, today: int, k: nat)
    requires k < |subjects|
    requires forall i :: 0 <= i < |subjects| ==> subjects[i].difficulty >= -10
    ensures 0.0 <= Urgency(subjects[k], today) <= TotalUrgency(subjects, today)
  {
    var n := |subjects| - 1;
    TotalNonNegative(subjects[..n], today);
    if k < n {
      UrgencyAtMostTotal(subjects[..n], today, k);
      assert subjects[..n][k] == subjects[k];
    }
  }

  /** With difficulties of at least -10, the total urgency is not negative. */
  lemma {:induction false} TotalNonNegative(subjects: seq<Subject>, today: int)
    requires forall i :: 0 <= i < |subjects| ==> subjects[i].difficulty >= -10
    ensures TotalUrgency(subjects, today) >= 0.0
  {
    if subjects != [] {
      TotalNonNegative(subjects[..|subjects| - 1], today);
    }
  }

  /** With difficulties of at least -10 and a non-negative day, every row
      gets between 0 and the day's hours, give or take an eighth of an hour
      of rounding. */
  lemma AllocationBounded(subjects: seq<Subject>, dailyHours: real, today: int, k: nat)
    requires k < |subjects| && dailyHours >= 0.0
    requires forall i :: 0 <= i < |subjects| ==> subjects[i].difficulty >= -10
    ensures var row := RowOf(subjects[k], TotalUrgency(subjects, today), dailyHours, today);
            0.0 <= row.allocatedHours <= dailyHours + 0.125
  {
    var total := TotalUrgency(subjects, today);
    var u := Urgency(subjects[k], today);
    UrgencyAtMostTotal(subjects, today, k);
    RowShape(subjects[k], total, dailyHours, today);
    if ChaptersRemaining(subjects[k]) > 0 && u > 0.0 && total > 0.0 {
      FractionOfDay(u, total, dailyHours);
    }
  }

  /** A part of a positive whole gets at most the whole day. */
  lemma FractionOfDay(u: real, total: real, dailyHours: real)
    requires 0.0 <= u <= total && total > 0.0 && dailyHours >= 0.0
    ensures 0.0 <= Proportion(u, total, dailyHours) <= dailyHours
  {
    var f := u / total;
    assert f * total == u;
    assert f <= 1.0;
    assert f * dailyHours <= 1.0 * dailyHours;
  }
}
