/** The earliest planner (basic_demo.py): a subject's urgency is its
    difficulty per day left; the subjects are ranked by urgency, the day's
    hours are shared in proportion and shown to one decimal, and each
    subject gets a colour by urgency and its first topic as focus. Dates are
    day numbers and `today` is a parameter; what the demo prints for the
    subjects is modelled as one record per subject, and, when a subject has
    no topic, the record of the four lines printed for it before the
    failure. */
module BasicDemo {
  import opened Rounding
  import opened Lists
  import opened Wrappers

  /** A subject record of the demo. */
  datatype DemoSubject = DemoSubject(name: string, difficulty: int, examDate: int, topics: seq<string>)

  /** What `calculate_urgency` returns: the bare sentinel 9999 for an exam
      today or past, else the pair (urgency, days left). */
  datatype UrgencyResult = Panic | Scored(score: real, daysLeft: int)

  /** One entry of `study_queue`. */
  datatype QueueItem = QueueItem(name: string, score: real, daysLeft: int, topics: seq<string>)

  /** The status icon: green, orange or red circle. */
  datatype Icon = Green | Orange | Red

  /** What the demo shows for one subject. */
  datatype Line = Line(icon: Icon, name: string, daysLeft: int, score: real, hours: real, focusTopic: string)

  /** The four lines shown for a subject before its focus topic: icon and
      name, days to the exam, urgency score and study time. */
  datatype Header = Header(icon: Icon, name: string, daysLeft: int, score: real, hours: real)

  /** Why the demo stops: unpacking the sentinel fails for subject `name`,
      or the focus topic of a subject does not exist, after its `header`
      has been shown. */
  datatype DemoError = SentinelNotUnpackable(name: string) | NoFocusTopic(header: Header)

  /** How the demo ends: every line shown, or the lines shown before it
      stopped with an error. */
  datatype Outcome = Shown(lines: seq<Line>) | Stopped(lines: seq<Line>, error: DemoError)

  /** `calculate_urgency(subject, today)`. */
  function CalculateUrgency(difficulty: int, examDate: int, today: int): (r: UrgencyResult)
    ensures r.Panic? <==> examDate - today <= 0
    ensures r.Scored? ==> r.daysLeft == examDate - today && r.daysLeft >= 1
  {
    var daysLeft := examDate - today;
    if daysLeft <= 0 then Panic else Scored(difficulty as real / daysLeft as real, daysLeft)
  }

  /** The score is the difficulty per day left: over the days left it adds
      up to the difficulty. */
  lemma ScoreTimesDays(difficulty: int, examDate: int, today: int)
    requires examDate - today >= 1
    ensures var r := CalculateUrgency(difficulty, examDate, today);
            r.score * r.daysLeft as real == difficulty as real
  {
  }

  /** The first subject, in input order, whose exam is today or past. */
  function FirstPanic(subjects: seq<DemoSubject>, today: int): (r: Option<string>)
    ensures r.None? <==> forall k :: 0 <= k < |subjects| ==> subjects[k].examDate - today >= 1
    ensures r.Some? ==> exists k :: 0 <= k < |subjects| && subjects[k].examDate - today <= 0
                                  && r.value == subjects[k].name
  {
    if subjects == [] then None
    else if subjects[0].examDate - today <= 0 then Some(subjects[0].name)
    else
      var r := FirstPanic(subjects[1..], today);
      assert forall k :: 0 < k < |subjects| ==> subjects[k] == subjects[1..][k - 1];
      r
  }

  /** `study_queue` when no exam is today or past. */
  function Queue(subjects: seq<DemoSubject>, today: int): (q: seq<QueueItem>)
    requires forall k :: 0 <= k < |subjects| ==> subjects[k].examDate - today >= 1
    ensures |q| == |subjects|
    ensures forall k :: 0 <= k < |subjects| ==>
              CalculateUrgency(subjects[k].difficulty, subjects[k].examDate, today)
                == Scored(q[k].score, q[k].daysLeft)
              && q[k].name == subjects[k].name && q[k].topics == subjects[k].topics
  {
    seq(|subjects|, k requires 0 <= k < |subjects| =>
      var u := CalculateUrgency(subjects[k].difficulty, subjects[k].examDate, today);
      QueueItem(subjects[k].name, u.score, u.daysLeft, subjects[k].topics))
  }

  /** The sort key of `study_queue`. */
  function ScoreOf(item: QueueItem): real
  {
    item.score
  }

  /** `sum(s["score"] for s in study_queue)`. */
  function TotalScore(items: seq<QueueItem>): real
  {
    if items == [] then 0.0 else TotalScore(items[..|items| - 1]) + items[|items| - 1].score
  }

  /** The hours shown: the proportional share rounded to one decimal, or 0
      when the total is not positive. */
  function Hours(score: real, total: real, dailyHours: real): (h: real)
    ensures total > 0.0 ==> -0.05 <= h - Proportion(score, total, dailyHours) <= 0.05
    ensures total <= 0.0 ==> h == 0.0
  {
    if total > 0.0 then RoundTo(Proportion(score, total, dailyHours), 10) else 0.0
  }

  /** `(item["score"] / total_score) * daily_hours_available`. */
  function Proportion(score: real, total: real, dailyHours: real): real
    requires total != 0.0
  {
    score / total * dailyHours
  }

  /** The icon: later checks override earlier ones. */
  function IconFor(score: real): (icon: Icon)
    ensures icon == Red <==> score > 2.0
    ensures icon == Orange <==> 1.0 < score <= 2.0
    ensures icon == Green <==> score <= 1.0
  {
    if score > 2.0 then Red else if score > 1.0 then Orange else Green
  }

  /** What is shown for a queue item with a focus topic. */
  function LineOf(item: QueueItem, total: real, dailyHours: real): Line
    requires item.topics != []
  {
    Line(IconFor(item.score), item.name, item.daysLeft, item.score,
         Hours(item.score, total, dailyHours), item.topics[0])
  }

  /** What is shown for a queue item before its focus topic. */
  function HeaderOf(item: QueueItem, total: real, dailyHours: real): Header
  {
    Header(IconFor(item.score), item.name, item.daysLeft, item.score, Hours(item.score, total, dailyHours))
  }

  /** The display loop over the sorted queue: a line per item, stopping at
      the first item without topics once its header is shown. */
  function Display(items: seq<QueueItem>, total: real, dailyHours: real): Outcome
  {
    if items == [] then Shown([])
    else
      match Display(items[..|items| - 1], total, dailyHours)
      case Stopped(lines, e) => Stopped(lines, e)
      case Shown(lines) =>
        var last := items[|items| - 1];
        if last.topics == [] then Stopped(lines, NoFocusTopic(HeaderOf(last, total, dailyHours)))
        else Shown(lines + [LineOf(last, total, dailyHours)])
  }

  /** The outcome of `generate_simple_plan(daily_hours)` on day `today`. */
  function SimplePlan(subjects: seq<DemoSubject>, dailyHours: real, today: int): Outcome
  {
    match FirstPanic(subjects, today)
    case Some(name) => Stopped([], SentinelNotUnpackable(name))
    case None =>
      var queue := SortDesc(Queue(subjects, today), ScoreOf);
      Display(queue, TotalScore(queue), dailyHours)
  }

  /** `generate_simple_plan`: score every subject, sort, then show each. */
  method GenerateSimplePlan(subjects: seq<DemoSubject>, dailyHours: real, today: int)
    returns (outcome: Outcome)
    ensures outcome == SimplePlan(subjects, dailyHours, today)
  {
    var studyQueue, panicked := ScoreSubjects(subjects, today);
    if panicked.Some? {
      return Stopped([], SentinelNotUnpackable(panicked.value));
    }
    studyQueue := SortDesc(studyQueue, ScoreOf);
    var totalScore := SumScores(studyQueue);
    outcome := ShowQueue(studyQueue, totalScore, dailyHours);
  }

  /** The scoring loop: stops at the first subject whose urgency is the
      sentinel. */
  method ScoreSubjects(subjects: seq<DemoSubject>, today: int)
    returns (studyQueue: seq<QueueItem>, panicked: Option<string>)
    ensures panicked == FirstPanic(subjects, today)
    ensures panicked.None? ==> studyQueue == Queue(subjects, today)
  {
    studyQueue := [];
    for i := 0 to |subjects|
      invariant FirstPanic(subjects[..i], today).None?
      invariant studyQueue == Queue(subjects[..i], today)
    {
      var sub := subjects[i];
      var r := CalculateUrgency(sub.difficulty, sub.examDate, today);
      if r.Panic? {
        PanicPrefix(subjects, today, i);
        return studyQueue, Some(sub.name);
      }
      ScoreStep(subjects, today, i, studyQueue);
      studyQueue := studyQueue + [QueueItem(sub.name, r.score, r.daysLeft, sub.topics)];
    }
    assert subjects[..|subjects|] == subjects;
    panicked := None;
  }

  /** `sum(s["score"] for s in study_queue)`, one item at a time. */
  method SumScores(studyQueue: seq<QueueItem>) returns (totalScore: real)
    ensures totalScore == TotalScore(studyQueue)
  {
    totalScore := 0.0;
    for i := 0 to |studyQueue|
      invariant totalScore == TotalScore(studyQueue[..i])
    {
      assert studyQueue[..i + 1][..i] == studyQueue[..i];
      totalScore := totalScore + studyQueue[i].score;
    }
    assert studyQueue[..|studyQueue|] == studyQueue;
  }

  /** The display loop: hours and icon per item, then its focus topic. */
  method ShowQueue(studyQueue: seq<QueueItem>, totalScore: real, dailyHours: real)
    returns (outcome: Outcome)
    ensures outcome == Display(studyQueue, totalScore, dailyHours)
  {
    var lines: seq<Line> := [];
    for i := 0 to |studyQueue|
      invariant Display(studyQueue[..i], totalScore, dailyHours) == Shown(lines)
    {
      var item := studyQueue[i];
      assert studyQueue[..i + 1][..i] == studyQueue[..i];
      var hours := 0.0;
      if totalScore > 0.0 {
        hours := item.score / totalScore * dailyHours;
        assert hours == Proportion(item.score, totalScore, dailyHours);
        hours := RoundTo(hours, 10);
      }
      var statusIcon := Green;
      if item.score > 1.0 {
        statusIcon := Orange;
      }
      if item.score > 2.0 {
        statusIcon := Red;
      }
      assert hours == Hours(item.score, totalScore, dailyHours);
      assert statusIcon == IconFor(item.score);
      if item.topics == [] {
        DisplayStopsAt(studyQueue, i + 1, totalScore, dailyHours);
        return Stopped(lines, NoFocusTopic(Header(statusIcon, item.name, item.daysLeft, item.score, hours)));
      }
      lines := lines + [Line(statusIcon, item.name, item.daysLeft, item.score, hours, item.topics[0])];
    }
    assert studyQueue[..|studyQueue|] == studyQueue;
    outcome := Shown(lines);
  }

  /** Once the display has stopped, later items change nothing. */
  lemma {:induction false} DisplayStopsAt(items: seq<QueueItem>, m: nat, total: real, dailyHours: real)
    requires m <= |items| && Display(items[..m], total, dailyHours).Stopped?
    ensures Display(items, total, dailyHours) == Display(items[..m], total, dailyHours)
    decreases |items| - m
  {
    if m < |items| {
      var n := |items|;
      assert items[..n - 1][..m] == items[..m];
      DisplayStopsAt(items[..n - 1], m, total, dailyHours);
    } else {
      assert items[..m] == items;
    }
  }

  /** The first panic of the input is found at the first subject whose exam
      is today or past. */
  lemma PanicPrefix(subjects: seq<DemoSubject>, today: int, i: nat)
    requires i < |subjects| && subjects[i].examDate - today <= 0
    requires FirstPanic(subjects[..i], today).None?
    ensures FirstPanic(subjects, today) == Some(subjects[i].name)
  {
    if i > 0 {
      assert subjects[0] == subjects[..i][0];
      assert subjects[1..][..i - 1] == subjects[..i][1..];
      PanicPrefix(subjects[1..], today, i - 1);
    }
  }

  /** One more scored subject extends the queue of the prefix by its item. */
  lemma ScoreStep(subjects: seq<DemoSubject>, today: int, i: nat, q: seq<QueueItem>)
    requires i < |subjects| && subjects[i].examDate - today >= 1
    requires FirstPanic(subjects[..i], today).None?
    requires q == Queue(subjects[..i], today)
    ensures FirstPanic(subjects[..i + 1], today).None?
    ensures var u := CalculateUrgency(subjects[i].difficulty, subjects[i].examDate, today);
            q + [QueueItem(subjects[i].name, u.score, u.daysLeft, subjects[i].topics)]
              == Queue(subjects[..i + 1], today)
  {
    assert forall k :: 0 <= k < i ==> subjects[..i + 1][k] == subjects[..i][k];
  }

  /** Display shows every item iff every item has a topic, and then the
      lines follow the items one to one. */
  lemma {:induction false} DisplayShown(items: seq<QueueItem>, total: real, dailyHours: real)
    ensures Display(items, total, dailyHours).Shown? <==> forall k :: 0 <= k < |items| ==> items[k].topics != []
    ensures Display(items, total, dailyHours).Shown? ==>
              var lines := Display(items, total, dailyHours).lines;
              |lines| == |items|
              && forall k :: 0 <= k < |items| ==> lines[k] == LineOf(items[k], total, dailyHours)
  {
    if items != [] {
      var n := |items| - 1;
      DisplayShown(items[..n], total, dailyHours);
      assert forall k :: 0 <= k < n ==> items[..n][k] == items[k];
    }
  }

  /** Display stops at the first item without topics: the items before it
      are shown line by line, and its header is the last thing shown. */
  lemma {:induction false} DisplayStopped(items: seq<QueueItem>, total: real, dailyHours: real)
    requires Display(items, total, dailyHours).Stopped?
    ensures exists k :: 0 <= k < |items| && FirstWithoutTopics(items, k)
              && Display(items, total, dailyHours).error == NoFocusTopic(HeaderOf(items[k], total, dailyHours))
              && ShownBefore(Display(items, total, dailyHours).lines, items, k, total, dailyHours)
  {
    var n := |items| - 1;
    var init := items[..n];
    assert forall j :: 0 <= j < n ==> init[j] == items[j];
    if Display(init, total, dailyHours).Stopped? {
      DisplayStopped(init, total, dailyHours);
      var k :| 0 <= k < n && FirstWithoutTopics(init, k)
               && Display(init, total, dailyHours).error == NoFocusTopic(HeaderOf(init[k], total, dailyHours))
               && ShownBefore(Display(init, total, dailyHours).lines, init, k, total, dailyHours);
      assert FirstWithoutTopics(items, k);
    } else {
      DisplayShown(init, total, dailyHours);
      assert FirstWithoutTopics(items, n);
    }
  }

  /** Item `k` is the first item without topics. */
  predicate FirstWithoutTopics(items: seq<QueueItem>, k: int)
    requires 0 <= k < |items|
  {
    items[k].topics == [] && forall j :: 0 <= j < k ==> items[j].topics != []
  }

  /** `lines` are the lines of the first `k` items, one each. */
  predicate ShownBefore(lines: seq<Line>, items: seq<QueueItem>, k: int, total: real, dailyHours: real)
    requires 0 <= k <= |items|
  {
    |lines| == k
    && forall j :: 0 <= j < k ==> items[j].topics != [] && lines[j] == LineOf(items[j], total, dailyHours)
  }

  /** The demo completes iff no exam is today or past and every subject has
      a topic; then it shows one line per subject, most urgent first, with
      the subject's own figures and its first topic as focus. */
  lemma SimplePlanShown(subjects: seq<DemoSubject>, dailyHours: real, today: int)
    ensures SimplePlan(subjects, dailyHours, today).Shown? <==>
              forall k :: 0 <= k < |subjects| ==> subjects[k].examDate - today >= 1 && subjects[k].topics != []
    ensures SimplePlan(subjects, dailyHours, today).Shown? ==>
              var lines := SimplePlan(subjects, dailyHours, today).lines;
              var queue := SortDesc(Queue(subjects, today), ScoreOf);
              && |lines| == |subjects|
              && SortedDesc(queue, ScoreOf)
              && multiset(queue) == multiset(Queue(subjects, today))
              && forall k :: 0 <= k < |lines| ==>
                   queue[k].topics != [] && lines[k] == LineOf(queue[k], TotalScore(queue), dailyHours)
  {
    if FirstPanic(subjects, today).None? {
      var q := Queue(subjects, today);
      var queue := SortDesc(q, ScoreOf);
      SortDescCorrect(q, ScoreOf);
      DisplayShown(queue, TotalScore(queue), dailyHours);
      forall k | 0 <= k < |subjects| ensures q[k] in queue {
        SortDescMembership(q, ScoreOf, q[k]);
      }
      if forall k :: 0 <= k < |subjects| ==> subjects[k].topics != [] {
        forall k | 0 <= k < |queue| ensures queue[k].topics != [] {
          SortDescMembership(q, ScoreOf, queue[k]);
          var j :| 0 <= j < |q| && q[j] == queue[k];
        }
      } else {
        var j :| 0 <= j < |subjects| && subjects[j].topics == [];
        var k :| 0 <= k < |queue| && queue[k] == q[j];
        assert queue[k].topics == [];
      }
    }
  }
}
