/** The topic-level allocation engine of the back end (backend/logic.py).
    Every pending topic of every subject gets an urgency score; the scores
    are normalised over all subjects together; the pending items are sorted
    by urgency, most urgent first; each gets its proportional share of the
    day's hours, a share under a quarter hour is dropped, the rest is rounded
    to the nearest quarter hour.

    Dates are whole day numbers and `today` is a parameter; hours and
    urgencies are exact reals. */
module Logic {
  import opened Rounding
  import opened Lists

  /** A topic as the back end stores it: `status` is true once it is done. */
  datatype Topic = Topic(name: string, weightage: real, status: bool)

  /** A subject: difficulty on a 0 to 10 scale, exam date as a day number. */
  datatype Subject = Subject(name: string, difficulty: int, examDate: int, topics: seq<Topic>)

  /** One entry of `all_pending_items`. */
  datatype PendingItem = PendingItem(subject: string, topic: string, urgency: real, date: int)

  /** One entry of the returned plan. */
  datatype PlanEntry = PlanEntry(
    subject: string, topic: string, allocatedHours: real, urgencyScore: real, examDate: int)

  /** The shortest allocation worth scheduling, in hours. */
  const MinShare: real := 0.25

  /** `1.0 + difficulty / 10.0`. */
  function DifficultyMultiplier(difficulty: int): (m: real)
    ensures 0 <= difficulty <= 10 ==> 1.0 <= m <= 2.0
    ensures difficulty >= 0 <==> m >= 1.0
  {
    1.0 + difficulty as real / 10.0
  }

  /** `max(1, days)`: an exam today or in the past counts as one day away. */
  function EffectiveDays(days: int): (d: int)
    ensures d >= 1
    ensures days >= 1 ==> d == days
  {
    if days < 1 then 1 else days
  }

  /** `calculate_topic_urgency`: weightage times the difficulty multiplier,
      divided by the days left, at least one. */
  function TopicUrgency(weightage: real, difficulty: int, daysRemaining: int): (score: real)
    ensures score * EffectiveDays(daysRemaining) as real == weightage * DifficultyMultiplier(difficulty)
    ensures daysRemaining <= 1 ==> score == weightage * DifficultyMultiplier(difficulty)
    ensures weightage >= 0.0 && difficulty >= -10 ==> score >= 0.0
    ensures weightage >= 0.0 && difficulty >= 0 ==>
              0.0 <= score <= weightage * DifficultyMultiplier(difficulty)
    ensures weightage > 0.0 && difficulty >= 0 ==> score > 0.0
  {
    var m := DifficultyMultiplier(difficulty);
    var d := EffectiveDays(daysRemaining) as real;
    assert weightage >= 0.0 && difficulty >= -10 ==> weightage * m >= 0.0;
    weightage * m / d
  }

  /** The pending item `get_study_plan` records for topic `t` of `sub`. */
  function ItemOf(sub: Subject, t: Topic, today: int): PendingItem
  {
    var daysLeft := EffectiveDays(sub.examDate - today);
    PendingItem(sub.name, t.name, TopicUrgency(t.weightage, sub.difficulty, daysLeft), sub.examDate)
  }

  /** The items recorded for the not-done topics among `topics` of `sub`, in
      order. */
  function PendingTopics(sub: Subject, topics: seq<Topic>, today: int): seq<PendingItem>
  {
    if topics == [] then []
    else
      var t := topics[|topics| - 1];
      PendingTopics(sub, topics[..|topics| - 1], today)
        + (if !t.status then [ItemOf(sub, t, today)] else [])
  }

  /** `all_pending_items` after the collection loop: subject by subject,
      topic by topic. */
  function Pending(subjects: seq<Subject>, today: int): seq<PendingItem>
  {
    if subjects == [] then []
    else
      var sub := subjects[|subjects| - 1];
      Pending(subjects[..|subjects| - 1], today) + PendingTopics(sub, sub.topics, today)
  }

  /** The sum of the urgencies of `items`. */
  function TotalUrgency(items: seq<PendingItem>): real
  {
    if items == [] then 0.0
    else TotalUrgency(items[..|items| - 1]) + items[|items| - 1].urgency
  }

  /** The sort key of `all_pending_items.sort`. */
  function UrgencyOf(item: PendingItem): real
  {
    item.urgency
  }

  /** `item`'s proportional share of `dailyHours`, or 0 when the total is not
      positive (then the source computes no share at all). */
  function Share(item: PendingItem, total: real, dailyHours: real): real
  {
    ShareOf(item.urgency, total, dailyHours)
  }

  /** The proportional share of `dailyHours` for an urgency `u`. */
  function ShareOf(u: real, total: real, dailyHours: real): real
  {
    if total > 0.0 then u / total * dailyHours else 0.0
  }

  /** Lines 57 and 60 applied to a share: zero below a quarter hour, then
      rounded to the nearest quarter hour. */
  function Allocation(share: real): (hours: real)
    ensures hours > 0.0 <==> share >= MinShare
    ensures hours > 0.0 ==> hours >= MinShare && IsQuarterMultiple(hours)
    ensures hours > 0.0 ==> -0.125 <= hours - share <= 0.125
    ensures hours > 0.0 ==> hours == QuarterRound(share)
    ensures hours > 0.0 && (hours - share == 0.125 || share - hours == 0.125) ==> (hours * 4.0).Floor % 2 == 0
  {
    var kept := if share < MinShare then 0.0 else share;
    QuarterRound(kept)
  }

  /** The plan entry emitted for `item` with `hours` allocated; the urgency
      is shown rounded to two decimals. */
  function EntryOf(item: PendingItem, hours: real): PlanEntry
  {
    PlanEntry(item.subject, item.topic, hours, RoundTo(item.urgency, 100), item.date)
  }

  /** What one pass of the allocation loop appends for `item`. */
  function EmitOne(item: PendingItem, total: real, dailyHours: real): seq<PlanEntry>
  {
    if total > 0.0 then
      var hours := Allocation(Share(item, total, dailyHours));
      if hours > 0.0 then [EntryOf(item, hours)] else []
    else []
  }

  /** `plan_data` after the allocation loop has run over `items`. */
  function Emit(items: seq<PendingItem>, total: real, dailyHours: real): seq<PlanEntry>
  {
    if items == [] then []
    else Emit(items[..|items| - 1], total, dailyHours) + EmitOne(items[|items| - 1], total, dailyHours)
  }

  /** The result of `get_study_plan(subjects, daily_hours)` on day `today`. */
  function StudyPlan(subjects: seq<Subject>, dailyHours: real, today: int): seq<PlanEntry>
  {
    var pending := Pending(subjects, today);
    if pending == [] then []
    else Emit(SortDesc(pending, UrgencyOf), TotalUrgency(pending), dailyHours)
  }

  /** One more topic extends the collected items by at most its own item. */
  lemma PendingTopicsStep(sub: Subject, topics: seq<Topic>, j: nat, today: int)
    requires j < |topics|
    ensures PendingTopics(sub, topics[..j + 1], today)
         == PendingTopics(sub, topics[..j], today)
            + (if !topics[j].status then [ItemOf(sub, topics[j], today)] else [])
  {
    assert topics[..j + 1][..j] == topics[..j];
  }

  /** One more subject extends the collected items by its pending topics. */
  lemma PendingStep(subjects: seq<Subject>, i: nat, today: int)
    requires i < |subjects|
    ensures Pending(subjects[..i + 1], today)
         == Pending(subjects[..i], today) + PendingTopics(subjects[i], subjects[i].topics, today)
  {
    assert subjects[..i + 1][..i] == subjects[..i];
  }

  /** Appending an item adds its urgency to the total. */
  lemma TotalUrgencyAppend(items: seq<PendingItem>, x: PendingItem)
    ensures TotalUrgency(items + [x]) == TotalUrgency(items) + x.urgency
  {
    assert (items + [x])[..|items|] == items;
  }

  /** One more pass of the allocation loop appends `EmitOne` of its item. */
  lemma EmitStep(items: seq<PendingItem>, k: nat, total: real, dailyHours: real)
    requires k < |items|
    ensures Emit(items[..k + 1], total, dailyHours)
         == Emit(items[..k], total, dailyHours) + EmitOne(items[k], total, dailyHours)
  {
    assert items[..k + 1][..k] == items[..k];
  }

  /** `get_study_plan`: collect the pending topics while summing their
      urgencies, sort them, then allocate. */
  method GetStudyPlan(subjects: seq<Subject>, dailyHours: real, today: int)
    returns (plan: seq<PlanEntry>)
    ensures plan == StudyPlan(subjects, dailyHours, today)
  {
    var allPending: seq<PendingItem> := [];
    var totalSystemUrgency := 0.0;
    for i := 0 to |subjects|
      invariant allPending == Pending(subjects[..i], today)
      invariant totalSystemUrgency == TotalUrgency(allPending)
    {
      allPending, totalSystemUrgency := CollectPending(subjects[i], today, allPending, totalSystemUrgency);
      PendingStep(subjects, i, today);
    }
    assert subjects[..|subjects|] == subjects;

    if allPending == [] {
      return [];
    }

    var sorted := SortDesc(allPending, UrgencyOf);
    plan := AllocateHours(sorted, totalSystemUrgency, dailyHours);
  }

  /** The inner loop of `get_study_plan`: appends the items of `sub`'s
      pending topics, in order, and adds their urgencies to the total. */
  method CollectPending(sub: Subject, today: int, allPending: seq<PendingItem>, total: real)
    returns (items: seq<PendingItem>, sum: real)
    requires total == TotalUrgency(allPending)
    ensures items == allPending + PendingTopics(sub, sub.topics, today)
    ensures sum == TotalUrgency(items)
  {
    items, sum := allPending, total;
    var daysLeft := EffectiveDays(sub.examDate - today);
    for j := 0 to |sub.topics|
      invariant items == allPending + PendingTopics(sub, sub.topics[..j], today)
      invariant sum == TotalUrgency(items)
    {
      var topic := sub.topics[j];
      if !topic.status {
        var urgency := TopicUrgency(topic.weightage, sub.difficulty, daysLeft);
        var item := PendingItem(sub.name, topic.name, urgency, sub.examDate);
        TotalUrgencyAppend(items, item);
        sum := sum + urgency;
        items := items + [item];
      }
      PendingTopicsStep(sub, sub.topics, j, today);
    }
    assert sub.topics[..|sub.topics|] == sub.topics;
  }

  /** The allocation loop of `get_study_plan` over the sorted items. */
  method AllocateHours(sorted: seq<PendingItem>, totalSystemUrgency: real, dailyHours: real)
    returns (plan: seq<PlanEntry>)
    ensures plan == Emit(sorted, totalSystemUrgency, dailyHours)
  {
    plan := [];
    for k := 0 to |sorted|
      invariant plan == Emit(sorted[..k], totalSystemUrgency, dailyHours)
    {
      var item := sorted[k];
      if totalSystemUrgency > 0.0 {
        var allocation := item.urgency / totalSystemUrgency * dailyHours;
        assert allocation == Share(item, totalSystemUrgency, dailyHours);
        if allocation < MinShare {
          allocation := 0.0;
        }
        allocation := QuarterRound(allocation);
        if allocation > 0.0 {
          plan := plan + [PlanEntry(item.subject, item.topic, allocation,
                                    RoundTo(item.urgency, 100), item.date)];
        }
      }
      EmitStep(sorted, k, totalSystemUrgency, dailyHours);
    }
    assert sorted[..|sorted|] == sorted;
  }

  // ---------------------------------------------------------------------
  // What the plan is: the pending topics, and only those, scored and
  // sorted; exactly the ones whose share reaches a quarter hour, each with
  // its share rounded to a quarter hour.
  // ---------------------------------------------------------------------

  /** `sub`'s topic `t` is not done and yields the pending item `x`. */
  predicate PendingTopicOf(subjects: seq<Subject>, today: int, x: PendingItem, i: int, j: int)
  {
    0 <= i < |subjects| && 0 <= j < |subjects[i].topics|
    && !subjects[i].topics[j].status
    && x == ItemOf(subjects[i], subjects[i].topics[j], today)
  }

  /** The items recorded for one subject are exactly its not-done topics. */
  lemma {:induction false} PendingTopicsMembership(sub: Subject, topics: seq<Topic>, today: int, x: PendingItem)
    ensures x in PendingTopics(sub, topics, today)
        <==> exists j :: 0 <= j < |topics| && !topics[j].status && x == ItemOf(sub, topics[j], today)
  {
    if topics != [] {
      var n := |topics| - 1;
      PendingTopicsMembership(sub, topics[..n], today, x);
      if x in PendingTopics(sub, topics[..n], today) {
        var j :| 0 <= j < n && !topics[..n][j].status && x == ItemOf(sub, topics[..n][j], today);
        assert topics[j] == topics[..n][j];
      }
      if exists j :: 0 <= j < |topics| && !topics[j].status && x == ItemOf(sub, topics[j], today) {
        var j :| 0 <= j < |topics| && !topics[j].status && x == ItemOf(sub, topics[j], today);
        if j < n {
          assert topics[..n][j] == topics[j];
        }
      }
    }
  }

  /** Only topics whose status is false become candidates, and all of them
      do. */
  lemma {:induction false} PendingMembership(subjects: seq<Subject>, today: int, x: PendingItem)
    ensures x in Pending(subjects, today)
        <==> exists i, j :: PendingTopicOf(subjects, today, x, i, j)
  {
    if subjects != [] {
      var n := |subjects| - 1;
      var sub := subjects[n];
      PendingMembership(subjects[..n], today, x);
      PendingTopicsMembership(sub, sub.topics, today, x);
      assert Pending(subjects, today) == Pending(subjects[..n], today) + PendingTopics(sub, sub.topics, today);
      if x in Pending(subjects[..n], today) {
        var i, j :| PendingTopicOf(subjects[..n], today, x, i, j);
        assert subjects[..n][i] == subjects[i];
        assert PendingTopicOf(subjects, today, x, i, j);
      }
      if x in PendingTopics(sub, sub.topics, today) {
        var j :| 0 <= j < |sub.topics| && !sub.topics[j].status && x == ItemOf(sub, sub.topics[j], today);
        assert PendingTopicOf(subjects, today, x, n, j);
      }
      if exists i, j :: PendingTopicOf(subjects, today, x, i, j) {
        var i, j :| PendingTopicOf(subjects, today, x, i, j);
        if i < n {
          assert subjects[..n][i] == subjects[i];
          assert PendingTopicOf(subjects[..n], today, x, i, j);
        }
      }
    }
  }

  /** A subject whose topics are all done contributes no item. */
  lemma {:induction false} AllDonePendingTopics(sub: Subject, topics: seq<Topic>, today: int)
    requires forall j :: 0 <= j < |topics| ==> topics[j].status
    ensures PendingTopics(sub, topics, today) == []
  {
    if topics != [] {
      AllDonePendingTopics(sub, topics[..|topics| - 1], today);
    }
  }

  /** With every topic done, the plan is empty. */
  lemma {:induction false} NothingPendingEmptyPlan(subjects: seq<Subject>, dailyHours: real, today: int)
    requires forall i, j :: 0 <= i < |subjects| && 0 <= j < |subjects[i].topics| ==> subjects[i].topics[j].status
    ensures Pending(subjects, today) == []
    ensures StudyPlan(subjects, dailyHours, today) == []
  {
    if subjects != [] {
      var n := |subjects| - 1;
      NothingPendingEmptyPlan(subjects[..n], dailyHours, today);
      AllDonePendingTopics(subjects[n], subjects[n].topics, today);
    }
  }

  /** The items of `items` whose share reaches a quarter hour, in order. */
  function Worthy(items: seq<PendingItem>, total: real, dailyHours: real): seq<PendingItem>
  {
    if items == [] then []
    else
      (if Share(items[0], total, dailyHours) >= MinShare then [items[0]] else [])
        + Worthy(items[1..], total, dailyHours)
  }

  lemma {:induction false} WorthyAppend(items: seq<PendingItem>, x: PendingItem, total: real, dailyHours: real)
    ensures Worthy(items + [x], total, dailyHours)
         == Worthy(items, total, dailyHours) + (if Share(x, total, dailyHours) >= MinShare then [x] else [])
  {
    if items != [] {
      assert (items + [x])[0] == items[0];
      assert (items + [x])[1..] == items[1..] + [x];
      WorthyAppend(items[1..], x, total, dailyHours);
    }
  }

  /** An item is selected iff it is one of `items` and its share reaches a
      quarter hour. */
  lemma {:induction false} WorthyMembership(items: seq<PendingItem>, total: real, dailyHours: real, x: PendingItem)
    ensures x in Worthy(items, total, dailyHours) <==> x in items && Share(x, total, dailyHours) >= MinShare
  {
    if items != [] {
      WorthyMembership(items[1..], total, dailyHours, x);
      assert items == [items[0]] + items[1..];
    }
  }

  /** Selecting keeps the descending order of urgency. */
  lemma {:induction false} WorthySorted(items: seq<PendingItem>, total: real, dailyHours: real)
    requires SortedDesc(items, UrgencyOf)
    ensures SortedDesc(Worthy(items, total, dailyHours), UrgencyOf)
  {
    if items != [] {
      var rest := Worthy(items[1..], total, dailyHours);
      WorthySorted(items[1..], total, dailyHours);
      var w := (if Share(items[0], total, dailyHours) >= MinShare then [items[0]] else []) + rest;
      forall i, j | 0 <= i < j < |w| ensures w[i].urgency >= w[j].urgency {
        WorthyMembership(items[1..], total, dailyHours, w[j]);
        if i > 0 || |w| == |rest| {
          assert w[j] in rest;
        }
      }
    }
  }

  /** Selecting items with one urgency `u` keeps all of them or none. */
  lemma {:induction false} WorthyKeyRun(items: seq<PendingItem>, total: real, dailyHours: real, u: real)
    ensures KeyRun(Worthy(items, total, dailyHours), UrgencyOf, u)
         == if ShareOf(u, total, dailyHours) >= MinShare then KeyRun(items, UrgencyOf, u) else []
  {
    if items != [] {
      var x, rest := items[0], items[1..];
      WorthyKeyRun(rest, total, dailyHours, u);
      var head := if x.urgency == u then [x] else [];
      assert KeyRun(items, UrgencyOf, u) == head + KeyRun(rest, UrgencyOf, u);
      assert x.urgency == u ==> Share(x, total, dailyHours) == ShareOf(u, total, dailyHours);
      var w := Worthy(items, total, dailyHours);
      if Share(x, total, dailyHours) >= MinShare {
        assert w == [x] + Worthy(rest, total, dailyHours);
        assert w[0] == x && w[1..] == Worthy(rest, total, dailyHours);
        assert KeyRun(w, UrgencyOf, u) == head + KeyRun(Worthy(rest, total, dailyHours), UrgencyOf, u);
      } else {
        assert w == Worthy(rest, total, dailyHours);
      }
    }
  }

  /** The loop emits one entry per selected item, in order, carrying its
      quarter-hour allocation. */
  lemma {:induction false} EmitWorthy(items: seq<PendingItem>, total: real, dailyHours: real)
    ensures |Emit(items, total, dailyHours)| == |Worthy(items, total, dailyHours)|
    ensures forall k :: 0 <= k < |Worthy(items, total, dailyHours)| ==>
              var x := Worthy(items, total, dailyHours)[k];
              Emit(items, total, dailyHours)[k] == EntryOf(x, Allocation(Share(x, total, dailyHours)))
  {
    if items != [] {
      var n := |items| - 1;
      EmitWorthy(items[..n], total, dailyHours);
      assert items == items[..n] + [items[n]];
      WorthyAppend(items[..n], items[n], total, dailyHours);
    }
  }

  /** With a total urgency that is not positive, nothing is emitted. */
  lemma NonPositiveTotalEmptyPlan(subjects: seq<Subject>, dailyHours: real, today: int)
    requires TotalUrgency(Pending(subjects, today)) <= 0.0
    ensures StudyPlan(subjects, dailyHours, today) == []
  {
    var p := Pending(subjects, today);
    if p != [] {
      var sorted := SortDesc(p, UrgencyOf);
      var total := TotalUrgency(p);
      EmitWorthy(sorted, total, dailyHours);
      if Worthy(sorted, total, dailyHours) != [] {
        WorthyMembership(sorted, total, dailyHours, Worthy(sorted, total, dailyHours)[0]);
      }
    }
  }

  /** The pending items the plan keeps: sorted by descending urgency, then
      restricted to those whose share reaches a quarter hour. */
  function Selection(subjects: seq<Subject>, dailyHours: real, today: int): seq<PendingItem>
  {
    var p := Pending(subjects, today);
    Worthy(SortDesc(p, UrgencyOf), TotalUrgency(p), dailyHours)
  }

  /** A pending item is kept iff its share of the day reaches a quarter
      hour; nothing else is kept. */
  lemma SelectionMembership(subjects: seq<Subject>, dailyHours: real, today: int, x: PendingItem)
    ensures var p := Pending(subjects, today);
            (x in Selection(subjects, dailyHours, today))
              <==> (x in p && Share(x, TotalUrgency(p), dailyHours) >= MinShare)
  {
    var p := Pending(subjects, today);
    WorthyMembership(SortDesc(p, UrgencyOf), TotalUrgency(p), dailyHours, x);
    SortDescMembership(p, UrgencyOf, x);
  }

  /** The kept items are in descending order of urgency, and items of equal
      urgency keep their input order: for each urgency `u`, the kept items
      with urgency `u` are all pending items with urgency `u` or none. */
  lemma SelectionOrder(subjects: seq<Subject>, dailyHours: real, today: int, u: real)
    ensures SortedDesc(Selection(subjects, dailyHours, today), UrgencyOf)
    ensures var p := Pending(subjects, today);
            KeyRun(Selection(subjects, dailyHours, today), UrgencyOf, u)
              == if ShareOf(u, TotalUrgency(p), dailyHours) >= MinShare then KeyRun(p, UrgencyOf, u) else []
  {
    var p := Pending(subjects, today);
    var sorted := SortDesc(p, UrgencyOf);
    SortDescCorrect(p, UrgencyOf);
    WorthySorted(sorted, TotalUrgency(p), dailyHours);
    WorthyKeyRun(sorted, TotalUrgency(p), dailyHours, u);
    SortDescStable(p, UrgencyOf, u);
  }

  /** The plan, entry by entry: one entry per kept item, in order, naming
      its subject, topic and exam date, showing its urgency to two decimals,
      and allocating a positive multiple of a quarter hour within an eighth
      of an hour of its exact share. */
  lemma StudyPlanEntries(subjects: seq<Subject>, dailyHours: real, today: int)
    ensures
      var total := TotalUrgency(Pending(subjects, today));
      var sel := Selection(subjects, dailyHours, today);
      var plan := StudyPlan(subjects, dailyHours, today);
      && |plan| == |sel|
      && (forall k :: 0 <= k < |plan| ==>
            && plan[k].subject == sel[k].subject && plan[k].topic == sel[k].topic
            && plan[k].examDate == sel[k].date
            && plan[k].urgencyScore == RoundTo(sel[k].urgency, 100)
            && plan[k].allocatedHours >= MinShare
            && IsQuarterMultiple(plan[k].allocatedHours)
            && -0.125 <= plan[k].allocatedHours - Share(sel[k], total, dailyHours) <= 0.125
            && plan[k].allocatedHours == QuarterRound(Share(sel[k], total, dailyHours)))
  {
    var p := Pending(subjects, today);
    var sorted, total := SortDesc(p, UrgencyOf), TotalUrgency(p);
    var sel := Worthy(sorted, total, dailyHours);
    EmitWorthy(sorted, total, dailyHours);
    forall k | 0 <= k < |sel| ensures Share(sel[k], total, dailyHours) >= MinShare {
      WorthyMembership(sorted, total, dailyHours, sel[k]);
    }
    if p == [] {
      assert sel == [];
    }
  }

  /** A larger urgency never gets a smaller share of a non-negative day. */
  lemma ShareMonotone(u: real, v: real, total: real, dailyHours: real)
    requires v <= u && total > 0.0 && dailyHours >= 0.0
    ensures ShareOf(v, total, dailyHours) <= ShareOf(u, total, dailyHours)
  {
    assert v / total <= u / total;
  }

  /** Of two kept items, the more urgent one shows no smaller urgency and
      gets no fewer hours. */
  lemma EntryPairOrdered(x: PendingItem, y: PendingItem, total: real, dailyHours: real)
    requires y.urgency <= x.urgency && dailyHours >= 0.0
    requires Share(y, total, dailyHours) >= MinShare
    ensures RoundTo(y.urgency, 100) <= RoundTo(x.urgency, 100)
    ensures Allocation(Share(y, total, dailyHours)) <= Allocation(Share(x, total, dailyHours))
  {
    RoundToMonotone(y.urgency, x.urgency, 100);
    ShareMonotone(x.urgency, y.urgency, total, dailyHours);
    QuarterRoundMonotone(Share(y, total, dailyHours), Share(x, total, dailyHours));
  }

  /** Along the plan the shown urgency is non-increasing, whatever the
      day's budget. */
  lemma PlanUrgencyOrdered(subjects: seq<Subject>, dailyHours: real, today: int)
    ensures var plan := StudyPlan(subjects, dailyHours, today);
            forall i, j :: 0 <= i < j < |plan| ==> plan[i].urgencyScore >= plan[j].urgencyScore
  {
    var p := Pending(subjects, today);
    if p != [] {
      var sorted, total := SortDesc(p, UrgencyOf), TotalUrgency(p);
      var sel := Worthy(sorted, total, dailyHours);
      var plan := Emit(sorted, total, dailyHours);
      EmitWorthy(sorted, total, dailyHours);
      SortDescCorrect(p, UrgencyOf);
      WorthySorted(sorted, total, dailyHours);
      forall i, j | 0 <= i < j < |plan|
        ensures plan[i].urgencyScore >= plan[j].urgencyScore
      {
        assert UrgencyOf(sel[i]) >= UrgencyOf(sel[j]);
        RoundToMonotone(sel[j].urgency, sel[i].urgency, 100);
      }
    }
  }

  /** Along the plan, both the shown urgency and the allocated hours are
      non-increasing. */
  lemma PlanOrdered(subjects: seq<Subject>, dailyHours: real, today: int)
    requires dailyHours >= 0.0
    ensures var plan := StudyPlan(subjects, dailyHours, today);
            forall i, j :: 0 <= i < j < |plan| ==>
              plan[i].urgencyScore >= plan[j].urgencyScore
              && plan[i].allocatedHours >= plan[j].allocatedHours
  {
    var p := Pending(subjects, today);
    if p != [] {
      var sorted, total := SortDesc(p, UrgencyOf), TotalUrgency(p);
      var sel := Worthy(sorted, total, dailyHours);
      var plan := Emit(sorted, total, dailyHours);
      EmitWorthy(sorted, total, dailyHours);
      SortDescCorrect(p, UrgencyOf);
      WorthySorted(sorted, total, dailyHours);
      forall i, j | 0 <= i < j < |plan|
        ensures plan[i].urgencyScore >= plan[j].urgencyScore
        ensures plan[i].allocatedHours >= plan[j].allocatedHours
      {
        assert UrgencyOf(sel[i]) >= UrgencyOf(sel[j]);
        WorthyMembership(sorted, total, dailyHours, sel[j]);
        EntryPairOrdered(sel[i], sel[j], total, dailyHours);
      }
    }
  }

  // ---------------------------------------------------------------------
  // The day's budget: the hours of one plan add up to at most the day's
  // hours, plus at most an eighth of an hour of rounding per entry.
  // ---------------------------------------------------------------------

  /** The total of the hours allocated along `plan`. */
  function PlanHours(plan: seq<PlanEntry>): real
  {
    if plan == [] then 0.0 else PlanHours(plan[..|plan| - 1]) + plan[|plan| - 1].allocatedHours
  }

  /** The total of the exact proportional shares of `items`. */
  function TotalShare(items: seq<PendingItem>, total: real, dailyHours: real): real
  {
    if items == [] then 0.0
    else TotalShare(items[..|items| - 1], total, dailyHours) + Share(items[|items| - 1], total, dailyHours)
  }

  /** Every item has a non-negative urgency. */
  predicate NonNegativeUrgencies(items: seq<PendingItem>)
  {
    forall k :: 0 <= k < |items| ==> items[k].urgency >= 0.0
  }

  /** The sum of the hours of two runs of entries. */
  lemma {:induction false} PlanHoursAppend(a: seq<PlanEntry>, b: seq<PlanEntry>)
    ensures PlanHours(a + b) == PlanHours(a) + PlanHours(b)
    decreases |b|
  {
    if b != [] {
      var n := |b| - 1;
      assert (a + b)[..|a + b| - 1] == a + b[..n];
      PlanHoursAppend(a, b[..n]);
    } else {
      assert a + b == a;
    }
  }

  /** A non-negative urgency gets a non-negative share of a non-negative
      day. */
  lemma ShareNonNegative(u: real, total: real, dailyHours: real)
    requires u >= 0.0 && total > 0.0 && dailyHours >= 0.0
    ensures ShareOf(u, total, dailyHours) >= 0.0
  {
    assert u / total >= 0.0;
  }

  /** One pass of the allocation loop allocates at most an eighth of an
      hour more than the item's share. */
  lemma EmitOneWithinShare(x: PendingItem, total: real, dailyHours: real)
    requires total > 0.0 && dailyHours >= 0.0 && x.urgency >= 0.0
    ensures PlanHours(EmitOne(x, total, dailyHours))
            <= Share(x, total, dailyHours) + 0.125 * |EmitOne(x, total, dailyHours)| as real
  {
    ShareNonNegative(x.urgency, total, dailyHours);
    var one := EmitOne(x, total, dailyHours);
    if one != [] {
      assert one[..0] == [];
      assert PlanHours(one) == Allocation(Share(x, total, dailyHours));
    }
  }

  /** The hours the loop allocates are within an eighth of an hour per entry
      of the items' total share. */
  lemma {:induction false} EmitWithinShares(items: seq<PendingItem>, total: real, dailyHours: real)
    requires total > 0.0 && dailyHours >= 0.0 && NonNegativeUrgencies(items)
    ensures PlanHours(Emit(items, total, dailyHours))
            <= TotalShare(items, total, dailyHours) + 0.125 * |Emit(items, total, dailyHours)| as real
  {
    if items != [] {
      var n := |items| - 1;
      var init, x := items[..n], items[n];
      assert NonNegativeUrgencies(init) by {
        forall k | 0 <= k < |init| ensures init[k].urgency >= 0.0 {
          assert init[k] == items[k];
        }
      }
      EmitWithinShares(init, total, dailyHours);
      EmitOneWithinShare(x, total, dailyHours);
      var rest, one := Emit(init, total, dailyHours), EmitOne(x, total, dailyHours);
      PlanHoursAppend(rest, one);
      assert Emit(items, total, dailyHours) == rest + one;
      assert TotalShare(items, total, dailyHours) == TotalShare(init, total, dailyHours) + Share(x, total, dailyHours);
    }
  }

  /** The shares of `items` add up to their part of the day. */
  lemma {:induction false} TotalShareScaled(items: seq<PendingItem>, total: real, dailyHours: real)
    requires total > 0.0
    ensures TotalShare(items, total, dailyHours) == TotalUrgency(items) / total * dailyHours
  {
    if items != [] {
      var n := |items| - 1;
      TotalShareScaled(items[..n], total, dailyHours);
      var a, b := TotalUrgency(items[..n]), items[n].urgency;
      assert a / total * dailyHours + b / total * dailyHours == (a + b) / total * dailyHours;
    }
  }

  /** The total urgency of an item followed by others. */
  lemma {:induction false} TotalUrgencyCons(x: PendingItem, items: seq<PendingItem>)
    ensures TotalUrgency([x] + items) == x.urgency + TotalUrgency(items)
    decreases |items|
  {
    if items != [] {
      var n := |items| - 1;
      assert ([x] + items)[..|items|] == [x] + items[..n];
      TotalUrgencyCons(x, items[..n]);
    } else {
      assert ([x] + items)[..0] == [];
    }
  }

  /** Inserting an item adds its urgency to the total. */
  lemma {:induction false} TotalUrgencyInsert(x: PendingItem, items: seq<PendingItem>)
    ensures TotalUrgency(Insert(x, items, UrgencyOf)) == x.urgency + TotalUrgency(items)
  {
    if items == [] {
      TotalUrgencyCons(x, []);
      assert [x] + [] == [x];
    } else if x.urgency >= items[0].urgency {
      TotalUrgencyCons(x, items);
    } else {
      assert items == [items[0]] + items[1..];
      TotalUrgencyInsert(x, items[1..]);
      TotalUrgencyCons(items[0], Insert(x, items[1..], UrgencyOf));
      TotalUrgencyCons(items[0], items[1..]);
    }
  }

  /** Sorting does not change the total urgency. */
  lemma {:induction false} TotalUrgencySorted(items: seq<PendingItem>)
    ensures TotalUrgency(SortDesc(items, UrgencyOf)) == TotalUrgency(items)
  {
    if items != [] {
      TotalUrgencySorted(items[1..]);
      TotalUrgencyInsert(items[0], SortDesc(items[1..], UrgencyOf));
      assert items == [items[0]] + items[1..];
      TotalUrgencyCons(items[0], items[1..]);
    }
  }

  /** Every topic has a non-negative weight and every subject with topics a
      difficulty of at least -10, so that no urgency is negative. */
  predicate NonNegativeInputs(subjects: seq<Subject>)
  {
    forall i :: 0 <= i < |subjects| ==>
      (subjects[i].topics != [] ==> subjects[i].difficulty >= -10)
      && forall j :: 0 <= j < |subjects[i].topics| ==> subjects[i].topics[j].weightage >= 0.0
  }

  /** With non-negative weights and difficulties of at least -10, every
      pending item has a non-negative urgency. */
  lemma PendingNonNegative(subjects: seq<Subject>, today: int)
    requires NonNegativeInputs(subjects)
    ensures NonNegativeUrgencies(Pending(subjects, today))
  {
    var p := Pending(subjects, today);
    forall k | 0 <= k < |p| ensures p[k].urgency >= 0.0 {
      PendingMembership(subjects, today, p[k]);
    }
  }

  /** The whole urgency gets the whole day. */
  lemma WholeDay(total: real, dailyHours: real)
    requires total > 0.0
    ensures total / total * dailyHours == dailyHours
  {
  }

  /** One plan stays within the day: its hours add up to at most the day's
      hours plus an eighth of an hour of rounding per entry. */
  lemma PlanWithinBudget(subjects: seq<Subject>, dailyHours: real, today: int)
    requires dailyHours >= 0.0
    requires NonNegativeInputs(subjects)
    ensures var plan := StudyPlan(subjects, dailyHours, today);
            PlanHours(plan) <= dailyHours + 0.125 * |plan| as real
  {
    var p := Pending(subjects, today);
    var total := TotalUrgency(p);
    if p != [] && total > 0.0 {
      var sorted := SortDesc(p, UrgencyOf);
      PendingNonNegative(subjects, today);
      assert NonNegativeUrgencies(sorted) by {
        forall k | 0 <= k < |sorted| ensures sorted[k].urgency >= 0.0 {
          SortDescMembership(p, UrgencyOf, sorted[k]);
        }
      }
      EmitWithinShares(sorted, total, dailyHours);
      TotalShareScaled(sorted, total, dailyHours);
      TotalUrgencySorted(p);
      WholeDay(total, dailyHours);
    } else if p != [] {
      NonPositiveTotalEmptyPlan(subjects, dailyHours, today);
    }
  }
}
