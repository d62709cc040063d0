/** The two pieces of logic in the dashboard page
    (frontend/src/pages/Dashboard.jsx): turning the comma-separated topic
    field of the subject form into the topic records of the request, and
    the rules that decide how a generated schedule is shown. */
module Dashboard {
  import opened Wrappers
  import opened Text
  import Logic

  /** The subject form's fields; the difficulty is the integer that
      `parseInt` reads from its field. */
  datatype FormData = FormData(name: string, date: string, difficulty: int, topics: string)

  /** The request body `handleAddSubject` posts. */
  datatype Payload = Payload(name: string, examDate: string, difficulty: int, topics: seq<Logic.Topic>)

  /** `t => ({ name: t.trim(), weightage: 1.0, status: false })` over the
      pieces of the split. */
  function ToTopics(pieces: seq<string>): (topics: seq<Logic.Topic>)
    ensures |topics| == |pieces|
    ensures forall k :: 0 <= k < |pieces| ==> topics[k] == Logic.Topic(Strip(pieces[k], JsSpace), 1.0, false)
  {
    seq(|pieces|, k requires 0 <= k < |pieces| => Logic.Topic(Strip(pieces[k], JsSpace), 1.0, false))
  }

  /** `.filter(t => t.name)`: the records whose name is not empty. */
  function Named(topics: seq<Logic.Topic>): seq<Logic.Topic>
  {
    if topics == [] then []
    else (if topics[0].name != "" then [topics[0]] else []) + Named(topics[1..])
  }

  /** `topicList`: split on commas, map each piece to a record, keep the
      named ones. */
  function TopicList(input: string): seq<Logic.Topic>
  {
    Named(ToTopics(Split(input, ',')))
  }

  /** `handleAddSubject`'s request body. */
  function PayloadOf(form: FormData): (p: Payload)
    ensures p.name == form.name && p.examDate == form.date && p.difficulty == form.difficulty
    ensures p.topics == TopicList(form.topics)
  {
    Payload(form.name, form.date, form.difficulty, TopicList(form.topics))
  }

  /** The names of a run of topic records. */
  function Names(topics: seq<Logic.Topic>): (names: seq<string>)
    ensures |names| == |topics|
    ensures forall k :: 0 <= k < |topics| ==> names[k] == topics[k].name
  {
    seq(|topics|, k requires 0 <= k < |topics| => topics[k].name)
  }

  /** Mapping then filtering by name is trimming then dropping blanks: the
      records' names are the trimmed non-blank pieces, in order. */
  lemma {:induction false} NamedPieces(pieces: seq<string>)
    ensures Names(Named(ToTopics(pieces))) == NonBlank(pieces, JsSpace)
  {
    if pieces != [] {
      NamedPieces(pieces[1..]);
      assert ToTopics(pieces)[1..] == ToTopics(pieces[1..]);
      var head := if Strip(pieces[0], JsSpace) != "" then [ToTopics(pieces)[0]] else [];
      NamesAppend(head, Named(ToTopics(pieces[1..])));
    }
  }

  /** Names of two runs of records. */
  lemma NamesAppend(a: seq<Logic.Topic>, b: seq<Logic.Topic>)
    ensures Names(a + b) == Names(a) + Names(b)
  {
  }

  /** Every record `handleAddSubject` sends is a pending topic of weight 1. */
  lemma {:induction false} NamedFresh(pieces: seq<string>)
    ensures forall t :: t in Named(ToTopics(pieces)) ==> t.weightage == 1.0 && !t.status && t.name != ""
  {
    if pieces != [] {
      NamedFresh(pieces[1..]);
      assert ToTopics(pieces)[1..] == ToTopics(pieces[1..]);
    }
  }

  /** The topic records are the comma-separated pieces of the field, each
      trimmed, the empty ones dropped, in order; every one has weight 1 and
      is not done; and no name is empty, holds a comma or starts or ends
      with white space. */
  lemma TopicListShape(input: string)
    ensures Names(TopicList(input)) == TrimmedPieces(input, ',', JsSpace)
    ensures forall t :: t in TopicList(input) ==>
              t.weightage == 1.0 && !t.status
              && t.name != "" && ',' !in t.name && t.name[0] !in JsSpace && t.name[|t.name| - 1] !in JsSpace
  {
    NamedPieces(Split(input, ','));
    NamedFresh(Split(input, ','));
    TrimmedPiecesShape(input, ',', JsSpace);
    forall t | t in TopicList(input)
      ensures ',' !in t.name && t.name[0] !in JsSpace && t.name[|t.name| - 1] !in JsSpace
    {
      var k :| 0 <= k < |TopicList(input)| && TopicList(input)[k] == t;
      assert Names(TopicList(input))[k] == t.name;
    }
  }

  /** Names joined with `", "` (as the syllabus parser returns them) come
      back unchanged from the field, provided each is non-empty, trimmed and
      free of commas. */
  lemma TopicListRoundTrip(names: seq<string>)
    requires forall t :: t in names ==> t != "" && t[0] !in JsSpace && t[|t| - 1] !in JsSpace && ',' !in t
    ensures Names(TopicList(Join(names, ", "))) == names
  {
    TopicListShape(Join(names, ", "));
    TrimmedPiecesJoin(names, ',', JsSpace);
  }

  /** The upload handler's update of the topic field: the parsed text
      replaces an empty field and is appended after `", "` otherwise. */
  function AppendParsed(prev: string, newText: string): (r: string)
    ensures |r| >= |newText| && r[|r| - |newText|..] == newText
    ensures prev == "" ==> r == newText
    ensures prev != "" ==> |r| == |prev| + 2 + |newText| && r[..|prev|] == prev && r[|prev|..|prev| + 2] == ", "
  {
    if prev != "" then prev + ", " + newText else newText
  }

  /** Appending parsed names to a field of names gives all the names, the
      field's first. */
  lemma AppendParsedNames(field: seq<string>, added: seq<string>)
    requires forall t :: t in field + added ==> t != "" && t[0] !in JsSpace && t[|t| - 1] !in JsSpace && ',' !in t
    ensures Names(TopicList(AppendParsed(Join(field, ", "), Join(added, ", ")))) == field + added
  {
    if field == [] {
      assert field + added == added;
    } else {
      assert Join(field, ", ") != "" by { JoinNonEmpty(field, ", "); }
      if added == [] {
        assert field + added == field;
        TrailingBlank(field);
      } else {
        JoinAppend(field, added, ", ");
      }
    }
    TopicListRoundTrip(field + added);
  }

  /** A join of names whose first is not empty is not empty. */
  lemma JoinNonEmpty(names: seq<string>, sep: string)
    requires names != [] && names[0] != ""
    ensures Join(names, sep) != ""
  {
    if |names| > 1 {
      assert |Join(names, sep)| >= |names[0]|;
    }
  }

  /** Joining two non-empty runs is joining each and then joining those. */
  lemma {:induction false} JoinAppend(a: seq<string>, b: seq<string>, sep: string)
    requires a != [] && b != []
    ensures Join(a + b, sep) == Join(a, sep) + sep + Join(b, sep)
  {
    if |a| > 1 {
      assert (a + b)[1..] == a[1..] + b;
      JoinAppend(a[1..], b, sep);
    } else {
      assert (a + b)[1..] == b;
    }
  }

  /** With nothing parsed, the appended `", "` adds only a blank piece. */
  lemma TrailingBlank(names: seq<string>)
    requires forall t :: t in names ==> t != "" && t[0] !in JsSpace && t[|t| - 1] !in JsSpace && ',' !in t
    ensures Names(TopicList(Join(names, ", ") + ", " + "")) == names
  {
    var joined := Join(names, ", ");
    var s := joined + ", " + "";
    assert s == joined + [','] + " ";
    TrimmedTrailingBlank(joined, ',', JsSpace);
    TrimmedPiecesJoin(names, ',', JsSpace);
    TopicListShape(s);
  }

  /** The colour of a schedule item's left border. */
  datatype Border = Red | Amber

  /** One item of "Today's Plan". */
  datatype Card = Card(subject: string, topic: string, hours: real, border: Border)

  /** What the generator panel shows under its button. */
  datatype ScheduleView = Hidden | NoPendingTasks | Items(cards: seq<Card>)

  /** `item.urgency_score > 1.5 ? '#ef4444' : '#fbbf24'`. */
  function BorderOf(urgencyScore: real): (b: Border)
    ensures b == Red <==> urgencyScore > 1.5
    ensures b == Amber <==> urgencyScore <= 1.5
  {
    if urgencyScore > 1.5 then Red else Amber
  }

  /** The card of one schedule entry. */
  function CardOf(e: Logic.PlanEntry): (c: Card)
    ensures c.subject == e.subject && c.topic == e.topic && c.hours == e.allocatedHours
    ensures c.border == Red <==> e.urgencyScore > 1.5
  {
    Card(e.subject, e.topic, e.allocatedHours, BorderOf(e.urgencyScore))
  }

  /** The schedule panel: nothing before a schedule is generated, the "No
      pending tasks!" message for an empty one, else one card per entry. */
  function View(schedule: Option<seq<Logic.PlanEntry>>): (v: ScheduleView)
    ensures v == Hidden <==> schedule.None?
    ensures v == NoPendingTasks <==> schedule == Some([])
    ensures v.Items? ==>
              |v.cards| == |schedule.value| > 0
              && forall k :: 0 <= k < |v.cards| ==>
                   v.cards[k].subject == schedule.value[k].subject
                   && v.cards[k].topic == schedule.value[k].topic
                   && v.cards[k].hours == schedule.value[k].allocatedHours
                   && (v.cards[k].border == Red <==> schedule.value[k].urgencyScore > 1.5)
  {
    if schedule.None? then Hidden
    else if schedule.value == [] then NoPendingTasks
    else Items(seq(|schedule.value|, k requires 0 <= k < |schedule.value| => CardOf(schedule.value[k])))
  }

  /** A generated plan for subjects whose topics are all done shows "No
      pending tasks!". */
  lemma AllDoneShowsNoPending(subjects: seq<Logic.Subject>, dailyHours: real, today: int)
    requires forall i, j :: 0 <= i < |subjects| && 0 <= j < |subjects[i].topics| ==> subjects[i].topics[j].status
    ensures View(Some(Logic.StudyPlan(subjects, dailyHours, today))) == NoPendingTasks
  {
    Logic.NothingPendingEmptyPlan(subjects, dailyHours, today);
  }

  /** Because the plan is sorted by urgency, the red cards of a generated
      plan all come before the amber ones. */
  lemma RedCardsFirst(subjects: seq<Logic.Subject>, dailyHours: real, today: int)
    ensures var v := View(Some(Logic.StudyPlan(subjects, dailyHours, today)));
            v.Items? ==>
              forall i, j :: 0 <= i < j < |v.cards| && v.cards[j].border == Red ==> v.cards[i].border == Red
  {
    Logic.PlanUrgencyOrdered(subjects, dailyHours, today);
  }
}
