/** The Streamlit front end (app.py) over its SQLite store (database.py):
    saving a subject with its comma-separated topics, keeping a topic's
    stored status in step with its checkbox, converting stored topics for
    the planner, the sidebar's exam countdown, and the `logged_in` session
    flag. The database is a class whose fields are the two tables; dates are
    day numbers and `today` is a parameter. */
module App {
  import opened Wrappers
  import opened Text
  import opened Lists

  // ---------------------------------------------------------------------
  // The store
  // ---------------------------------------------------------------------

  /** A row of the `subjects` table. */
  datatype SubjectRow = SubjectRow(id: int, name: string, difficulty: int, examDate: int)

  /** A row of the `topics` table: status 0 is pending, 1 is done. */
  datatype TopicRow = TopicRow(id: int, subjectId: int, name: string, status: int)

  /** The ids of a run of topic rows are distinct. */
  predicate DistinctIds(rows: seq<TopicRow>)
  {
    forall i, j :: 0 <= i < j < |rows| ==> rows[i].id != rows[j].id
  }

  /** The `UPDATE topics SET status = ? WHERE id = ?` statement on the rows. */
  function SetStatus(rows: seq<TopicRow>, topicId: int, newStatus: int): (r: seq<TopicRow>)
    ensures |r| == |rows|
  {
    seq(|rows|, k requires 0 <= k < |rows| =>
      if rows[k].id == topicId then rows[k].(status := newStatus) else rows[k])
  }

  /** The update gives the topic with that id the new status and changes
      nothing else: every other row, and every other column, stays. */
  lemma SetStatusEffect(rows: seq<TopicRow>, topicId: int, newStatus: int)
    ensures var r := SetStatus(rows, topicId, newStatus);
            forall k :: 0 <= k < |rows| ==>
              r[k].id == rows[k].id && r[k].subjectId == rows[k].subjectId && r[k].name == rows[k].name
              && (rows[k].id == topicId ==> r[k].status == newStatus)
              && (rows[k].id != topicId ==> r[k] == rows[k])
    ensures DistinctIds(rows) ==> DistinctIds(SetStatus(rows, topicId, newStatus))
  {
  }

  /** Setting a status twice is setting it once, and setting the status a
      topic already has leaves the rows as they are. */
  lemma SetStatusIdempotent(rows: seq<TopicRow>, topicId: int, newStatus: int)
    ensures SetStatus(SetStatus(rows, topicId, newStatus), topicId, newStatus) == SetStatus(rows, topicId, newStatus)
    ensures (forall k :: 0 <= k < |rows| && rows[k].id == topicId ==> rows[k].status == newStatus) ==>
              SetStatus(rows, topicId, newStatus) == rows
  {
    var once := SetStatus(rows, topicId, newStatus);
    if forall k :: 0 <= k < |rows| && rows[k].id == topicId ==> rows[k].status == newStatus {
      forall k | 0 <= k < |rows| ensures once[k] == rows[k] {
      }
    }
  }

  /** The rows `add_topic` inserts for `names`, with ids from `firstId`. */
  function NewTopics(firstId: int, subjectId: int, names: seq<string>): (rows: seq<TopicRow>)
    ensures |rows| == |names|
    ensures forall k :: 0 <= k < |names| ==> rows[k] == TopicRow(firstId + k, subjectId, names[k], 0)
  {
    seq(|names|, k requires 0 <= k < |names| => TopicRow(firstId + k, subjectId, names[k], 0))
  }

  /** The two tables with their `AUTOINCREMENT` counters. */
  class Store {
    var subjects: seq<SubjectRow>
    var topics: seq<TopicRow>
    var nextSubjectId: int
    var nextTopicId: int

    /** Every id was handed out by its counter, and topic ids are distinct. */
    predicate Valid()
      reads this
    {
      && nextSubjectId >= 1 && nextTopicId >= 1
      && (forall i :: 0 <= i < |subjects| ==> 1 <= subjects[i].id < nextSubjectId)
      && (forall i :: 0 <= i < |topics| ==> 1 <= topics[i].id < nextTopicId)
      && DistinctIds(topics)
    }

    /** `init_db` on a fresh database: both tables empty. */
    constructor ()
      ensures Valid()
      ensures subjects == [] && topics == []
      ensures nextSubjectId == 1 && nextTopicId == 1
    {
      subjects, topics := [], [];
      nextSubjectId, nextTopicId := 1, 1;
    }

    /** `add_subject`: insert a row and return its new id. */
    method AddSubject(name: string, difficulty: int, examDate: int) returns (id: int)
      requires Valid()
      modifies this
      ensures Valid()
      ensures id == old(nextSubjectId)
      ensures subjects == old(subjects) + [SubjectRow(id, name, difficulty, examDate)]
      ensures nextSubjectId == old(nextSubjectId) + 1
      ensures topics == old(topics) && nextTopicId == old(nextTopicId)
    {
      id := nextSubjectId;
      subjects := subjects + [SubjectRow(id, name, difficulty, examDate)];
      nextSubjectId := nextSubjectId + 1;
    }

    /** `add_topic`: insert a pending topic of the subject. */
    method AddTopic(subjectId: int, name: string)
      requires Valid()
      modifies this
      ensures Valid()
      ensures topics == old(topics) + [TopicRow(old(nextTopicId), subjectId, name, 0)]
      ensures nextTopicId == old(nextTopicId) + 1
      ensures subjects == old(subjects) && nextSubjectId == old(nextSubjectId)
    {
      topics := topics + [TopicRow(nextTopicId, subjectId, name, 0)];
      nextTopicId := nextTopicId + 1;
    }

    /** `toggle_topic_status`: set the status of the topic with that id. */
    method ToggleTopicStatus(topicId: int, newStatus: int)
      requires Valid()
      modifies this
      ensures Valid()
      ensures topics == SetStatus(old(topics), topicId, newStatus)
      ensures subjects == old(subjects)
      ensures nextSubjectId == old(nextSubjectId) && nextTopicId == old(nextTopicId)
    {
      SetStatusEffect(topics, topicId, newStatus);
      topics := SetStatus(topics, topicId, newStatus);
    }
  }

  // ---------------------------------------------------------------------
  // Saving a subject
  // ---------------------------------------------------------------------

  /** `raw_topics`: the comma-separated pieces, stripped, blank ones
      dropped. */
  function RawTopics(topicsStr: string): seq<string>
  {
    TrimmedPieces(topicsStr, ',', PySpace)
  }

  /** Every saved topic name is non-empty, holds no comma and neither starts
      nor ends with white space; names joined with `", "` come back as they
      were. */
  lemma RawTopicsShape(topicsStr: string, names: seq<string>)
    ensures forall t :: t in RawTopics(topicsStr) ==>
              t != "" && ',' !in t && t[0] !in PySpace && t[|t| - 1] !in PySpace
    ensures (forall t :: t in names ==> t != "" && t[0] !in PySpace && t[|t| - 1] !in PySpace && ',' !in t) ==>
              RawTopics(Join(names, ", ")) == names
  {
    TrimmedPiecesShape(topicsStr, ',', PySpace);
    if forall t :: t in names ==> t != "" && t[0] !in PySpace && t[|t| - 1] !in PySpace && ',' !in t {
      TrimmedPiecesJoin(names, ',', PySpace);
    }
  }

  /** What pressing "Save Subject" shows. */
  datatype SaveOutcome = Added(subjectId: int) | NameRequired

  /** The "Save Subject" handler: with a name, insert the subject and then
      one pending topic per raw topic; without one, report the error and
      write nothing. */
  method SaveSubject(store: Store, name: string, difficulty: int, examDate: int, topicsStr: string)
    returns (outcome: SaveOutcome)
    requires store.Valid()
    modifies store
    ensures store.Valid()
    ensures name == "" ==>
              outcome == NameRequired
              && store.subjects == old(store.subjects) && store.topics == old(store.topics)
              && store.nextSubjectId == old(store.nextSubjectId) && store.nextTopicId == old(store.nextTopicId)
    ensures name != "" ==>
              && outcome == Added(old(store.nextSubjectId))
              && store.subjects == old(store.subjects) + [SubjectRow(outcome.subjectId, name, difficulty, examDate)]
              && store.topics == old(store.topics) + NewTopics(old(store.nextTopicId), outcome.subjectId, RawTopics(topicsStr))
              && store.nextSubjectId == old(store.nextSubjectId) + 1
              && store.nextTopicId == old(store.nextTopicId) + |RawTopics(topicsStr)|
  {
    if name == "" {
      return NameRequired;
    }
    var subjectId := store.AddSubject(name, difficulty, examDate);
    AddTopics(store, subjectId, RawTopics(topicsStr));
    outcome := Added(subjectId);
  }

  /** The handler's loop over the raw topics: one pending topic row per
      name, in order, with consecutive ids. */
  method AddTopics(store: Store, subjectId: int, names: seq<string>)
    requires store.Valid()
    modifies store
    ensures store.Valid()
    ensures store.topics == old(store.topics) + NewTopics(old(store.nextTopicId), subjectId, names)
    ensures store.nextTopicId == old(store.nextTopicId) + |names|
    ensures store.subjects == old(store.subjects) && store.nextSubjectId == old(store.nextSubjectId)
  {
    var firstId := store.nextTopicId;
    for i := 0 to |names|
      invariant store.Valid()
      invariant store.topics == old(store.topics) + NewTopics(firstId, subjectId, names[..i])
      invariant store.nextTopicId == firstId + i
      invariant store.subjects == old(store.subjects) && store.nextSubjectId == old(store.nextSubjectId)
    {
      store.AddTopic(subjectId, names[i]);
      assert NewTopics(firstId, subjectId, names[..i + 1])
          == NewTopics(firstId, subjectId, names[..i]) + [TopicRow(firstId + i, subjectId, names[i], 0)];
    }
    assert names[..|names|] == names;
  }

  // ---------------------------------------------------------------------
  // The progress checkboxes
  // ---------------------------------------------------------------------

  /** The write a checkbox triggers: none when it agrees with the stored
      status, else the status it stands for. */
  function CheckboxWrite(status: int, isChecked: bool): (w: Option<int>)
    ensures w.Some? <==> isChecked != (status == 1)
    ensures w.Some? ==> w.value in {0, 1} && (w.value == 1 <==> isChecked)
  {
    if isChecked != (status == 1) then Some(if isChecked then 1 else 0) else None
  }

  /** The status stored after the checkbox is handled. */
  function StatusAfter(status: int, isChecked: bool): int
  {
    match CheckboxWrite(status, isChecked)
    case None => status
    case Some(n) => n
  }

  /** The database is written iff the box disagrees with the stored status,
      only 0 or 1 is ever written, and afterwards the stored status is 1 iff
      the box is checked; handling the box again writes nothing. */
  lemma CheckboxAgrees(status: int, isChecked: bool)
    ensures CheckboxWrite(status, isChecked).Some? <==> isChecked != (status == 1)
    ensures CheckboxWrite(status, isChecked).Some? ==> CheckboxWrite(status, isChecked).value in {0, 1}
    ensures StatusAfter(status, isChecked) == 1 <==> isChecked
    ensures CheckboxWrite(StatusAfter(status, isChecked), isChecked) == None
  {
  }

  /** One checkbox of the "Mark Progress" list: write the new status when
      the box and the stored status disagree. */
  method SyncCheckbox(store: Store, topic: TopicRow, isChecked: bool) returns (wrote: bool)
    requires store.Valid()
    modifies store
    ensures store.Valid()
    ensures wrote <==> isChecked != (topic.status == 1)
    ensures wrote ==> store.topics == SetStatus(old(store.topics), topic.id, if isChecked then 1 else 0)
    ensures !wrote ==> store.topics == old(store.topics)
    ensures store.subjects == old(store.subjects)
    ensures store.nextSubjectId == old(store.nextSubjectId) && store.nextTopicId == old(store.nextTopicId)
  {
    wrote := false;
    if isChecked != (topic.status == 1) {
      var newStatus := if isChecked then 1 else 0;
      store.ToggleTopicStatus(topic.id, newStatus);
      wrote := true;
    }
  }

  // ---------------------------------------------------------------------
  // Conversion for the planner
  // ---------------------------------------------------------------------

  /** The planner's topic object built from a stored topic. */
  datatype PlannerTopic = PlannerTopic(name: string, id: int, isCompleted: bool)

  /** The `Topic(...)` built for each stored topic. */
  function ConvertTopic(row: TopicRow): PlannerTopic
  {
    PlannerTopic(row.name, row.id, row.status == 1)
  }

  /** `topic_objs`: one object per stored topic, in order. */
  function ConvertTopics(rows: seq<TopicRow>): (objs: seq<PlannerTopic>)
    ensures |objs| == |rows|
    ensures forall k :: 0 <= k < |rows| ==> objs[k] == ConvertTopic(rows[k])
  {
    seq(|rows|, k requires 0 <= k < |rows| => ConvertTopic(rows[k]))
  }

  /** After a checkbox is handled, the planner sees the topic as completed
      iff the box is checked. */
  lemma CheckboxThenConvert(row: TopicRow, isChecked: bool)
    ensures ConvertTopic(row.(status := StatusAfter(row.status, isChecked))).isCompleted <==> isChecked
    ensures ConvertTopic(row.(status := StatusAfter(row.status, isChecked))).name == row.name
  {
    CheckboxAgrees(row.status, isChecked);
  }

  /** A topic saved with a subject is not completed for the planner until
      its box is checked. */
  lemma SavedTopicNotCompleted(firstId: int, subjectId: int, names: seq<string>)
    ensures forall o :: o in ConvertTopics(NewTopics(firstId, subjectId, names)) ==> !o.isCompleted
  {
    var objs := ConvertTopics(NewTopics(firstId, subjectId, names));
    forall o | o in objs ensures !o.isCompleted {
      var k :| 0 <= k < |objs| && objs[k] == o;
    }
  }

  // ---------------------------------------------------------------------
  // The exam countdown
  // ---------------------------------------------------------------------

  /** The sidebar message of one exam. */
  datatype Alert = Finished | Urgent(daysLeft: int) | Warning(daysLeft: int) | Relaxed(daysLeft: int)

  /** The `if`/`elif` ladder on the days left. */
  function AlertFor(daysLeft: int): (a: Alert)
    ensures a == Finished <==> daysLeft < 0
    ensures a.Urgent? <==> 0 <= daysLeft < 7
    ensures a.Warning? <==> 7 <= daysLeft < 30
    ensures a.Relaxed? <==> daysLeft >= 30
    ensures !a.Finished? ==> a.daysLeft == daysLeft
  {
    if daysLeft < 0 then Finished
    else if daysLeft < 7 then Urgent(daysLeft)
    else if daysLeft < 30 then Warning(daysLeft)
    else Relaxed(daysLeft)
  }

  /** How pressing an alert is: Finished, then Urgent, Warning, Relaxed. */
  function AlertRank(a: Alert): nat
  {
    match a
    case Finished => 0
    case Urgent(_) => 1
    case Warning(_) => 2
    case Relaxed(_) => 3
  }

  /** An exam no later than another never gets a calmer alert. */
  lemma AlertMonotone(d: int, e: int)
    requires d <= e
    ensures AlertRank(AlertFor(d)) <= AlertRank(AlertFor(e))
  {
  }

  /** The sort key that puts earlier exams first. */
  function Earliness(s: SubjectRow): real
  {
    -(s.examDate as real)
  }

  /** `sorted(db_subjects, key=lambda x: x['exam_date'])`. */
  function ByExamDate(subjects: seq<SubjectRow>): seq<SubjectRow>
  {
    SortDesc(subjects, Earliness)
  }

  /** The countdown: one line per subject, earliest exam first. */
  function Countdown(subjects: seq<SubjectRow>, today: int): (lines: seq<(string, Alert)>)
    ensures |lines| == |subjects|
  {
    var sorted := ByExamDate(subjects);
    seq(|sorted|, k requires 0 <= k < |sorted| => (sorted[k].name, AlertFor(sorted[k].examDate - today)))
  }

  /** The sort is ascending by exam date, a permutation of the subjects,
      and keeps subjects with the same date in their stored order. */
  lemma ByExamDateCorrect(subjects: seq<SubjectRow>, date: int)
    ensures var sorted := ByExamDate(subjects);
            && (forall i, j :: 0 <= i < j < |sorted| ==> sorted[i].examDate <= sorted[j].examDate)
            && multiset(sorted) == multiset(subjects)
            && KeyRun(sorted, Earliness, -(date as real)) == KeyRun(subjects, Earliness, -(date as real))
  {
    SortDescCorrect(subjects, Earliness);
    SortDescStable(subjects, Earliness, -(date as real));
    ByExamDateAscending(subjects);
  }

  /** The sort puts earlier exams first. */
  lemma ByExamDateAscending(subjects: seq<SubjectRow>)
    ensures var sorted := ByExamDate(subjects);
            forall i, j :: 0 <= i < j < |sorted| ==> sorted[i].examDate <= sorted[j].examDate
  {
    SortDescCorrect(subjects, Earliness);
    var sorted := ByExamDate(subjects);
    forall i, j | 0 <= i < j < |sorted| ensures sorted[i].examDate <= sorted[j].examDate {
      assert Earliness(sorted[i]) >= Earliness(sorted[j]);
    }
  }

  /** Down the countdown the alerts never get more pressing: every Finished
      line comes first, then the Urgent, Warning and Relaxed ones. */
  lemma CountdownOrdered(subjects: seq<SubjectRow>, today: int)
    ensures var lines := Countdown(subjects, today);
            forall i, j :: 0 <= i < j < |lines| ==> AlertRank(lines[i].1) <= AlertRank(lines[j].1)
  {
    ByExamDateAscending(subjects);
    var sorted := ByExamDate(subjects);
    forall i, j | 0 <= i < j < |sorted|
      ensures AlertRank(AlertFor(sorted[i].examDate - today)) <= AlertRank(AlertFor(sorted[j].examDate - today))
    {
      AlertMonotone(sorted[i].examDate - today, sorted[j].examDate - today);
    }
  }

  // ---------------------------------------------------------------------
  // The session flag
  // ---------------------------------------------------------------------

  /** A user action that touches the flag. */
  datatype Event = SubmitLogin(username: string) | PressLogOut

  /** The flag after `e` when it was `flag`: the login form is shown (and a
      login counts) only while logged out, the log-out button only while
      logged in. */
  function Step(flag: bool, e: Event): (r: bool)
    ensures e.PressLogOut? ==> !r
    ensures e.SubmitLogin? && e.username != "" ==> r
    ensures e.SubmitLogin? && e.username == "" ==> r == flag
  {
    match e
    case SubmitLogin(username) => if !flag then username != "" else flag
    case PressLogOut => if flag then false else flag
  }

  /** The flag after a run of events from a fresh session. */
  function Replay(events: seq<Event>): (r: bool)
    ensures r ==> exists i :: 0 <= i < |events| && events[i].SubmitLogin? && events[i].username != ""
  {
    if events == [] then false else Step(Replay(events[..|events| - 1]), events[|events| - 1])
  }

  /** Whether an event settles the flag: a login with a name or a log out. */
  predicate Decisive(e: Event)
  {
    e.PressLogOut? || e.username != ""
  }

  /** Event `i` is a login with a name and no later event settles the
      flag. */
  predicate LastLogin(events: seq<Event>, i: int)
  {
    0 <= i < |events| && events[i].SubmitLogin? && events[i].username != ""
    && forall j :: i < j < |events| ==> !Decisive(events[j])
  }

  /** The flag is set iff the last decisive event was a login with a
      non-empty name: a fresh session is logged out, an empty name changes
      nothing, and logging out clears the flag. */
  lemma {:induction false} ReplayLastDecisive(events: seq<Event>)
    ensures Replay(events) <==> exists i :: LastLogin(events, i)
  {
    if events != [] {
      var n := |events| - 1;
      var prefix := events[..n];
      ReplayLastDecisive(prefix);
      if Decisive(events[n]) {
        LastDecisive(events);
      } else {
        LastNotDecisive(events);
        if exists i :: LastLogin(prefix, i) {
          var i :| LastLogin(prefix, i);
          assert LastLogin(events, i);
        }
        if exists i :: LastLogin(events, i) {
          var i :| LastLogin(events, i);
          assert LastLogin(prefix, i);
        }
      }
    }
  }

  /** After a decisive event, only that event can be the last login. */
  lemma LastDecisive(events: seq<Event>)
    requires events != [] && Decisive(events[|events| - 1])
    ensures Replay(events) == events[|events| - 1].SubmitLogin?
    ensures (exists i :: LastLogin(events, i)) <==> events[|events| - 1].SubmitLogin?
  {
    var n := |events| - 1;
    if events[n].SubmitLogin? {
      assert LastLogin(events, n);
    }
    forall i | 0 <= i < n ensures !LastLogin(events, i) {
      assert Decisive(events[n]);
    }
  }

  /** An event that settles nothing keeps both the flag and the last login. */
  lemma LastNotDecisive(events: seq<Event>)
    requires events != [] && !Decisive(events[|events| - 1])
    ensures Replay(events) == Replay(events[..|events| - 1])
    ensures forall i :: LastLogin(events, i) <==> LastLogin(events[..|events| - 1], i)
  {
    var n := |events| - 1;
    var prefix := events[..n];
    forall i ensures LastLogin(events, i) <==> LastLogin(prefix, i) {
      if 0 <= i < n {
        assert events[i] == prefix[i];
        assert (forall j :: i < j < |events| ==> !Decisive(events[j]))
           <==> (forall j :: i < j < n ==> !Decisive(prefix[j]));
      }
    }
  }

  /** What the flag makes the script render. */
  datatype Page = LoginPage | MainApp

  /** The login form's feedback. */
  datatype LoginMessage = LoggedIn | EnterUsername

  /** `st.session_state`, as far as the `logged_in` key goes. */
  class Session {
    var loggedIn: Option<bool>

    /** A new browser session: no key yet. */
    constructor ()
      ensures loggedIn == None
    {
      loggedIn := None;
    }

    /** The flow control at the bottom of the script: create the key as
        false if absent, then choose the page from it. */
    method Route() returns (page: Page)
      modifies this
      ensures loggedIn == Some(old(loggedIn).Some? && old(loggedIn).value)
      ensures page == MainApp <==> loggedIn == Some(true)
    {
      if loggedIn.None? {
        loggedIn := Some(false);
      }
      page := if loggedIn.value then MainApp else LoginPage;
    }

    /** The login form's submit: any non-empty username logs in. */
    method Login(username: string) returns (message: LoginMessage)
      requires loggedIn == Some(false)
      modifies this
      ensures message == LoggedIn <==> username != ""
      ensures loggedIn == Some(Step(false, SubmitLogin(username)))
    {
      if username != "" {
        loggedIn := Some(true);
        message := LoggedIn;
      } else {
        message := EnterUsername;
      }
    }

    /** The sidebar's "Log Out" button. */
    method LogOut()
      requires loggedIn == Some(true)
      modifies this
      ensures loggedIn == Some(Step(true, PressLogOut))
    {
      loggedIn := Some(false);
    }
  }
}
