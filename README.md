# AI exam planner, modelled in Dafny

The AI exam planner turns a student's subjects into a study plan. Each subject has a difficulty, an exam date and topics or chapters. The plan ranks the work by urgency and shares the day's study hours in proportion to it. This project models that logic and proves properties of it:

- **Planning engine** (`logic.dfy`, module `Logic`).
  - A topic's urgency is its weight, times `1 + difficulty/10`, divided by the days left. The days left are never fewer than one.
  - Pending topics are collected while their urgencies are summed.
  - The pending topics are sorted by urgency, most urgent first, keeping ties in input order.
  - Each topic gets its share of the day. A share under a quarter hour gives no entry; the rest are rounded to quarter hours, ties to an even number of quarters.
  - The source's comment at backend/logic.py:55 mentions a cap of 2 hours per topic, but the code has no cap, and neither does the model: a single pending topic gets the whole day.
- **Syllabus extractor** (`parser.dfy`, module `Parser`).
  - The PDF's page texts are joined and split into lines.
  - Each line is classified: too short, metadata, not a topic, or a cleaned candidate. Bullets and numbering are matched by the pattern `^(\d+(\.\d+)*\.?|â€¢|-|\*|[A-Z]\.)\s+`. Its second alternative is the three characters `â€¢` (a mis-encoded bullet), so a real `•` bullet is not matched.
  - Repeated candidates are dropped. The first 100 are joined with `", "`.
- **Per-subject prototype planner** (`prototype.dfy`, module `Prototype`). It works on chapters rather than topics.
- **First command-line demo** (`basic_demo.dfy`, module `BasicDemo`). This includes its two failure paths.
- **Dashboard charts data** (`analysis_charts.dfy`, module `AnalysisCharts`).
- **Dashboard page** (`dashboard.dfy`, module `Dashboard`): the topic-field transform and the schedule display rules.
- **Streamlit app** (`app.dfy`, module `App`) over its SQLite tables:
  - saving a subject and its topics;
  - checkbox-driven status updates;
  - conversion of stored topics;
  - the exam countdown;
  - the `logged_in` session flag.

Shared pieces:
- `text.dfy` holds the string helpers: the two whitespace classes, strip, split, join, ASCII lower-case and substring search.
- `rounding.dfy` holds Python's round-half-to-even and the roundings built on it.
- `lists.dfy` holds a stable descending sort.
- `wrappers.dfy` holds `Option`.

Hours and urgencies are exact reals, dates are day numbers, and "today" is a parameter.

Several methods mirror the source's loops and are proved equal to a specification function. The properties are stated and proved about those functions. These methods are `Logic.GetStudyPlan`, `Parser.ExtractTopics`, `Prototype.GetStudyPlanData`, `BasicDemo.GenerateSimplePlan`, `AnalysisCharts.CountBuckets` and `App.SaveSubject`. Where the source updates stored state, the model is a class with `modifies` clauses: `App.Store` for the two database tables and `App.Session` for the session flag.

## Model

| member | source | states |
|---|---|---|
| Logic.DifficultyMultiplier | backend/logic.py:9 | The multiplier is between 1.0 and 2.0 for difficulties 0 to 10. It is at least 1.0 exactly when the difficulty is not negative. |
| Logic.EffectiveDays | backend/logic.py:28-29 | The days used are at least 1. They equal the real days left whenever those are at least 1. |
| Logic.TopicUrgency | backend/logic.py:3-15 | The urgency times the days used is weightage times multiplier, for every day count. With a non-negative weight and a difficulty of at least -10 it is not negative. With a positive weight and a non-negative difficulty it is positive and at most weightage times multiplier. |
| Logic.Allocation | backend/logic.py:57-62 | Hours are positive iff the share is at least a quarter hour. Positive hours are the share rounded to the nearest quarter, ties to an even number of quarters: a multiple of 0.25, at least 0.25, and within 0.125 of the share. |
| Logic.GetStudyPlan | backend/logic.py:17-71 | The collect, sum, sort and allocate loops compute exactly `StudyPlan`. |
| Logic.CollectPending | backend/logic.py:26-40 | The inner loop appends exactly the subject's pending-topic items, in order, and keeps the running total equal to the sum of the recorded urgencies. |
| Logic.AllocateHours | backend/logic.py:51-69 | The allocation loop appends exactly `Emit` of the sorted items. |
| Logic.PendingTopicsMembership | backend/logic.py:31-41 | An item is recorded for a subject iff it comes from one of that subject's topics whose status is false. |
| Logic.PendingMembership | backend/logic.py:26-41 | An item is pending iff some subject has a not-done topic yielding it. Done topics never appear. |
| Logic.TotalUrgencyAppend | backend/logic.py:34 | Each recorded item adds exactly its urgency to the running total. |
| Logic.AllDonePendingTopics | backend/logic.py:31-32 | A subject whose topics are all done records no item. |
| Logic.NothingPendingEmptyPlan | backend/logic.py:45-46 | With every topic done, there are no pending items and the plan is empty. |
| Logic.NonPositiveTotalEmptyPlan | backend/logic.py:52 | A total urgency that is not positive gives an empty plan. |
| Logic.WorthyMembership | backend/logic.py:52-62 | An item is kept iff it is in the list and its share reaches a quarter hour. |
| Logic.WorthySorted | backend/logic.py:49-62 | Keeping a subset of sorted items leaves them sorted by descending urgency. |
| Logic.WorthyKeyRun | backend/logic.py:49-62 | Items of equal urgency are all kept or all dropped, in their order. |
| Logic.EmitWorthy | backend/logic.py:51-69 | The loop emits one entry per kept item, in order, with that item's allocation. |
| Logic.SelectionMembership | backend/logic.py:31-62 | A pending item appears in the plan iff its share of the day reaches a quarter hour. |
| Logic.SelectionOrder | backend/logic.py:49 | The kept items are in descending urgency, and items of equal urgency keep their input order. |
| Logic.StudyPlanEntries | backend/logic.py:51-69 | Each entry names its item's subject, topic and date and shows the urgency rounded to 2 decimals. Its hours are its exact share rounded by `QuarterRound`: a multiple of 0.25, at least 0.25, and within 0.125 of the share. |
| Logic.ShareMonotone | backend/logic.py:53 | On a non-negative day, a larger urgency never gets a smaller share. |
| Logic.EntryPairOrdered | backend/logic.py:53-67 | Of two kept items, the more urgent one shows no smaller rounded urgency and gets no fewer hours. |
| Logic.PlanUrgencyOrdered | backend/logic.py:49-69 | For every daily budget, the shown urgency never increases along the plan. |
| Logic.PlanOrdered | backend/logic.py:49-69 | Along the plan, both the shown urgency and the allocated hours never increase. |
| Logic.PlanWithinBudget | backend/logic.py:17-71 | The hours of one plan add up to at most the day's hours plus 0.125 per entry. |
| Logic.EmitWithinShares | backend/logic.py:51-62 | The allocation loop's hours add up to at most the items' exact shares plus 0.125 per entry. |
| Logic.TotalShareScaled | backend/logic.py:53 | The exact shares add up to the items' total urgency over the global total, times the day. |
| Logic.TotalUrgencySorted | backend/logic.py:34-49 | Sorting the pending items does not change their total urgency. |
| Parser.BulletMatchSound | backend/parser.py:28 | A positive bullet length is a match of the pattern: a token, then whitespace, with the match as long as possible. |
| Parser.BulletMatchComplete | backend/parser.py:28 | Every match of the pattern is the one `BulletMatch` reports. |
| Parser.Classify | backend/parser.py:34-62 | A candidate is a contiguous piece of the raw line and contains no metadata keyword. A non-empty candidate does not start or end with `.`, `:`, `;` or `,`. |
| Parser.ClassifyLine | backend/parser.py:34-62 | The loop body computes exactly `Classify`. |
| Parser.CleanInLine | backend/parser.py:60-62 | The cleaned line is a contiguous piece of the line. |
| Parser.CleanHasNoSkipKeyword | backend/parser.py:41-62 | A line without a metadata keyword cleans to a line without one. |
| Parser.ExtractTopics | backend/parser.py:22-69 | The line loop, with its `candidates` list and `seen` set, computes exactly `Topics`. |
| Parser.CollectPrefix | backend/parser.py:64-66 | Topics found so far stay at the front of the list. |
| Parser.CollectMembership | backend/parser.py:64-66 | A topic is collected iff some verdict offers it. |
| Parser.CollectDistinct | backend/parser.py:64-66 | No topic is collected twice. |
| Parser.CollectOrder | backend/parser.py:64-66 | Topics are collected in the order of their first offer. |
| Parser.CollectSkipsInert | backend/parser.py:36-43 | A line that offers nothing can be removed without changing the result. |
| Parser.CandidatesMembership | backend/parser.py:33-66 | A topic is listed iff some line yields it: a candidate longer than 3 characters. |
| Parser.CandidatesDistinct | backend/parser.py:64-66 | The listed topics are pairwise different. |
| Parser.CandidatesClean | backend/parser.py:37-66 | Every listed topic is longer than 3 characters, has no metadata keyword in any case, and lies within one line. |
| Parser.FirstOccurrenceOrder | backend/parser.py:33-66 | Topics appear in the order of the lines that first yield them. |
| Parser.DroppedLineIgnored | backend/parser.py:37-43 | A line under 4 characters after stripping, or one with a metadata keyword, can be deleted from the input without changing the topics. |
| Parser.DroppedLineVerdict | backend/parser.py:37-43 | Such a line is never a candidate. |
| Parser.Take | backend/parser.py:69 | `candidates[:100]` is a prefix of the topics: all of them when there are at most 100, and otherwise exactly the first 100. |
| Parser.TopicsEmpty | backend/parser.py:69 | The result is `""` iff no line yields a topic. |
| Parser.TopicsShown | backend/parser.py:69 | The result joins, with `", "`, the first min(100, number found) distinct topics, in the order found. |
| Parser.FirstFailure | backend/parser.py:13-16 | There is no failure iff every page's text was extracted. |
| Parser.FirstFailureAt | backend/parser.py:13-16 | When page `i` raised and every earlier page was extracted, the failure reported is page `i`'s message. |
| Parser.FullText | backend/parser.py:12-16 | The text is empty iff no page gave non-empty text, and otherwise it ends with a newline. |
| Parser.FirstFailurePrefix | backend/parser.py:13-16 | The first failing page ends the read: later pages do not matter. |
| Parser.ExtractTopicsFromPdf | backend/parser.py:4-72 | The read-then-extract body computes exactly `ExtractResult`. |
| Parser.ExtractOutcome | backend/parser.py:9-72 | An unreadable file gives `"Error parsing PDF: "` followed by the reader's message, a failing page gives that prefix followed by the first failing page's message, and otherwise the result is the topic list of the joined page texts. |
| Prototype.ChaptersRemaining | prototype.py:14-16 | The remainder is never negative. It is 0 iff all chapters are done, and otherwise done plus remaining is the total. |
| Prototype.DaysRemaining | prototype.py:18-23 | The days are at least 1. They are the real days left for a future exam, and 1 for an exam today or past. |
| Prototype.Urgency | prototype.py:25-31 | A finished subject has urgency 0. With difficulty ≥ -10 the urgency is not negative, and with difficulty > -10 and work left it is positive. |
| Prototype.UrgencyTimesDays | prototype.py:29-30 | Urgency times days left is the remaining chapters times the weight. |
| Prototype.GetStudyPlanData | prototype.py:33-63 | The sum, row and sort steps compute exactly `PlanData`. |
| Prototype.SumUrgencies | prototype.py:38 | The loop computes the total urgency. |
| Prototype.BuildRow | prototype.py:42-59 | One pass of the row loop builds exactly `RowOf`. |
| Prototype.PlanDataPermutes | prototype.py:62 | The plan is a permutation of the rows, in descending shown urgency, with equal urgencies in input order. |
| Prototype.RowShape | prototype.py:41-59 | Each subject's row carries its name and date, and a finished subject gets 0 hours, urgency 0 and the completion note, while any other gets no note, its urgency to within 0.005, and, when urgency and total are positive, its share rounded by `QuarterRound` (within 0.125 of it), and 0 hours otherwise. |
| Prototype.UrgencyAtMostTotal | prototype.py:38 | With difficulties ≥ -10, each urgency is between 0 and the total. |
| Prototype.TotalNonNegative | prototype.py:38 | With difficulties ≥ -10, the total urgency is not negative. |
| Prototype.AllocationBounded | prototype.py:49-51 | With difficulties ≥ -10 and a non-negative day, each row gets between 0 and the day's hours plus 0.125. |
| Prototype.FractionOfDay | prototype.py:50 | A part of a positive whole gets between 0 and the whole day. |
| BasicDemo.CalculateUrgency | basic_demo.py:11-24 | The result is the sentinel iff the exam is today or past. Otherwise the pair carries the real days left, at least 1. |
| BasicDemo.ScoreTimesDays | basic_demo.py:23 | The score times the days left is the difficulty. |
| BasicDemo.FirstPanic | basic_demo.py:35-36 | There is no panic iff every exam is in the future. A reported panic belongs to a subject whose exam is today or past. |
| BasicDemo.Hours | basic_demo.py:53-58 | The hours are within 0.05 of the proportional share when the total is positive, and 0 otherwise. |
| BasicDemo.IconFor | basic_demo.py:60-62 | Red iff score > 2, orange iff 1 < score ≤ 2, green iff score ≤ 1. |
| BasicDemo.GenerateSimplePlan | basic_demo.py:26-69 | The score, sort, sum and show steps compute exactly `SimplePlan`. |
| BasicDemo.ScoreSubjects | basic_demo.py:35-42 | The loop stops at the first past exam. If there is none, it builds exactly `Queue`: one item per subject, in order, with its name, score, days and topics. |
| BasicDemo.SumScores | basic_demo.py:50 | The loop computes the total score. |
| BasicDemo.ShowQueue | basic_demo.py:52-69 | The display loop computes exactly `Display`, including the four lines shown for an item without topics before the failure. |
| BasicDemo.DisplayStopsAt | basic_demo.py:52-68 | Once the display stops, later items change nothing. |
| BasicDemo.PanicPrefix | basic_demo.py:35-36 | The first subject whose exam is today or past is the one that stops the demo. |
| BasicDemo.DisplayShown | basic_demo.py:52-68 | Every line is shown iff every item has a topic. The lines then follow the items one to one. |
| BasicDemo.DisplayStopped | basic_demo.py:52-68 | A stopped display stops at the first item without topics: the items before it are shown line by line, and its icon, name, days, score and hours are the last thing shown. |
| BasicDemo.SimplePlanShown | basic_demo.py:26-69 | The demo completes iff every exam is in the future and every subject has a topic. Its lines are then the sorted queue's, each with the first topic as focus. |
| AnalysisCharts.CompletedPendingPartition | frontend/src/components/AnalysisCharts.jsx:16-17 | Completed plus pending topics is the number of topics. |
| AnalysisCharts.LoadOf | frontend/src/components/AnalysisCharts.jsx:15-24 | Each bar carries the subject's name and total. Its counts are not negative and add up to the total. `SubjectLoad` maps the subjects to these bars one to one, in order. |
| AnalysisCharts.BucketOf | frontend/src/components/AnalysisCharts.jsx:29-31 | Easy iff ≤ 4, medium iff 5 to 7, hard iff > 7. |
| AnalysisCharts.BucketsPartition | frontend/src/components/AnalysisCharts.jsx:27-32 | Each subject is in exactly one bucket: easy + medium + hard = number of subjects. |
| AnalysisCharts.CountBuckets | frontend/src/components/AnalysisCharts.jsx:27-32 | The counters equal the bucket counts and add up to the number of subjects. |
| AnalysisCharts.PositiveSlicesKeep | frontend/src/components/AnalysisCharts.jsx:37 | The filter keeps exactly the slices with a positive value, and their total is unchanged. |
| AnalysisCharts.DifficultyDistCases | frontend/src/components/AnalysisCharts.jsx:33-37 | The pie data is the non-empty buckets, in the order Easy, Medium, Hard. |
| AnalysisCharts.DifficultyDistOrder | frontend/src/components/AnalysisCharts.jsx:33-37 | A bucket is shown iff its count is positive, and slices keep the Easy, Medium, Hard order. |
| AnalysisCharts.DifficultyDistTotal | frontend/src/components/AnalysisCharts.jsx:33-37 | The slices add up to the three counts. |
| AnalysisCharts.DifficultyDistShape | frontend/src/components/AnalysisCharts.jsx:27-37 | Over the subjects, a bucket is shown iff some subject falls in it, and the slices add up to the number of subjects. |
| AnalysisCharts.ComputeChartData | frontend/src/components/AnalysisCharts.jsx:11-40 | The memo body computes exactly `ChartDataOf`. |
| AnalysisCharts.RendersIffData | frontend/src/components/AnalysisCharts.jsx:12-42 | Charts are drawn iff there is chart data. They then have one bar per subject, in order, named after it. |
| Dashboard.NamedPieces | frontend/src/pages/Dashboard.jsx:38-42 | Mapping each piece to a record with its trimmed name (`ToTopics`), then filtering by name, gives the trimmed non-blank pieces, in order. |
| Dashboard.NamedFresh | frontend/src/pages/Dashboard.jsx:38-42 | Every record sent has a name, weightage 1.0 and status false. |
| Dashboard.TopicListShape | frontend/src/pages/Dashboard.jsx:38-42 | The names are the comma-separated pieces, trimmed, blanks dropped, in order. No name is empty, holds a comma, or starts or ends with whitespace. |
| Dashboard.TopicListRoundTrip | frontend/src/pages/Dashboard.jsx:38-42 | Non-empty, trimmed, comma-free names joined with `", "` come back unchanged. |
| Dashboard.PayloadOf | frontend/src/pages/Dashboard.jsx:38-49 | The request carries the form's name, date and difficulty, and as topics the form's `topicList`. |
| Dashboard.AppendParsedNames | frontend/src/components/SubjectForm.jsx:29 | Appending parsed names to a field of names yields the field's names, then the parsed ones. |
| Dashboard.AppendParsed | frontend/src/components/SubjectForm.jsx:29 | The parsed text replaces an empty field, and otherwise follows the kept field and a `", "`. |
| Dashboard.TrailingBlank | frontend/src/components/SubjectForm.jsx:29 | Appending an empty parse adds no topic. |
| Dashboard.BorderOf | frontend/src/pages/Dashboard.jsx:166 | Red iff urgency > 1.5, amber otherwise. |
| Dashboard.View | frontend/src/pages/Dashboard.jsx:154-174 | Nothing is shown before a schedule exists. An empty schedule shows "No pending tasks!". Otherwise there is one card per entry with its subject, topic and hours, and a red border iff urgency > 1.5. |
| Dashboard.CardOf | frontend/src/pages/Dashboard.jsx:161-170 | A card shows its entry's subject, topic and hours, with a red border iff the urgency is above 1.5. |
| Dashboard.AllDoneShowsNoPending | frontend/src/pages/Dashboard.jsx:157-158 | A plan for subjects whose topics are all done shows "No pending tasks!". |
| Dashboard.RedCardsFirst | frontend/src/pages/Dashboard.jsx:161-166 | For every daily budget, all red cards of a generated plan come before any amber card. |
| App.SetStatusEffect | database.py:103-108 | The update sets the status of the rows with that id and changes nothing else. Distinct ids stay distinct. |
| App.SetStatusIdempotent | database.py:106 | Repeating the update changes nothing. Setting the status a topic already has changes nothing. |
| App.Store.constructor | database.py:6-34 | A fresh database has empty tables and counters at 1. |
| App.Store.AddSubject | database.py:36-45 | Appends one subject row with the next id and returns that id. The topics table is unchanged. |
| App.Store.AddTopic | database.py:47-54 | Appends one topic row with the next id and status 0. The subjects table is unchanged. |
| App.Store.ToggleTopicStatus | database.py:103-108 | The topics table becomes `SetStatus` of the old one. All else is unchanged. |
| App.RawTopicsShape | app.py:91 | Each raw topic is non-empty, comma-free and stripped. Such names joined with `", "` split back unchanged. |
| App.AddTopics | app.py:92-93 | Appends one pending topic row per name, in order, with consecutive ids under the given subject. The subjects table is unchanged. |
| App.SaveSubject | app.py:87-97 | An empty name gives "Name is required" and writes nothing. Otherwise it adds the subject, then one pending topic per raw topic, in order, under the new subject's id. The subject counter goes up by one and the topic counter by the number of raw topics. |
| App.CheckboxAgrees | app.py:70-72 | The database is written iff the box disagrees with the stored status, and only 0 or 1 is written. Afterwards the status is 1 iff the box is checked, and a second pass writes nothing. |
| App.CheckboxWrite | app.py:70-72 | A write happens iff the box disagrees with the stored status, and it writes 1 iff the box is checked, and otherwise 0. |
| App.SyncCheckbox | app.py:64-73 | Writes `SetStatus` with 1 or 0 exactly when the box and the stored status disagree. Otherwise the topics are unchanged. The subjects and both id counters never change. |
| App.CheckboxThenConvert | app.py:119-124 | After the checkbox is handled, the planner sees the topic as completed iff the box is checked. `ConvertTopics` converts the stored topics one to one, in order. |
| App.SavedTopicNotCompleted | database.py:51 | Freshly saved topics are never completed for the planner. |
| App.AlertFor | app.py:166-174 | Finished iff days < 0, urgent iff 0 to 6, warning iff 7 to 29, relaxed iff ≥ 30. The non-finished alerts carry the days. |
| App.AlertMonotone | app.py:167-174 | An earlier exam never gets a calmer alert. |
| App.ByExamDateCorrect | app.py:164 | The countdown order is ascending by exam date and is a permutation of the subjects. Subjects with the same date keep their stored order. |
| App.ByExamDateAscending | app.py:164 | The countdown order is ascending by exam date. |
| App.CountdownOrdered | app.py:164-174 | Down the countdown, alerts never get more pressing: Finished, then urgent, warning, relaxed. |
| App.ReplayLastDecisive | app.py:26-48 | From a fresh session, the flag is set iff the last login-or-logout event was a login with a non-empty name. An empty name changes nothing, and log-out clears the flag. |
| App.Step | app.py:26-48 | Log-out clears the flag, a login with a name sets it, and a login with an empty name leaves it as it was. |
| App.Replay | app.py:26-48 | The flag is only ever set after some login with a non-empty name. |
| App.Session.constructor | app.py:178 | A new session has no `logged_in` key. |
| App.Session.Route | app.py:178-184 | A missing flag becomes false. The main app is shown iff the flag is true. |
| App.Session.Login | app.py:26-34 | A non-empty username sets the flag and reports success. An empty one leaves the flag false and asks for a username. |
| App.Session.LogOut | app.py:46-48 | Log-out clears the flag. |
| Text.JoinSplit | backend/parser.py:22 | Joining the pieces of a split with the separator gives the text back. |
| Text.SplitJoin | backend/parser.py:69 | Splitting a join of separator-free pieces gives the pieces back. |
| Text.TrimmedPiecesShape | app.py:91 | Trimmed non-blank pieces are non-empty, stripped and separator-free. |
| Text.TrimmedPiecesJoin | backend/parser.py:69 | Names joined with the separator and a space split and trim back to the names. |
| Text.StripIdempotent | backend/parser.py:34 | Stripping twice is stripping once. |
| Rounding.RoundHalfEven | backend/logic.py:60 | The result is an integer within 1/2, and ties go to the even neighbour. |
| Rounding.QuarterRound | backend/logic.py:60 | The result is a multiple of 0.25 within 0.125 of its input, and on a tie it is an even number of quarters. |
| Rounding.QuarterRoundTies | backend/logic.py:60 | A share of 0.625 rounds to 0.5, and one of 0.875 to 1.0. |
| Rounding.RoundTo | backend/logic.py:67 | Rounding to one or two decimals moves a value by at most half a unit of the last decimal. |
| Rounding.RoundToMonotone | backend/logic.py:67 | Rounding to one or two decimals never reverses the order of two values. |
| Lists.SortDescCorrect | backend/logic.py:49 | The sort orders by descending key and is a permutation. |
| Lists.SortDescStable | backend/logic.py:49 | Elements with equal keys keep their relative order. |

## Left out

- PDF reading (`pypdf`), FastAPI, Streamlit widgets, React hooks, Recharts rendering, `print` and `input` are not modelled. A document is given as a list of page texts, or a failure message. The demo's per-subject printout is modelled as one record per subject, plus the record of the four lines shown for a subject without topics before the failure. Its banner lines are not modelled.
- Page text that `extract_text` returns as `None` is modelled as the empty string. Both are skipped alike.
- Floating point is modelled as exact reals. `round(x)` is round-half-to-even on exact values, and `round(x, n)` is rounding `x·10ⁿ` that way, then dividing.
- Rounding.RoundTo: covers `n` = 1 and `n` = 2 only, the two precisions the source calls it with. This keeps the arithmetic linear.
- `str.lower`, `str.isupper` and `\d` are modelled on ASCII only. Non-ASCII letters and digits are treated as other characters.
- The cap of 2 hours per topic named in the comment at backend/logic.py:55 is not in the code, so it is not modelled.
- Dates are integer day numbers, and "today" is a parameter. `strptime` and the date formats are not modelled.
- The in-place `list.sort` calls are modelled as a stable sort function on sequences (an insertion sort). The update in place is not captured.
- `sum(...)` builtins are written as loops (`SumUrgencies`, `SumScores`).
- Some loop bodies are separate methods for proof size: `AllocateHours`, `CollectPending`, `ClassifyLine`, `BuildRow`, `ScoreSubjects`, `ShowQueue` and `AddTopics`.
- The SQLite database is the class `App.Store`, with its two tables as sequences and the `AUTOINCREMENT` counters as fields. `delete_subject` is not part of this model, and neither is `get_all_data`, which only reads.
- app.py imports `Topic` from prototype.py and calls `Subject` with another signature, so the app cannot run as wired. Each piece is modelled on its own, and the composition with the prototype planner is left out.
- backend/main.py, backend/models.py, backend/schemas.py, Login.jsx and the HTTP tests are not part of this model.
- `parseInt` on the difficulty field is not modelled; the form carries an integer.
- BasicDemo.Hours: states only that the hours are within 0.05 of the exact share, not which tie rule a one-decimal rounding uses.
- Prototype.RowShape: states the shown urgency only to within 0.005 of the exact urgency.
- Logic.PlanOrdered: needs `dailyHours >= 0`. A negative day would reverse the order of the shares.
- Logic.PlanWithinBudget: needs `dailyHours >= 0`, non-negative weights and difficulties of at least -10. With a negative urgency, a dropped item's share could be negative, and the bound would not follow.
- Prototype.AllocationBounded: needs difficulties of at least -10 and a non-negative day. Other values make urgencies negative, and then the bound fails.
