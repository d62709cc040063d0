/** The data behind the dashboard's two charts
    (frontend/src/components/AnalysisCharts.jsx): topics done and pending per
    subject, and how many subjects are easy, medium or hard. The subjects are
    the records the back end returns. */
module AnalysisCharts {
  import opened Wrappers
  import Logic

  /** One bar of the progress chart. */
  datatype Load = Load(name: string, completed: nat, pending: int, total: nat)

  /** One slice of the difficulty pie. */
  datatype Slice = Slice(name: string, value: nat, color: string)

  /** What `chartData` holds: nothing to chart (the empty array the memo
      returns), or the two series. */
  datatype ChartData = NoChart | Charts(subjectLoad: seq<Load>, difficultyDist: seq<Slice>)

  /** The three difficulty buckets. */
  datatype Bucket = Easy | Medium | Hard

  /** Number of topics whose `status` is set. */
  function CompletedCount(topics: seq<Logic.Topic>): (n: nat)
    ensures n <= |topics|
  {
    if topics == [] then 0
    else (if topics[0].status then 1 else 0) + CompletedCount(topics[1..])
  }

  /** Number of topics whose `status` is not set. */
  function PendingCount(topics: seq<Logic.Topic>): nat
  {
    if topics == [] then 0
    else (if topics[0].status then 0 else 1) + PendingCount(topics[1..])
  }

  /** Every topic is either done or pending. */
  lemma {:induction false} CompletedPendingPartition(topics: seq<Logic.Topic>)
    ensures CompletedCount(topics) + PendingCount(topics) == |topics|
  {
    if topics != [] {
      CompletedPendingPartition(topics[1..]);
    }
  }

  /** The bar for one subject. */
  function LoadOf(sub: Logic.Subject): (load: Load)
    ensures load.name == sub.name && load.total == |sub.topics|
    ensures load.completed == CompletedCount(sub.topics)
    ensures load.pending == PendingCount(sub.topics) >= 0
    ensures load.completed + load.pending == load.total
  {
    CompletedPendingPartition(sub.topics);
    var completed := CompletedCount(sub.topics);
    Load(sub.name, completed, |sub.topics| - completed, |sub.topics|)
  }

  /** `subjects.map(...)`: one bar per subject, in order. */
  function SubjectLoad(subjects: seq<Logic.Subject>): (loads: seq<Load>)
    ensures |loads| == |subjects|
    ensures forall k :: 0 <= k < |subjects| ==> loads[k] == LoadOf(subjects[k])
  {
    seq(|subjects|, k requires 0 <= k < |subjects| => LoadOf(subjects[k]))
  }

  /** The bucket the `forEach` puts a difficulty in. */
  function BucketOf(difficulty: int): (b: Bucket)
    ensures b == Easy <==> difficulty <= 4
    ensures b == Medium <==> 5 <= difficulty <= 7
    ensures b == Hard <==> difficulty > 7
  {
    if difficulty <= 4 then Easy else if difficulty <= 7 then Medium else Hard
  }

  /** Number of subjects in bucket `b`. */
  function CountIn(subjects: seq<Logic.Subject>, b: Bucket): nat
  {
    if subjects == [] then 0
    else CountIn(subjects[..|subjects| - 1], b) + (if BucketOf(subjects[|subjects| - 1].difficulty) == b then 1 else 0)
  }

  /** Each subject falls in exactly one bucket. */
  lemma {:induction false} BucketsPartition(subjects: seq<Logic.Subject>)
    ensures CountIn(subjects, Easy) + CountIn(subjects, Medium) + CountIn(subjects, Hard) == |subjects|
  {
    if subjects != [] {
      BucketsPartition(subjects[..|subjects| - 1]);
    }
  }

  /** The `forEach` over the subjects with the three counters. */
  method CountBuckets(subjects: seq<Logic.Subject>) returns (easy: nat, medium: nat, hard: nat)
    ensures easy == CountIn(subjects, Easy)
    ensures medium == CountIn(subjects, Medium)
    ensures hard == CountIn(subjects, Hard)
    ensures easy + medium + hard == |subjects|
  {
    easy, medium, hard := 0, 0, 0;
    for i := 0 to |subjects|
      invariant easy == CountIn(subjects[..i], Easy)
      invariant medium == CountIn(subjects[..i], Medium)
      invariant hard == CountIn(subjects[..i], Hard)
    {
      assert subjects[..i + 1][..i] == subjects[..i];
      var sub := subjects[i];
      if sub.difficulty <= 4 {
        easy := easy + 1;
      } else if sub.difficulty <= 7 {
        medium := medium + 1;
      } else {
        hard := hard + 1;
      }
    }
    assert subjects[..|subjects|] == subjects;
    BucketsPartition(subjects);
  }

  /** The pie's slices before the filter. */
  function AllSlices(easy: nat, medium: nat, hard: nat): seq<Slice>
  {
    [Slice("Easy (1-4)", easy, "#4ade80"),
     Slice("Medium (5-7)", medium, "#facc15"),
     Slice("Hard (8-10)", hard, "#f87171")]
  }

  /** `.filter(d => d.value > 0)`. */
  function PositiveSlices(slices: seq<Slice>): seq<Slice>
  {
    if slices == [] then []
    else (if slices[0].value > 0 then [slices[0]] else []) + PositiveSlices(slices[1..])
  }

  /** The filter keeps exactly the slices with a positive count, in order:
      a slice of the result is a slice of the input with a positive value,
      each input slice with a positive value is kept, and the kept slices
      add up to the same total. */
  lemma {:induction false} PositiveSlicesKeep(slices: seq<Slice>)
    ensures forall s :: s in PositiveSlices(slices) <==> s in slices && s.value > 0
    ensures SliceTotal(PositiveSlices(slices)) == SliceTotal(slices)
  {
    if slices != [] {
      PositiveSlicesKeep(slices[1..]);
      assert slices == [slices[0]] + slices[1..];
      SliceTotalAppend(if slices[0].value > 0 then [slices[0]] else [], PositiveSlices(slices[1..]));
    }
  }

  /** The sum of the slices' values. */
  function SliceTotal(slices: seq<Slice>): nat
  {
    if slices == [] then 0 else slices[0].value + SliceTotal(slices[1..])
  }

  /** Summing over two runs of slices. */
  lemma {:induction false} SliceTotalAppend(a: seq<Slice>, b: seq<Slice>)
    ensures SliceTotal(a + b) == SliceTotal(a) + SliceTotal(b)
  {
    if a != [] {
      assert (a + b)[0] == a[0];
      assert (a + b)[1..] == a[1..] + b;
      SliceTotalAppend(a[1..], b);
      assert SliceTotal(a + b) == a[0].value + SliceTotal(a[1..] + b);
    } else {
      assert a + b == b;
    }
  }

  /** The pie data: the non-empty buckets in the order Easy, Medium, Hard. */
  function DifficultyDist(easy: nat, medium: nat, hard: nat): seq<Slice>
  {
    PositiveSlices(AllSlices(easy, medium, hard))
  }

  /** The filter on the three buckets keeps each bucket iff it is not
      empty, in the order Easy, Medium, Hard. */
  lemma DifficultyDistCases(e: nat, m: nat, h: nat)
    ensures DifficultyDist(e, m, h)
         == (if e > 0 then [Slice("Easy (1-4)", e, "#4ade80")] else [])
          + (if m > 0 then [Slice("Medium (5-7)", m, "#facc15")] else [])
          + (if h > 0 then [Slice("Hard (8-10)", h, "#f87171")] else [])
  {
    var all := AllSlices(e, m, h);
    assert all[1..][1..][1..] == [];
    assert PositiveSlices(all[1..][1..]) == (if h > 0 then [all[2]] else []) + [];
    assert PositiveSlices(all[1..]) == (if m > 0 then [all[1]] else []) + PositiveSlices(all[1..][1..]);
    assert PositiveSlices(all) == (if e > 0 then [all[0]] else []) + PositiveSlices(all[1..]);
  }

  /** The pie shows a bucket iff it holds a subject, and the buckets keep
      the order Easy, Medium, Hard. */
  lemma DifficultyDistOrder(e: nat, m: nat, h: nat)
    ensures var dist := DifficultyDist(e, m, h);
            && (Slice("Easy (1-4)", e, "#4ade80") in dist <==> e > 0)
            && (Slice("Medium (5-7)", m, "#facc15") in dist <==> m > 0)
            && (Slice("Hard (8-10)", h, "#f87171") in dist <==> h > 0)
            && (forall i, j :: 0 <= i < j < |dist| ==> SliceRank(dist[i]) < SliceRank(dist[j]))
  {
    DifficultyDistCases(e, m, h);
  }

  /** The slices add up to the three counts. */
  lemma DifficultyDistTotal(e: nat, m: nat, h: nat)
    ensures SliceTotal(DifficultyDist(e, m, h)) == e + m + h
  {
    var easy := if e > 0 then [Slice("Easy (1-4)", e, "#4ade80")] else [];
    var medium := if m > 0 then [Slice("Medium (5-7)", m, "#facc15")] else [];
    var hard := if h > 0 then [Slice("Hard (8-10)", h, "#f87171")] else [];
    DifficultyDistCases(e, m, h);
    SliceTotalAppend(easy, medium);
    SliceTotalAppend(easy + medium, hard);
    assert SliceTotal(easy) == e && SliceTotal(medium) == m && SliceTotal(hard) == h;
  }

  /** Over the subjects: the pie shows a bucket iff some subject falls in
      it, in the order Easy, Medium, Hard, and the slices add up to the
      number of subjects. */
  lemma DifficultyDistShape(subjects: seq<Logic.Subject>)
    ensures var e, m, h := CountIn(subjects, Easy), CountIn(subjects, Medium), CountIn(subjects, Hard);
            var dist := DifficultyDist(e, m, h);
            && (Slice("Easy (1-4)", e, "#4ade80") in dist <==> e > 0)
            && (Slice("Medium (5-7)", m, "#facc15") in dist <==> m > 0)
            && (Slice("Hard (8-10)", h, "#f87171") in dist <==> h > 0)
            && SliceTotal(dist) == |subjects|
  {
    BucketsPartition(subjects);
    DifficultyDistOrder(CountIn(subjects, Easy), CountIn(subjects, Medium), CountIn(subjects, Hard));
    DifficultyDistTotal(CountIn(subjects, Easy), CountIn(subjects, Medium), CountIn(subjects, Hard));
  }

  /** Position of a slice in the order Easy, Medium, Hard. */
  function SliceRank(s: Slice): nat
  {
    if s.name == "Easy (1-4)" then 0 else if s.name == "Medium (5-7)" then 1 else 2
  }

  /** The `useMemo` computation: nothing for missing or empty subjects,
      else both series. */
  function ChartDataOf(subjects: Option<seq<Logic.Subject>>): ChartData
  {
    if subjects.None? || subjects.value == [] then NoChart
    else
      var s := subjects.value;
      Charts(SubjectLoad(s), DifficultyDist(CountIn(s, Easy), CountIn(s, Medium), CountIn(s, Hard)))
  }

  /** The body of the `useMemo` callback. */
  method ComputeChartData(subjects: Option<seq<Logic.Subject>>) returns (data: ChartData)
    ensures data == ChartDataOf(subjects)
  {
    if subjects.None? || |subjects.value| == 0 {
      return NoChart;
    }
    var subjectLoad := SubjectLoad(subjects.value);
    var easy, medium, hard := CountBuckets(subjects.value);
    var difficultyDist := DifficultyDist(easy, medium, hard);
    data := Charts(subjectLoad, difficultyDist);
  }

  /** The component renders its charts iff there are subjects; otherwise
      it renders nothing and the data is empty. */
  predicate Renders(subjects: Option<seq<Logic.Subject>>)
  {
    subjects.Some? && subjects.value != []
  }

  /** Charts are drawn exactly when there is data for them, and then there
      is one bar per subject, in order, with its own name. */
  lemma RendersIffData(subjects: Option<seq<Logic.Subject>>)
    ensures Renders(subjects) <==> ChartDataOf(subjects).Charts?
    ensures Renders(subjects) ==>
              var loads := ChartDataOf(subjects).subjectLoad;
              |loads| == |subjects.value|
              && forall k :: 0 <= k < |loads| ==> loads[k].name == subjects.value[k].name
  {
  }
}
