/** Temporal segmentation of one cluster (finder.py, `find_sequences`, the
    body of its per-cluster loop): walk the date-sorted members pairwise,
    grow a tentative run while the day interval stays inside a window
    around the mean interval, and keep the runs that reach four members. */
module Segmenter {
  import opened Base
  import opened Transactions

  /** TIMING_MAX_DEVIATION_DAYS */
  const MaxDeviationDays: real := 3.0
  /** TIMING_MIN_DAYS */
  const MinDays: real := 4.0
  /** The minimum number of members of a cluster worth walking and of a
      stored sequence (`len(...) < 4`, `len(...) >= 4`). */
  const MinLength: nat := 4

  /** The accepted intervals `[interval_min, interval_max]`. */
  datatype Window = Window(lo: real, hi: real)

  /** `interval_max = mean + 3`, `interval_min = max(mean - 3, 4)`. */
  function WindowAround(mean: real): (w: Window)
    ensures w.hi == mean + MaxDeviationDays
    ensures w.lo >= MinDays && w.lo >= mean - MaxDeviationDays
    ensures w.lo == MinDays || w.lo == mean - MaxDeviationDays
  {
    Window(if mean - MaxDeviationDays >= MinDays then mean - MaxDeviationDays else MinDays,
           mean + MaxDeviationDays)
  }

  /** An interval does not break the sequence: neither
      `interval < interval_min` nor `interval_max < interval`. */
  predicate InWindow(interval: int, w: Window) {
    w.lo <= interval as real <= w.hi
  }

  /** A run kept by the walk: the members handed to `store_sequence`, the
      `cluster_mean` they were accepted under, and (for stating properties)
      the position of the first member in the sorted cluster. */
  datatype Run = Run(start: nat, members: seq<Transaction>, frequency: real)

  /** The walk's variables after some steps: the runs stored so far,
      `tentative_sequence` and `cluster_mean` (the window is a function of
      the mean). `Failed` is the StatisticsError that `get_mean_interval`
      raises on a remainder of one transaction. */
  datatype Walk =
    | Walking(found: seq<Run>, tentative: seq<Transaction>, mean: real)
    | Failed(found: seq<Run>)

  /** The day interval from position k to position k + 1. */
  function Interval(sorted: seq<Transaction>, k: nat): int
    requires k + 1 < |sorted|
  {
    sorted[k + 1].date - sorted[k].date
  }

  /** One pass of the loop body for the transaction at position j, whose
      predecessor (`prev_transaction`) is at j - 1; `idx` is j. */
  function Step(sorted: seq<Transaction>, j: nat, w: Walk): (r: Walk)
    requires 1 <= j < |sorted|
    requires w.Walking? ==> |w.tentative| < j
    ensures |w.found| <= |r.found| <= |w.found| + 1 && r.found[..|w.found|] == w.found
    ensures w.Failed? ==> r == w
  {
    match w
    case Failed(_) => w
    case Walking(found, tentative, mean) =>
      if InWindow(Interval(sorted, j - 1), WindowAround(mean)) then
        Walking(found, tentative + [sorted[j - 1]], mean)
      else if |tentative| >= MinLength then
        var run := Run(j - 1 - |tentative|, tentative, mean);
        match MeanIntervalFrom(sorted, j)
        case None => Failed(found + [run])
        case Some(m) => Walking(found + [run], [], m)
      else
        Walking(found, [], mean)
  }

  /** The walk after the transactions at positions 1 .. j-1 (position 0
      only becomes `prev_transaction`), starting from the mean interval of
      the whole sorted cluster. */
  function WalkTo(sorted: seq<Transaction>, j: nat): (w: Walk)
    requires 2 <= |sorted| && 1 <= j <= |sorted|
    ensures w.Walking? ==> |w.tentative| < j
    decreases j
  {
    if j == 1 then Walking([], [], MeanInterval(sorted).value)
    else Step(sorted, j - 1, WalkTo(sorted, j - 1))
  }

  /** One transaction further, when the interval into it is in the
      window: its predecessor joins the tentative run. */
  lemma WalkExtends(sorted: seq<Transaction>, j: nat, found: seq<Run>, tentative: seq<Transaction>, mean: real)
    requires 1 <= j < |sorted| && WalkTo(sorted, j) == Walking(found, tentative, mean)
    requires InWindow(Interval(sorted, j - 1), WindowAround(mean))
    ensures WalkTo(sorted, j + 1) == Walking(found, tentative + [sorted[j - 1]], mean)
  {
  }

  /** One transaction further, when the interval is out of the window and
      the tentative run has four or more members: the run is stored and
      the walk goes on under the mean of the rest, `m`. */
  lemma WalkStores(sorted: seq<Transaction>, j: nat, found: seq<Run>, tentative: seq<Transaction>, mean: real, m: real)
    requires 1 <= j < |sorted| && WalkTo(sorted, j) == Walking(found, tentative, mean)
    requires !InWindow(Interval(sorted, j - 1), WindowAround(mean)) && |tentative| >= MinLength
    requires MeanIntervalFrom(sorted, j) == Some(m)
    ensures WalkTo(sorted, j + 1) == Walking(found + [Run(j - 1 - |tentative|, tentative, mean)], [], m)
  {
  }

  /** The same when the rest is a single transaction: the run is stored
      and the walk fails, which ends it. */
  lemma WalkStoresLast(sorted: seq<Transaction>, j: nat, found: seq<Run>, tentative: seq<Transaction>, mean: real)
    requires 1 <= j < |sorted| && WalkTo(sorted, j) == Walking(found, tentative, mean)
    requires !InWindow(Interval(sorted, j - 1), WindowAround(mean)) && |tentative| >= MinLength
    requires MeanIntervalFrom(sorted, j).None?
    ensures Segment(sorted) == Segmentation(found + [Run(j - 1 - |tentative|, tentative, mean)], false)
  {
    assert j + 1 == |sorted|;
  }

  /** One transaction further, when the interval is out of the window and
      the tentative run is short: the run is dropped. */
  lemma WalkDrops(sorted: seq<Transaction>, j: nat, found: seq<Run>, tentative: seq<Transaction>, mean: real)
    requires 1 <= j < |sorted| && WalkTo(sorted, j) == Walking(found, tentative, mean)
    requires !InWindow(Interval(sorted, j - 1), WindowAround(mean)) && |tentative| < MinLength
    ensures WalkTo(sorted, j + 1) == Walking(found, [], mean)
  {
  }

  /** What the walk of a sorted cluster stores, and whether it ran to the
      end (false: `get_mean_interval` raised after the last run was stored). */
  datatype Segmentation = Segmentation(runs: seq<Run>, completed: bool)

  /** The walk followed by the final flush of a long enough tentative run. */
  function Segment(sorted: seq<Transaction>): Segmentation
    requires |sorted| >= 2
  {
    match WalkTo(sorted, |sorted|)
    case Failed(found) => Segmentation(found, false)
    case Walking(found, tentative, mean) =>
      if |tentative| >= MinLength then
        Segmentation(found + [Run(|sorted| - 1 - |tentative|, tentative, mean)], true)
      else Segmentation(found, true)
  }

  /** A walk that reached the end of the cluster with a tentative run of
      four or more: the run is flushed and the walk completed. */
  lemma SegmentFlushes(sorted: seq<Transaction>, n: nat, found: seq<Run>, tentative: seq<Transaction>, mean: real)
    requires 2 <= n == |sorted| && WalkTo(sorted, n) == Walking(found, tentative, mean)
    requires |tentative| >= MinLength
    ensures Segment(sorted).completed
    ensures Segment(sorted).runs == found + [Run(n - 1 - |tentative|, tentative, mean)]
  {
  }

  /** A walk that reached the end of the cluster with a short tentative
      run: nothing more is stored and the walk completed. */
  lemma SegmentEnds(sorted: seq<Transaction>, n: nat, found: seq<Run>, tentative: seq<Transaction>, mean: real)
    requires 2 <= n == |sorted| && WalkTo(sorted, n) == Walking(found, tentative, mean)
    requires |tentative| < MinLength
    ensures Segment(sorted).completed
    ensures Segment(sorted).runs == found
  {
  }

  // ---------------------------------------------------------------------
  // The shape of what the walk stores

  /** A stored run is a slice of the sorted cluster of at least four
      members, followed by a closing transaction that is not part of it,
      and every interval from a member to its successor, the closing one
      included, lies in the window of the run's frequency. */
  ghost predicate RunOk(sorted: seq<Transaction>, r: Run) {
    && |r.members| >= MinLength
    && r.start + |r.members| < |sorted|
    && r.members == sorted[r.start..r.start + |r.members|]
    && RunInWindow(sorted, r)
  }

  ghost predicate RunInWindow(sorted: seq<Transaction>, r: Run)
    requires r.start + |r.members| < |sorted|
  {
    forall k :: r.start <= k < r.start + |r.members| ==>
      InWindow(Interval(sorted, k), WindowAround(r.frequency))
  }

  ghost predicate RunsOk(sorted: seq<Transaction>, runs: seq<Run>) {
    forall i :: 0 <= i < |runs| ==> RunOk(sorted, runs[i])
  }

  /** Each run's closing transaction comes before the next run starts. */
  ghost predicate RunsOrdered(runs: seq<Run>) {
    forall a, b :: 0 <= a < b < |runs| ==> runs[a].start + |runs[a].members| < runs[b].start
  }

  /** Every run closes before position `bound`. */
  ghost predicate RunsBefore(runs: seq<Run>, bound: int) {
    forall i :: 0 <= i < |runs| ==> runs[i].start + |runs[i].members| < bound
  }

  /** The tentative run before position j: the slice ending at the
      predecessor j - 1, every interval within it in the window. */
  ghost predicate TentativeOk(sorted: seq<Transaction>, j: nat, tentative: seq<Transaction>, mean: real)
    requires j <= |sorted|
  {
    && |tentative| < j
    && tentative == sorted[j - 1 - |tentative|..j - 1]
    && (forall k :: j - 1 - |tentative| <= k < j - 1 ==> InWindow(Interval(sorted, k), WindowAround(mean)))
  }

  /** The shape invariant of the walk after the transactions before j. */
  ghost predicate WalkOk(sorted: seq<Transaction>, j: nat, w: Walk)
    requires j <= |sorted|
  {
    && RunsOk(sorted, w.found)
    && RunsOrdered(w.found)
    && match w
       case Failed(found) =>
         && |found| > 0
         && found[|found| - 1].start + |found[|found| - 1].members| == |sorted| - 2
         && !InWindow(Interval(sorted, |sorted| - 2), WindowAround(found[|found| - 1].frequency))
       case Walking(found, tentative, mean) =>
         && TentativeOk(sorted, j, tentative, mean)
         && RunsBefore(found, j - 1 - |tentative|)
  }

  /** Appending a well-formed run that starts after every earlier run closed. */
  lemma AppendRun(sorted: seq<Transaction>, found: seq<Run>, run: Run)
    requires RunsOk(sorted, found) && RunsOrdered(found) && RunsBefore(found, run.start)
    requires RunOk(sorted, run)
    ensures RunsOk(sorted, found + [run]) && RunsOrdered(found + [run])
  {
    var all := found + [run];
    forall i | 0 <= i < |all| ensures RunOk(sorted, all[i]) {
      if i < |found| { assert all[i] == found[i]; }
    }
    forall a, b | 0 <= a < b < |all|
      ensures all[a].start + |all[a].members| < all[b].start
    {
      if b < |found| { assert all[a] == found[a] && all[b] == found[b]; }
      else { assert all[a] == found[a]; }
    }
  }

  /** The interval into position j extends the tentative run. */
  lemma StepExtends(sorted: seq<Transaction>, j: nat, w: Walk)
    requires 1 <= j < |sorted| && w.Walking? && WalkOk(sorted, j, w)
    requires InWindow(Interval(sorted, j - 1), WindowAround(w.mean))
    ensures WalkOk(sorted, j + 1, Step(sorted, j, w))
  {
    var start := j - 1 - |w.tentative|;
    assert w.tentative + [sorted[j - 1]] == sorted[start..j];
  }

  /** The interval into position j breaks a run of four or more: it is
      stored, closed by the transaction at j - 1. */
  lemma StepStores(sorted: seq<Transaction>, j: nat, w: Walk)
    requires 1 <= j < |sorted| && w.Walking? && WalkOk(sorted, j, w)
    requires !InWindow(Interval(sorted, j - 1), WindowAround(w.mean)) && |w.tentative| >= MinLength
    ensures WalkOk(sorted, j + 1, Step(sorted, j, w))
  {
    var run := Run(j - 1 - |w.tentative|, w.tentative, w.mean);
    assert RunOk(sorted, run);
    AppendRun(sorted, w.found, run);
    var found := w.found + [run];
    match MeanIntervalFrom(sorted, j)
    case None =>
      assert j == |sorted| - 1;
      assert Step(sorted, j, w) == Failed(found);
    case Some(m) =>
      assert RunsBefore(found, j);
      assert TentativeOk(sorted, j + 1, [], m);
      assert Step(sorted, j, w) == Walking(found, [], m);
  }

  /** The interval into position j breaks a short run: it is dropped. */
  lemma StepDrops(sorted: seq<Transaction>, j: nat, w: Walk)
    requires 1 <= j < |sorted| && w.Walking? && WalkOk(sorted, j, w)
    requires !InWindow(Interval(sorted, j - 1), WindowAround(w.mean)) && |w.tentative| < MinLength
    ensures WalkOk(sorted, j + 1, Step(sorted, j, w))
  {
  }

  lemma {:induction false} WalkShape(sorted: seq<Transaction>, j: nat)
    requires 2 <= |sorted| && 1 <= j <= |sorted|
    ensures WalkOk(sorted, j, WalkTo(sorted, j))
    decreases j
  {
    if j > 1 {
      WalkShape(sorted, j - 1);
      StepKeepsShape(sorted, j, WalkTo(sorted, j - 1));
      WalkToStep(sorted, j);
    }
  }

  /** Every step keeps the shape invariant. */
  lemma StepKeepsShape(sorted: seq<Transaction>, j: nat, w: Walk)
    requires 2 <= j <= |sorted| && (w.Walking? ==> |w.tentative| < j - 1) && WalkOk(sorted, j - 1, w)
    ensures WalkOk(sorted, j, Step(sorted, j - 1, w))
  {
    var i := j - 1;
    assert i + 1 == j;
    if w.Walking? {
      if InWindow(Interval(sorted, i - 1), WindowAround(w.mean)) {
        StepExtends(sorted, i, w);
      } else if |w.tentative| >= MinLength {
        StepStores(sorted, i, w);
      } else {
        StepDrops(sorted, i, w);
      }
    }
  }

  /** Everything `find_sequences` stores for one cluster is a well-formed
      run (see RunOk), and the runs come one after another. */
  lemma SegmentShape(sorted: seq<Transaction>)
    requires |sorted| >= 2
    ensures RunsOk(sorted, Segment(sorted).runs) && RunsOrdered(Segment(sorted).runs)
  {
    var n := |sorted|;
    WalkShape(sorted, n);
    var w := WalkTo(sorted, n);
    if w.Walking? && |w.tentative| >= MinLength {
      var run := Run(n - 1 - |w.tentative|, w.tentative, w.mean);
      assert RunOk(sorted, run);
      AppendRun(sorted, w.found, run);
    }
  }

  /** Minimum length: every stored run has at least four members. */
  lemma SegmentRunsLongEnough(sorted: seq<Transaction>)
    requires |sorted| >= 2
    ensures forall r :: r in Segment(sorted).runs ==> |r.members| >= MinLength
  {
    SegmentShape(sorted);
  }

  /** Window containment: each stored run is a slice of the sorted cluster,
      and every interval from one of its members to the next transaction,
      the omitted closing transaction included, lies in
      [max(f - 3, 4), f + 3] for its frequency f. */
  lemma SegmentRunsInWindow(sorted: seq<Transaction>, r: Run)
    requires |sorted| >= 2 && r in Segment(sorted).runs
    ensures r.start + |r.members| < |sorted|
    ensures r.members == sorted[r.start..r.start + |r.members|]
    ensures forall k :: r.start <= k < r.start + |r.members| ==>
              WindowAround(r.frequency).lo <= (sorted[k + 1].date - sorted[k].date) as real
                                           <= WindowAround(r.frequency).hi
  {
    SegmentShape(sorted);
    var i :| 0 <= i < |Segment(sorted).runs| && Segment(sorted).runs[i] == r;
    assert RunOk(sorted, r);
    forall k | r.start <= k < r.start + |r.members|
      ensures WindowAround(r.frequency).lo <= (sorted[k + 1].date - sorted[k].date) as real
                                           <= WindowAround(r.frequency).hi
    {
      assert InWindow(Interval(sorted, k), WindowAround(r.frequency));
    }
  }

  /** Stored runs do not overlap: each closes before the next begins. */
  lemma SegmentRunsDisjoint(sorted: seq<Transaction>)
    requires |sorted| >= 2
    ensures var runs := Segment(sorted).runs;
            forall a, b :: 0 <= a < b < |runs| ==> runs[a].start + |runs[a].members| < runs[b].start
  {
    SegmentShape(sorted);
  }

  /** A cluster of at most four transactions yields no sequence: a run of
      four needs a fifth, closing transaction after it. */
  lemma ShortClusterYieldsNothing(sorted: seq<Transaction>)
    requires 2 <= |sorted| <= MinLength
    ensures Segment(sorted).runs == []
  {
    SegmentShape(sorted);
    var runs := Segment(sorted).runs;
    assert |runs| > 0 ==> RunOk(sorted, runs[0]);
  }

  /** The walk fails only when a run is stored at the cluster's last
      transaction: the interval into the last transaction breaks the
      window and the stored run closes at the next-to-last one, so the
      mean of the one-element remainder is asked for. */
  lemma SegmentFailsOnlyAtTheEnd(sorted: seq<Transaction>)
    requires |sorted| >= 2
    ensures var runs := Segment(sorted).runs;
            !Segment(sorted).completed ==>
              && |runs| > 0
              && runs[|runs| - 1].start + |runs[|runs| - 1].members| == |sorted| - 2
              && !InWindow(sorted[|sorted| - 1].date - sorted[|sorted| - 2].date,
                           WindowAround(runs[|runs| - 1].frequency))
  {
    WalkShape(sorted, |sorted|);
  }

  // ---------------------------------------------------------------------
  // The frequency of each stored run

  /** Where the mean in effect after `runs` were stored was computed from:
      the whole cluster, or the transactions after the last run's closing
      transaction (`cluster_transactions[idx:]`). */
  function Origin(runs: seq<Run>): nat {
    if |runs| == 0 then 0 else runs[|runs| - 1].start + |runs[|runs| - 1].members| + 1
  }

  /** Each run's frequency is the mean interval from where the previous
      run left off. */
  ghost predicate FrequenciesOk(sorted: seq<Transaction>, runs: seq<Run>) {
    forall k :: 0 <= k < |runs| ==> FrequencyOk(sorted, runs, k)
  }

  /** The frequency of run k is the mean from where run k - 1 left off. */
  ghost predicate FrequencyOk(sorted: seq<Transaction>, runs: seq<Run>, k: nat) {
    k < |runs| && Origin(runs[..k]) <= |sorted| && MeanIntervalFrom(sorted, Origin(runs[..k])) == Some(runs[k].frequency)
  }

  /** Appending a run whose frequency is the mean from the current origin. */
  lemma AppendFrequency(sorted: seq<Transaction>, found: seq<Run>, run: Run)
    requires FrequenciesOk(sorted, found)
    requires Origin(found) <= |sorted| && MeanIntervalFrom(sorted, Origin(found)) == Some(run.frequency)
    ensures FrequenciesOk(sorted, found + [run])
  {
    var all := found + [run];
    forall k | 0 <= k < |all|
      ensures FrequencyOk(sorted, all, k)
    {
      if k < |found| {
        assert FrequencyOk(sorted, found, k);
      }
      assert all[..k] == found[..k];
    }
  }

  /** The mean in effect was computed from the current origin. */
  ghost predicate MeanFromOrigin(sorted: seq<Transaction>, w: Walk) {
    w.Walking? ==> Origin(w.found) <= |sorted| && MeanIntervalFrom(sorted, Origin(w.found)) == Some(w.mean)
  }

  /** The stored frequencies and the mean in effect are tied to their
      origins. */
  ghost predicate Tied(sorted: seq<Transaction>, w: Walk) {
    FrequenciesOk(sorted, w.found) && MeanFromOrigin(sorted, w)
  }

  /** One step keeps the frequencies and the mean tied to their origins. */
  lemma StepFrequencies(sorted: seq<Transaction>, j: nat, w: Walk, r: Walk)
    requires 1 <= j < |sorted| && (w.Walking? ==> |w.tentative| < j)
    requires Tied(sorted, w) && r == Step(sorted, j, w)
    ensures Tied(sorted, r)
  {
    if w.Walking? && !InWindow(Interval(sorted, j - 1), WindowAround(w.mean)) && |w.tentative| >= MinLength {
      var run := Run(j - 1 - |w.tentative|, w.tentative, w.mean);
      AppendFrequency(sorted, w.found, run);
      assert Origin(w.found + [run]) == j;
    }
  }

  /** The walk to j is one step from the walk to j - 1. */
  lemma WalkToStep(sorted: seq<Transaction>, j: nat)
    requires 2 <= |sorted| && 2 <= j <= |sorted|
    ensures WalkTo(sorted, j) == Step(sorted, j - 1, WalkTo(sorted, j - 1))
  {
  }

  lemma {:induction false} WalkFrequencies(sorted: seq<Transaction>, j: nat)
    requires 2 <= |sorted| && 1 <= j <= |sorted|
    ensures Tied(sorted, WalkTo(sorted, j))
    decreases j
  {
    if j == 1 {
      WalkStartFrequencies(sorted);
    } else {
      WalkToStep(sorted, j);
      WalkFrequencies(sorted, j - 1);
      StepFrequencies(sorted, j - 1, WalkTo(sorted, j - 1), WalkTo(sorted, j));
    }
  }

  /** Before the first step the mean is the one of the whole cluster. */
  lemma WalkStartFrequencies(sorted: seq<Transaction>)
    requires 2 <= |sorted|
    ensures Tied(sorted, WalkTo(sorted, 1))
  {
    assert sorted[0..] == sorted;
  }

  /** The runs of the segmentation, the flushed one included, keep their
      frequencies tied to their origins. */
  lemma SegmentTied(sorted: seq<Transaction>)
    requires |sorted| >= 2
    ensures FrequenciesOk(sorted, Segment(sorted).runs)
  {
    var n := |sorted|;
    var w := WalkTo(sorted, n);
    WalkFrequencies(sorted, n);
    if w.Walking? && |w.tentative| >= MinLength {
      AppendFrequency(sorted, w.found, Run(n - 1 - |w.tentative|, w.tentative, w.mean));
    }
  }

  /** The first stored run of a cluster has the mean interval of the whole
      cluster as its frequency; each later one the mean interval of the
      transactions after the previous run's closing transaction. */
  lemma SegmentFrequencies(sorted: seq<Transaction>)
    requires |sorted| >= 2
    ensures var runs := Segment(sorted).runs;
            forall k :: 0 <= k < |runs| ==>
              Origin(runs[..k]) <= |sorted| && MeanInterval(sorted[Origin(runs[..k])..]) == Some(runs[k].frequency)
  {
    SegmentTied(sorted);
    var runs := Segment(sorted).runs;
    forall k | 0 <= k < |runs|
      ensures Origin(runs[..k]) <= |sorted| && MeanInterval(sorted[Origin(runs[..k])..]) == Some(runs[k].frequency)
    {
      assert FrequencyOk(sorted, runs, k);
    }
  }

  // ---------------------------------------------------------------------
  // Worked examples

  /** Transactions with the given dates and one shared description. */
  function Dated(dates: seq<int>): (ts: seq<Transaction>)
    ensures |ts| == |dates|
    ensures forall i :: 0 <= i < |ts| ==> ts[i].date == dates[i]
  {
    seq(|dates|, i requires 0 <= i < |dates| => Transaction([(i % 256) as char], dates[i], "rent"))
  }

  /** Five transactions 30 days apart: one sequence of the first four is
      stored, the fifth only closes it (the predecessor is appended, never
      the last transaction itself). */
  lemma FiveMonthly()
    ensures var ts := Dated([0, 30, 60, 90, 120]);
            Segment(ts) == Segmentation([Run(0, ts[..4], 30.0)], true)
  {
    var ts := Dated([0, 30, 60, 90, 120]);
    FiveMonthlyWalk(ts);
    assert ts[..4] == [ts[0], ts[1], ts[2], ts[3]];
  }

  /** Every interval of the example above fits the window. */
  lemma FiveMonthlyWalk(ts: seq<Transaction>)
    requires ts == Dated([0, 30, 60, 90, 120])
    ensures WalkTo(ts, 5) == Walking([], [ts[0], ts[1], ts[2], ts[3]], 30.0)
  {
    assert WalkTo(ts, 1) == Walking([], [], 30.0);
    assert WalkTo(ts, 2) == Walking([], [ts[0]], 30.0);
    assert WalkTo(ts, 3) == Walking([], [ts[0], ts[1]], 30.0);
    assert WalkTo(ts, 4) == Walking([], [ts[0], ts[1], ts[2]], 30.0);
  }

  /** A run of four broken by the interval into the last transaction:
      the run is stored, then the mean of the one remaining transaction is
      asked for and the walk fails. */
  lemma BrokenAtTheLast()
    ensures var ts := Dated([0, 30, 60, 90, 120, 135]);
            Segment(ts) == Segmentation([Run(0, ts[..4], 27.0)], false)
  {
    var ts := Dated([0, 30, 60, 90, 120, 135]);
    FourInWindow(ts);
    assert Interval(ts, 4) == 15;
    assert ts[..4] == [ts[0], ts[1], ts[2], ts[3]];
    assert MeanIntervalFrom(ts, 5) == None;
  }

  /** The first four intervals of the example above fit the window. */
  lemma FourInWindow(ts: seq<Transaction>)
    requires ts == Dated([0, 30, 60, 90, 120, 135])
    ensures WalkTo(ts, 5) == Walking([], [ts[0], ts[1], ts[2], ts[3]], 27.0)
  {
    assert WalkTo(ts, 1) == Walking([], [], 27.0);
    assert WalkTo(ts, 2) == Walking([], [ts[0]], 27.0);
    assert WalkTo(ts, 3) == Walking([], [ts[0], ts[1]], 27.0);
    assert WalkTo(ts, 4) == Walking([], [ts[0], ts[1], ts[2]], 27.0);
  }

  /** A run of three broken by a long interval is dropped, and the run
      that starts after it is too short to be stored: nothing is. */
  lemma ShortRunDropped()
    ensures var ts := Dated([0, 7, 14, 21, 41, 48]);
            Segment(ts) == Segmentation([], true)
  {
    var ts := Dated([0, 7, 14, 21, 41, 48]);
    assert MeanInterval(ts) == Some(9.6);
    assert WalkTo(ts, 1) == Walking([], [], 9.6);
    assert WalkTo(ts, 2) == Walking([], [ts[0]], 9.6);
    assert WalkTo(ts, 3) == Walking([], [ts[0], ts[1]], 9.6);
    assert WalkTo(ts, 4) == Walking([], [ts[0], ts[1], ts[2]], 9.6);
    assert WalkTo(ts, 5) == Walking([], [], 9.6);
    assert WalkTo(ts, 6) == Walking([], [ts[4]], 9.6);
  }

  /** A dropped run leaves the window as it was: the run of five after
      the 30-day gap is measured against the mean of the whole cluster,
      110/9, and stored with it (the mean of what follows the gap would
      have been 10). */
  lemma DroppedRunKeepsWindow()
    ensures var ts := Dated([0, 10, 20, 30, 60, 70, 80, 90, 100, 110]);
            Segment(ts) == Segmentation([Run(4, ts[4..9], 110.0 / 9.0)], true)
  {
    var ts := Dated([0, 10, 20, 30, 60, 70, 80, 90, 100, 110]);
    GapDropsRun(ts);
    RunAfterGap(ts);
    assert ts[4..9] == [ts[4], ts[5], ts[6], ts[7], ts[8]];
  }

  /** The example above up to the gap: three intervals in the window,
      then the 30-day one drops the run of three. */
  lemma GapDropsRun(ts: seq<Transaction>)
    requires ts == Dated([0, 10, 20, 30, 60, 70, 80, 90, 100, 110])
    ensures WalkTo(ts, 5) == Walking([], [], 110.0 / 9.0)
  {
    var mean := 110.0 / 9.0;
    assert MeanInterval(ts) == Some(mean);
    assert WalkTo(ts, 1) == Walking([], [], mean);
    assert WalkTo(ts, 2) == Walking([], [ts[0]], mean);
    assert WalkTo(ts, 3) == Walking([], [ts[0], ts[1]], mean);
    assert WalkTo(ts, 4) == Walking([], [ts[0], ts[1], ts[2]], mean);
  }

  /** The example above after the gap: five intervals in the window of
      the unchanged mean. */
  lemma RunAfterGap(ts: seq<Transaction>)
    requires ts == Dated([0, 10, 20, 30, 60, 70, 80, 90, 100, 110])
    requires WalkTo(ts, 5) == Walking([], [], 110.0 / 9.0)
    ensures WalkTo(ts, 10) == Walking([], [ts[4], ts[5], ts[6], ts[7], ts[8]], 110.0 / 9.0)
  {
    var mean := 110.0 / 9.0;
    assert WalkTo(ts, 6) == Walking([], [ts[4]], mean);
    assert WalkTo(ts, 7) == Walking([], [ts[4], ts[5]], mean);
    assert WalkTo(ts, 8) == Walking([], [ts[4], ts[5], ts[6]], mean);
    assert WalkTo(ts, 9) == Walking([], [ts[4], ts[5], ts[6], ts[7]], mean);
  }

  // ---------------------------------------------------------------------
  // Sorting a cluster by date

  /** `sorted(cluster, key=lambda t: t.date)`: the members of the cluster,
      each once, with dates in ascending order. Ties are broken in an
      unspecified order, as Python's set iteration order is. */
  method SortByDate(cluster: set<Transaction>) returns (sorted: seq<Transaction>)
    ensures |sorted| == |cluster|
    ensures forall t :: t in sorted <==> t in cluster
    ensures forall i, j :: 0 <= i < j < |sorted| ==> sorted[i] != sorted[j]
    ensures DateSorted(sorted)
  {
    sorted := [];
    var rest := cluster;
    while rest != {}
      invariant |sorted| + |rest| == |cluster|
      invariant forall t :: t in cluster <==> t in sorted || t in rest
      invariant forall t :: t in rest ==> t !in sorted
      invariant forall i, j :: 0 <= i < j < |sorted| ==> sorted[i] != sorted[j]
      invariant DateSorted(sorted)
      invariant forall i, t :: 0 <= i < |sorted| && t in rest ==> sorted[i].date <= t.date
      decreases |rest|
    {
      EarliestExists(rest);
      var t :| t in rest && forall u :: u in rest ==> t.date <= u.date;
      sorted := sorted + [t];
      rest := rest - {t};
    }
  }

  /** A nonempty set of transactions has one with the earliest date. */
  lemma {:induction false} EarliestExists(s: set<Transaction>)
    requires s != {}
    ensures exists t :: t in s && forall u :: u in s ==> t.date <= u.date
    decreases |s|
  {
    var x :| x in s;
    if s != {x} {
      EarliestExists(s - {x});
      var y :| y in s - {x} && forall u :: u in s - {x} ==> y.date <= u.date;
      if x.date < y.date {
        assert forall u :: u in s ==> x.date <= u.date;
      } else {
        assert forall u :: u in s ==> y.date <= u.date;
      }
    } else {
      assert forall u :: u in s ==> x.date <= u.date;
    }
  }
}
