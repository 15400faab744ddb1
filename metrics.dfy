/**
 * Phase extractor and aggregator: first/last entry scans, the reopen detector,
 * the per-issue metrics and the batch statistics (metrics.py).
 */
module Metrics {
  import opened Types
  import opened Statistics
  import StatusHistory
  import StatusDurations
  import DataProcessing

  /** `to in targets`: the transition enters one of the named statuses; a
      transition into no status enters none of them. */
  predicate Enters(x: Transition, targets: set<string>)
  {
    x.2.Some? && x.2.value in targets
  }

  // ---------------------------------------------------------------------------
  // First and last entry

  /** The lowest index from `i` on whose transition enters `targets`. */
  function FirstIndexFrom(h: History, targets: set<string>, i: nat): Option<int>
    decreases |h| - i
  {
    if i >= |h| then None
    else if Enters(h[i], targets) then Some(i)
    else FirstIndexFrom(h, targets, i + 1)
  }

  function FirstIndex(h: History, targets: set<string>): Option<int>
  {
    FirstIndexFrom(h, targets, 0)
  }

  /** The highest index below `k` whose transition enters `targets`. */
  function LastIndexBefore(h: History, targets: set<string>, k: nat): Option<int>
    requires k <= |h|
  {
    if k == 0 then None
    else if Enters(h[k - 1], targets) then Some(k - 1)
    else LastIndexBefore(h, targets, k - 1)
  }

  function LastIndex(h: History, targets: set<string>): Option<int>
  {
    LastIndexBefore(h, targets, |h|)
  }

  /** The time of the first transition into `targets`. */
  function FirstEntry(h: History, targets: set<string>): Option<int>
  {
    var i := FirstIndex(h, targets);
    if i.Some? && 0 <= i.value < |h| then Some(h[i.value].0) else None
  }

  /** The time of the last transition into `targets`. */
  function LastEntry(h: History, targets: set<string>): Option<int>
  {
    var i := LastIndex(h, targets);
    if i.Some? && 0 <= i.value < |h| then Some(h[i.value].0) else None
  }

  /** `_first_time_to_status`: scans from the start and returns at the first match. */
  method FirstTimeToStatus(history: History, targets: set<string>) returns (t: Option<int>)
    ensures t == FirstEntry(history, targets)
  {
    FirstIndexSpec(history, targets);
    for i := 0 to |history|
      invariant FirstIndexFrom(history, targets, i) == FirstIndex(history, targets)
    {
      var (time, _, to) := history[i];
      if to.Some? && to.value in targets {
        return Some(time);
      }
    }
    return None;
  }

  /** `_last_time_to_status`: scans from the end and returns at the first match. */
  method LastTimeToStatus(history: History, targets: set<string>) returns (t: Option<int>)
    ensures t == LastEntry(history, targets)
  {
    LastIndexSpec(history, targets);
    var i := |history|;
    while i > 0
      invariant 0 <= i <= |history|
      invariant LastIndexBefore(history, targets, i) == LastIndex(history, targets)
    {
      var (time, _, to) := history[i - 1];
      if to.Some? && to.value in targets {
        return Some(time);
      }
      i := i - 1;
    }
    return None;
  }

  lemma {:induction false} FirstIndexFromSpec(h: History, targets: set<string>, i: nat)
    ensures FirstIndexFrom(h, targets, i).None? <==>
            forall k :: i <= k < |h| ==> !Enters(h[k], targets)
    ensures FirstIndexFrom(h, targets, i).Some? ==>
            var f := FirstIndexFrom(h, targets, i).value;
            i <= f < |h| && Enters(h[f], targets) && forall k :: i <= k < f ==> !Enters(h[k], targets)
    decreases |h| - i
  {
    if i < |h| && !Enters(h[i], targets) {
      FirstIndexFromSpec(h, targets, i + 1);
    }
  }

  /** The first index is the lowest matching one, and is absent iff nothing matches. */
  lemma FirstIndexSpec(h: History, targets: set<string>)
    ensures FirstIndex(h, targets).None? <==> forall k :: 0 <= k < |h| ==> !Enters(h[k], targets)
    ensures FirstIndex(h, targets).Some? ==>
            var f := FirstIndex(h, targets).value;
            0 <= f < |h| && Enters(h[f], targets) && forall k :: 0 <= k < f ==> !Enters(h[k], targets)
  {
    FirstIndexFromSpec(h, targets, 0);
  }

  lemma {:induction false} LastIndexBeforeSpec(h: History, targets: set<string>, n: nat)
    requires n <= |h|
    ensures LastIndexBefore(h, targets, n).None? <==>
            forall k :: 0 <= k < n ==> !Enters(h[k], targets)
    ensures LastIndexBefore(h, targets, n).Some? ==>
            var l := LastIndexBefore(h, targets, n).value;
            0 <= l < n && Enters(h[l], targets) && forall k :: l < k < n ==> !Enters(h[k], targets)
  {
    if n > 0 && !Enters(h[n - 1], targets) {
      LastIndexBeforeSpec(h, targets, n - 1);
    }
  }

  /** The last index is the highest matching one, and is absent iff nothing matches. */
  lemma LastIndexSpec(h: History, targets: set<string>)
    ensures LastIndex(h, targets).None? <==> forall k :: 0 <= k < |h| ==> !Enters(h[k], targets)
    ensures LastIndex(h, targets).Some? ==>
            var l := LastIndex(h, targets).value;
            0 <= l < |h| && Enters(h[l], targets) && forall k :: l < k < |h| ==> !Enters(h[k], targets)
  {
    LastIndexBeforeSpec(h, targets, |h|);
  }

  /** On a time-sorted history the first entry is the earliest matching time and
      the last entry the latest; both are absent iff nothing matches. */
  lemma EntriesAreExtremes(h: History, targets: set<string>)
    requires StatusHistory.Sorted(h)
    ensures FirstEntry(h, targets).None? <==> forall k :: 0 <= k < |h| ==> !Enters(h[k], targets)
    ensures LastEntry(h, targets).None? <==> FirstEntry(h, targets).None?
    ensures FirstEntry(h, targets).Some? ==>
            forall k :: 0 <= k < |h| && Enters(h[k], targets) ==>
              FirstEntry(h, targets).value <= h[k].0 <= LastEntry(h, targets).value
  {
    FirstIndexSpec(h, targets);
    LastIndexSpec(h, targets);
    if FirstIndex(h, targets).Some? {
      var f, l := FirstIndex(h, targets).value, LastIndex(h, targets).value;
      forall k | 0 <= k < |h| && Enters(h[k], targets)
        ensures h[f].0 <= h[k].0 <= h[l].0
      {
        assert f <= k <= l;
      }
    }
  }

  // ---------------------------------------------------------------------------
  // Reopening

  /** Some transition into a done status is followed, later, by one into a status
      that is not done (or into no status). */
  predicate Reopened(h: History, doneNames: set<string>)
  {
    exists i, j :: 0 <= i < j < |h| && Enters(h[i], doneNames) && !Enters(h[j], doneNames)
  }

  /** `_was_reopened`: a two-state scan; once a done status has been seen, the first
      transition elsewhere answers true. */
  method WasReopened(history: History, doneNames: set<string>) returns (reopened: bool)
    ensures reopened == Reopened(history, doneNames)
  {
    var seenDone := false;
    for i := 0 to |history|
      invariant seenDone <==> exists k :: 0 <= k < i && Enters(history[k], doneNames)
      invariant forall a, b :: 0 <= a < b < i ==> !(Enters(history[a], doneNames) && !Enters(history[b], doneNames))
    {
      var to := history[i].2;
      var toIsDone := to.Some? && to.value in doneNames;
      if toIsDone {
        seenDone := true;
      } else if seenDone && !toIsDone {
        var k :| 0 <= k < i && Enters(history[k], doneNames);
        assert Enters(history[k], doneNames) && !Enters(history[i], doneNames);
        return true;
      }
    }
    return false;
  }

  /** Reopening is decided by the first done transition alone: the history was
      reopened iff it reaches a done status and afterwards enters anything else.
      So it is false when nothing is done, and false when everything after the
      first done transition is done again. */
  lemma ReopenedAfterFirstDone(h: History, doneNames: set<string>)
    ensures Reopened(h, doneNames) <==>
            FirstIndex(h, doneNames).Some? &&
            exists j :: 0 <= j < |h| && FirstIndex(h, doneNames).value < j && !Enters(h[j], doneNames)
  {
    FirstIndexSpec(h, doneNames);
    if Reopened(h, doneNames) {
      var i, j :| 0 <= i < j < |h| && Enters(h[i], doneNames) && !Enters(h[j], doneNames);
      assert FirstIndex(h, doneNames).value <= i;
    }
    if FirstIndex(h, doneNames).Some? &&
       exists j :: 0 <= j < |h| && FirstIndex(h, doneNames).value < j && !Enters(h[j], doneNames) {
      var f := FirstIndex(h, doneNames).value;
      var j :| 0 <= j < |h| && f < j && !Enters(h[j], doneNames);
      assert Enters(h[f], doneNames);
    }
  }

  /** A history that goes To Do, In Progress, Done: done at the last step, not
      reopened, and each of the first two statuses held until the next step. Moving
      back to In Progress afterwards makes it reopened. */
  lemma WorkedHistory(t0: int, t1: int, t2: int, t3: int)
    ensures var h: History := [(t0, None, Some("To Do")), (t1, Some("To Do"), Some("In Progress")),
                               (t2, Some("In Progress"), Some("Done"))];
            && LastEntry(h, {"Done"}) == Some(t2)
            && !Reopened(h, {"Done"})
            && StatusDurations.Durations(h) == map["To Do" := t1 - t0, "In Progress" := t2 - t1]
            && Reopened(h + [(t3, Some("Done"), Some("In Progress"))], {"Done"})
  {
    var h: History := [(t0, None, Some("To Do")), (t1, Some("To Do"), Some("In Progress")),
                       (t2, Some("In Progress"), Some("Done"))];
    var done := {"Done"};
    assert Enters(h[2], done) && !Enters(h[1], done) && !Enters(h[0], done);
    assert LastIndex(h, done) == Some(2);
    var h' := h + [(t3, Some("Done"), Some("In Progress"))];
    assert Enters(h'[2], done) && !Enters(h'[3], done);
    assert StatusDurations.Accrued(h, 1) == map["To Do" := t1 - t0];
  }

  // ---------------------------------------------------------------------------
  // Per-issue metrics

  /** The columns `compute_all_metrics` adds to one row. */
  datatype IssueMetrics = IssueMetrics(
    inProgressTime: Option<int>,
    doneTime: Option<int>,
    cycleTimeDays: Option<real>,
    leadTimeDays: Option<real>,
    reopened: bool)

  /** The done-time policy: the resolution date when there is one, otherwise the
      last transition into a done status. */
  function DoneTime(issue: DataProcessing.IssueRow, doneNames: set<string>): Option<int>
  {
    if issue.resolved.Some? then issue.resolved else LastEntry(issue.statusHistory, doneNames)
  }

  /** `(end - start).total_seconds() / 86400.0`, missing when either end is missing. */
  function ElapsedDays(start: Option<int>, end: Option<int>): Option<real>
  {
    if start.Some? && end.Some? then Some(ToDays(end.value - start.value)) else None
  }

  function IssueMetricsOf(issue: DataProcessing.IssueRow, inProgressNames: set<string>,
                          doneNames: set<string>): IssueMetrics
  {
    var inProgress := FirstEntry(issue.statusHistory, inProgressNames);
    var done := DoneTime(issue, doneNames);
    IssueMetrics(inProgress, done, ElapsedDays(inProgress, done),
                 ElapsedDays(issue.created, issue.resolved),
                 Reopened(issue.statusHistory, doneNames))
  }

  /** The resolution date wins whenever present; without it the issue is done at its
      last transition into a done status, and not done at all if there is none. */
  lemma DoneTimePolicy(issue: DataProcessing.IssueRow, doneNames: set<string>)
    ensures issue.resolved.Some? ==> DoneTime(issue, doneNames) == issue.resolved
    ensures issue.resolved.None? ==>
              (DoneTime(issue, doneNames).None? <==>
               forall k :: 0 <= k < |issue.statusHistory| ==> !Enters(issue.statusHistory[k], doneNames))
    ensures issue.resolved.None? && DoneTime(issue, doneNames).Some? ==>
              exists l :: 0 <= l < |issue.statusHistory|
                && Enters(issue.statusHistory[l], doneNames)
                && DoneTime(issue, doneNames).value == issue.statusHistory[l].0
                && forall k :: l < k < |issue.statusHistory| ==> !Enters(issue.statusHistory[k], doneNames)
  {
    LastIndexSpec(issue.statusHistory, doneNames);
  }

  /** The cycle time is present exactly when both ends are, and is their distance
      in days; the lead time likewise from creation to resolution. */
  lemma CycleAndLeadTime(issue: DataProcessing.IssueRow, inProgressNames: set<string>, doneNames: set<string>)
    ensures var m := IssueMetricsOf(issue, inProgressNames, doneNames);
            && (m.cycleTimeDays.Some? <==> m.inProgressTime.Some? && m.doneTime.Some?)
            && (m.cycleTimeDays.Some? ==>
                  m.cycleTimeDays.value * 86400.0 == (m.doneTime.value - m.inProgressTime.value) as real)
            && (m.leadTimeDays.Some? <==> issue.created.Some? && issue.resolved.Some?)
            && (m.leadTimeDays.Some? ==>
                  m.leadTimeDays.value * 86400.0 == (issue.resolved.value - issue.created.value) as real)
  {
  }

  /** The cycle time is not clamped: a resolution date before the first in-progress
      transition gives a negative cycle time. */
  lemma CycleTimeMayBeNegative()
    ensures var issue := DataProcessing.IssueRow(None, None, None, None, None, Some(0), None,
                                                 [(86400, Some("To Do"), Some("In Progress"))]);
            IssueMetricsOf(issue, {"In Progress"}, {"Done"}).cycleTimeDays == Some(-1.0)
  {
    var h: History := [(86400, Some("To Do"), Some("In Progress"))];
    assert Enters(h[0], {"In Progress"});
    assert FirstIndex(h, {"In Progress"}) == Some(0);
  }

  // ---------------------------------------------------------------------------
  // The batch

  /** A row of the metrics frame: the input row and the columns added to it. */
  datatype MetricsRow = MetricsRow(row: DataProcessing.DurationsRow, metrics: IssueMetrics)

  /** `MetricsResult`; the per-sprint series are maps from sprint id, listed in
      ascending id order wherever they are shown. */
  datatype MetricsResult = MetricsResult(
    frame: seq<MetricsRow>,
    throughput: map<int, int>,
    velocity: map<int, real>,
    reopenRatePct: real,
    avgCycleTimeDays: Option<real>,
    avgLeadTimeDays: Option<real>,
    cycleTimeStdDays: Option<real>,
    blockedAvgDays: Option<real>)

  predicate IsCompleted(r: MetricsRow)
  {
    r.metrics.doneTime.Some?
  }

  /** Completed, and attributed to sprint `s`. */
  predicate InSprint(r: MetricsRow, s: int)
  {
    IsCompleted(r) && r.row.issue.sprintId == Some(s)
  }

  function CompletedCount(f: seq<MetricsRow>): nat
  {
    if f == [] then 0 else CompletedCount(f[..|f| - 1]) + (if IsCompleted(f[|f| - 1]) then 1 else 0)
  }

  function ReopenedCompletedCount(f: seq<MetricsRow>): nat
  {
    if f == [] then 0
    else
      var r := f[|f| - 1];
      ReopenedCompletedCount(f[..|f| - 1]) + (if IsCompleted(r) && r.metrics.reopened then 1 else 0)
  }

  /** Percentage of completed issues that were reopened; 0.0 when none is completed. */
  function ReopenRate(f: seq<MetricsRow>): real
  {
    var completed := CompletedCount(f);
    if completed > 0 then (ReopenedCompletedCount(f) as real) / (completed as real) * 100.0 else 0.0
  }

  function CompletedWithSprint(f: seq<MetricsRow>): nat
  {
    if f == [] then 0
    else
      var r := f[|f| - 1];
      CompletedWithSprint(f[..|f| - 1]) + (if IsCompleted(r) && r.row.issue.sprintId.Some? then 1 else 0)
  }

  /** The sprint ids of the completed issues that have one. */
  function Sprints(f: seq<MetricsRow>): set<int>
  {
    if f == [] then {}
    else
      var r := f[|f| - 1];
      Sprints(f[..|f| - 1]) + (if IsCompleted(r) && r.row.issue.sprintId.Some? then {r.row.issue.sprintId.value} else {})
  }

  function GroupSize(f: seq<MetricsRow>, s: int): int
  {
    if f == [] then 0 else GroupSize(f[..|f| - 1], s) + (if InSprint(f[|f| - 1], s) then 1 else 0)
  }

  /** `groupby("sprint_id")["story_points"].sum(min_count=1).fillna(0.0)` for one group:
      the present estimates summed, 0.0 when none is present. */
  function GroupPoints(f: seq<MetricsRow>, s: int): real
  {
    if f == [] then 0.0
    else
      var r := f[|f| - 1];
      GroupPoints(f[..|f| - 1], s)
        + (if InSprint(r, s) && r.row.issue.storyPoints.Some? then r.row.issue.storyPoints.value else 0.0)
  }

  function Throughput(f: seq<MetricsRow>): map<int, int>
  {
    map s | s in Sprints(f) :: GroupSize(f, s)
  }

  function Velocity(f: seq<MetricsRow>): map<int, real>
  {
    map s | s in Sprints(f) :: GroupPoints(f, s)
  }

  function CycleColumn(f: seq<MetricsRow>): (c: seq<Option<real>>)
    ensures |c| == |f| && forall k :: 0 <= k < |f| ==> c[k] == f[k].metrics.cycleTimeDays
  {
    seq(|f|, k requires 0 <= k < |f| => f[k].metrics.cycleTimeDays)
  }

  function LeadColumn(f: seq<MetricsRow>): (c: seq<Option<real>>)
    ensures |c| == |f| && forall k :: 0 <= k < |f| ==> c[k] == f[k].metrics.leadTimeDays
  {
    seq(|f|, k requires 0 <= k < |f| => f[k].metrics.leadTimeDays)
  }

  function BlockedColumn(f: seq<MetricsRow>): (c: seq<Option<real>>)
    ensures |c| == |f| && forall k :: 0 <= k < |f| ==> c[k] == f[k].row.blockedDays
  {
    seq(|f|, k requires 0 <= k < |f| => f[k].row.blockedDays)
  }

  /** The frame with the per-issue columns added, row by row. */
  function MetricsFrame(rows: seq<DataProcessing.DurationsRow>, inProgressNames: set<string>,
                        doneNames: set<string>): (f: seq<MetricsRow>)
    ensures |f| == |rows|
    ensures forall k :: 0 <= k < |rows| ==>
              f[k] == MetricsRow(rows[k], IssueMetricsOf(rows[k].issue, inProgressNames, doneNames))
  {
    seq(|rows|, k requires 0 <= k < |rows| =>
          MetricsRow(rows[k], IssueMetricsOf(rows[k].issue, inProgressNames, doneNames)))
  }

  /** `float(col.dropna().mean())` guarded by `len(...)`: absent iff every value is. */
  function ColumnMean(column: seq<Option<real>>): (m: Option<real>)
    ensures m.None? <==> forall k :: 0 <= k < |column| ==> column[k].None?
  {
    DefinedEmpty(column);
    MeanOf(Defined(column))
  }

  /** `float(col.dropna().std(ddof=1))` when more than one value is present. */
  function ColumnStd(column: seq<Option<real>>, sqrt: real -> real): (sd: Option<real>)
    ensures sd.Some? <==> TwoDefined(column)
  {
    DefinedAtMostOne(column);
    var xs := Defined(column);
    if |xs| > 1 then Some(sqrt(SampleVariance(xs))) else None
  }

  /** The aggregation half of `compute_all_metrics`, over the frame that already
      carries the per-issue columns. `sqrt` is the square root the standard
      deviation takes. */
  function Aggregate(frame: seq<MetricsRow>, sqrt: real -> real): (r: MetricsResult)
    ensures r.frame == frame
    ensures r.throughput.Keys == r.velocity.Keys
    ensures 0.0 <= r.reopenRatePct <= 100.0
    ensures r.avgCycleTimeDays.None? <==> forall k :: 0 <= k < |frame| ==> frame[k].metrics.cycleTimeDays.None?
    ensures r.avgLeadTimeDays.None? <==> forall k :: 0 <= k < |frame| ==> frame[k].metrics.leadTimeDays.None?
    ensures r.cycleTimeStdDays.Some? <==> TwoDefined(CycleColumn(frame))
    ensures r.blockedAvgDays.None? <==> forall k :: 0 <= k < |frame| ==> frame[k].row.blockedDays.None?
  {
    ReopenRateBounds(frame);
    MetricsResult(
      frame,
      Throughput(frame),
      Velocity(frame),
      ReopenRate(frame),
      ColumnMean(CycleColumn(frame)),
      ColumnMean(LeadColumn(frame)),
      ColumnStd(CycleColumn(frame), sqrt),
      ColumnMean(BlockedColumn(frame)))
  }

  /** `compute_all_metrics`: adds the per-issue columns to a copy of the frame and
      aggregates them. */
  function ComputeAllMetrics(rows: seq<DataProcessing.DurationsRow>, inProgressNames: set<string>,
                             doneNames: set<string>, sqrt: real -> real): (r: MetricsResult)
    ensures |r.frame| == |rows|
    ensures forall k :: 0 <= k < |rows| ==>
              r.frame[k] == MetricsRow(rows[k], IssueMetricsOf(rows[k].issue, inProgressNames, doneNames))
    ensures r.throughput.Keys == r.velocity.Keys
    ensures 0.0 <= r.reopenRatePct <= 100.0
    ensures r.blockedAvgDays.None? <==> forall k :: 0 <= k < |rows| ==> rows[k].blockedDays.None?
  {
    Aggregate(MetricsFrame(rows, inProgressNames, doneNames), sqrt)
  }

  // ---------------------------------------------------------------------------
  // Properties of the aggregates

  lemma {:induction false} ReopenedAtMostCompleted(f: seq<MetricsRow>)
    ensures ReopenedCompletedCount(f) <= CompletedCount(f)
  {
    if f != [] {
      ReopenedAtMostCompleted(f[..|f| - 1]);
    }
  }

  /** The reopen rate is a percentage: 0.0 with no completed issue, otherwise the
      reopened share of the completed issues times 100, hence between 0 and 100. */
  lemma ReopenRateBounds(f: seq<MetricsRow>)
    ensures CompletedCount(f) == 0 ==> ReopenRate(f) == 0.0
    ensures CompletedCount(f) > 0 ==>
              ReopenRate(f) * (CompletedCount(f) as real) == 100.0 * (ReopenedCompletedCount(f) as real)
    ensures 0.0 <= ReopenRate(f) <= 100.0
  {
    ReopenedAtMostCompleted(f);
    if CompletedCount(f) > 0 {
      Percentage(ReopenedCompletedCount(f), CompletedCount(f));
    }
  }

  /** `part / whole * 100.0` for counts with part <= whole. */
  lemma Percentage(part: nat, whole: nat)
    requires 0 < whole && part <= whole
    ensures var p := (part as real) / (whole as real) * 100.0;
            0.0 <= p <= 100.0 && p * (whole as real) == 100.0 * (part as real)
  {
    var q := (part as real) / (whole as real);
    assert q * (whole as real) == part as real;
    assert q <= 1.0 by {
      if q > 1.0 {
        assert q * (whole as real) > 1.0 * (whole as real);
      }
    }
  }

  lemma {:induction false} SprintsMembers(f: seq<MetricsRow>, s: int)
    ensures s in Sprints(f) <==> GroupSize(f, s) > 0
    ensures GroupSize(f, s) >= 0
  {
    if f != [] {
      SprintsMembers(f[..|f| - 1], s);
    }
  }

  lemma {:induction false} ThroughputStep(f: seq<MetricsRow>)
    requires f != []
    ensures var r, front := f[|f| - 1], f[..|f| - 1];
            Throughput(f) ==
              if IsCompleted(r) && r.row.issue.sprintId.Some?
              then Throughput(front)[r.row.issue.sprintId.value :=
                     Get(Throughput(front), r.row.issue.sprintId.value, 0) + 1]
              else Throughput(front)
  {
    var r, front := f[|f| - 1], f[..|f| - 1];
    if IsCompleted(r) && r.row.issue.sprintId.Some? {
      var s := r.row.issue.sprintId.value;
      SprintsMembers(front, s);
    }
  }

  /** Throughput counts every completed issue that has a sprint exactly once: the
      counts are positive and add up to the number of such issues. */
  lemma {:induction false} ThroughputSum(f: seq<MetricsRow>)
    ensures forall s :: s in Throughput(f) ==> Throughput(f)[s] >= 1
    ensures MapSum(Throughput(f)) == CompletedWithSprint(f)
  {
    forall s | s in Throughput(f) ensures Throughput(f)[s] >= 1 {
      SprintsMembers(f, s);
    }
    if f == [] {
      assert Throughput(f) == map[];
    } else {
      var r, front := f[|f| - 1], f[..|f| - 1];
      ThroughputSum(front);
      ThroughputStep(f);
      if IsCompleted(r) && r.row.issue.sprintId.Some? {
        var s := r.row.issue.sprintId.value;
        MapSumUpdate(Throughput(front), s, Get(Throughput(front), s, 0) + 1);
      }
    }
  }

  /** The sprints in the throughput and velocity series are exactly the sprints of
      the completed issues that have one. */
  lemma {:induction false} SprintKeys(f: seq<MetricsRow>, s: int)
    ensures s in Throughput(f) <==> exists k :: 0 <= k < |f| && InSprint(f[k], s)
    ensures s in Velocity(f) <==> s in Throughput(f)
  {
    if f != [] {
      var n := |f| - 1;
      SprintKeys(f[..n], s);
      if exists k :: 0 <= k < |f| && InSprint(f[k], s) {
        var k :| 0 <= k < |f| && InSprint(f[k], s);
        if k < n {
          assert InSprint(f[..n][k], s);
        }
      }
      if s in Throughput(f[..n]) {
        var k :| 0 <= k < n && InSprint(f[..n][k], s);
        assert InSprint(f[k], s);
      }
    }
  }

  lemma {:induction false} GroupPointsWithoutEstimates(f: seq<MetricsRow>, s: int)
    requires forall k :: 0 <= k < |f| && InSprint(f[k], s) ==> f[k].row.issue.storyPoints.None?
    ensures GroupPoints(f, s) == 0.0
  {
    if f != [] {
      var n := |f| - 1;
      assert forall k :: 0 <= k < n ==> f[..n][k] == f[k];
      GroupPointsWithoutEstimates(f[..n], s);
    }
  }

  /** A sprint whose completed issues carry no estimate still has a velocity entry,
      and it is 0.0. */
  lemma VelocityWithoutEstimates(f: seq<MetricsRow>, s: int)
    requires exists k :: 0 <= k < |f| && InSprint(f[k], s)
    requires forall k :: 0 <= k < |f| && InSprint(f[k], s) ==> f[k].row.issue.storyPoints.None?
    ensures s in Velocity(f) && Velocity(f)[s] == 0.0
  {
    SprintKeys(f, s);
    GroupPointsWithoutEstimates(f, s);
  }

  /** Three completed issues of one sprint estimated 3, missing and 5 give that
      sprint velocity 8.0 and throughput 3. */
  lemma VelocityExample(a: MetricsRow, b: MetricsRow, c: MetricsRow, s: int)
    requires InSprint(a, s) && InSprint(b, s) && InSprint(c, s)
    requires a.row.issue.storyPoints == Some(3.0)
    requires b.row.issue.storyPoints.None?
    requires c.row.issue.storyPoints == Some(5.0)
    ensures Velocity([a, b, c]) == map[s := 8.0]
    ensures Throughput([a, b, c]) == map[s := 3]
  {
    var f := [a, b, c];
    assert [a][..0] == [];
    assert Sprints([a]) == {s} && GroupSize([a], s) == 1 && GroupPoints([a], s) == 3.0;
    assert [a, b][..1] == [a];
    assert Sprints([a, b]) == {s} && GroupSize([a, b], s) == 2 && GroupPoints([a, b], s) == 3.0;
    assert f[..2] == [a, b];
    assert Sprints(f) == {s} && GroupSize(f, s) == 3 && GroupPoints(f, s) == 8.0;
  }
}
