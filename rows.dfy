/**
 * The issue frame: one row per issue that has fields, with its status history
 * normalised, then the durations and blocked-days columns added on a copy
 * (data_processing.py, `build_issue_rows_dataframe` and
 * `compute_status_durations_column`).
 */
module DataProcessing {
  import opened Types
  import StatusHistory
  import StatusDurations
  import SprintIds

  /** An issue's fields, already decoded from the tracker's response. */
  datatype RawFields = RawFields(
    created: Option<int>,
    resolutionDate: Option<int>,
    assignee: Option<string>,   // the assignee's display name
    issueType: Option<string>,  // the issue type's name
    storyPoints: Option<real>,
    sprint: Option<SprintIds.SprintField>)

  /** An issue as the tracker returns it; `fields` is None when reading them raised. */
  datatype RawIssue = RawIssue(
    key: Option<string>,
    fields: Option<RawFields>,
    changelog: Option<seq<StatusHistory.ChangeEntry>>)

  /** One row of the issue frame. */
  datatype IssueRow = IssueRow(
    key: Option<string>,
    assignee: Option<string>,
    issueType: Option<string>,
    storyPoints: Option<real>,
    created: Option<int>,
    resolved: Option<int>,
    sprintId: Option<int>,
    statusHistory: History)

  /** A row after the durations and blocked-days columns were added. */
  datatype DurationsRow = DurationsRow(
    issue: IssueRow,
    statusDurations: map<string, int>,
    blockedDays: Option<real>)

  /** The row built for an issue that has fields. */
  function RowOf(issue: RawIssue): IssueRow
    requires issue.fields.Some?
  {
    var f := issue.fields.value;
    IssueRow(issue.key, f.assignee, f.issueType, f.storyPoints, f.created, f.resolutionDate,
             SprintIds.SprintIdOf(f.sprint),
             StatusHistory.SortByTime(StatusHistory.Collected(StatusHistory.Entries(issue.changelog))))
  }

  /** The rows of the issues that have fields, in input order. */
  function Rows(issues: seq<RawIssue>): seq<IssueRow>
  {
    if issues == [] then []
    else
      var last := issues[|issues| - 1];
      Rows(issues[..|issues| - 1]) + (if last.fields.Some? then [RowOf(last)] else [])
  }

  /** `build_issue_rows_dataframe`: one row per issue whose fields could be read;
      an issue without fields is skipped and the batch goes on. */
  method BuildIssueRows(issues: seq<RawIssue>) returns (rows: seq<IssueRow>)
    ensures rows == Rows(issues)
    ensures |rows| <= |issues|
    ensures forall k :: 0 <= k < |rows| ==> StatusHistory.Sorted(rows[k].statusHistory)
  {
    rows := [];
    var i := 0;
    while i < |issues|
      invariant 0 <= i <= |issues|
      invariant rows == Rows(issues[..i])
      invariant |rows| <= i
      invariant forall k :: 0 <= k < |rows| ==> StatusHistory.Sorted(rows[k].statusHistory)
    {
      var issue := issues[i];
      assert issues[..i + 1][..i] == issues[..i];
      if issue.fields.Some? {
        var fields := issue.fields.value;
        var storyPoints := fields.storyPoints;
        var sprintId := SprintIds.ExtractSprintId(fields.sprint);
        var statusHistory := StatusHistory.ExtractStatusHistory(issue.changelog);
        rows := rows + [IssueRow(issue.key, fields.assignee, fields.issueType, storyPoints,
                                 fields.created, fields.resolutionDate, sprintId, statusHistory)];
      }
      i := i + 1;
    }
    assert issues[..i] == issues;
  }

  /** `row` is the row built for `issue`. */
  predicate BuiltFrom(issue: RawIssue, row: IssueRow)
  {
    issue.fields.Some? && row == RowOf(issue)
  }

  /** Every row comes from an issue with fields, and every such issue has a row. */
  lemma RowsMembers(issues: seq<RawIssue>, row: IssueRow)
    ensures row in Rows(issues) <==> exists i :: 0 <= i < |issues| && BuiltFrom(issues[i], row)
  {
    if row in Rows(issues) {
      RowComesFromIssue(issues, row);
    }
    if exists i :: 0 <= i < |issues| && BuiltFrom(issues[i], row) {
      var i :| 0 <= i < |issues| && BuiltFrom(issues[i], row);
      IssueHasRow(issues, i);
    }
  }

  lemma {:induction false} RowComesFromIssue(issues: seq<RawIssue>, row: IssueRow)
    requires row in Rows(issues)
    ensures exists i :: 0 <= i < |issues| && BuiltFrom(issues[i], row)
  {
    var n := |issues| - 1;
    var front, last := issues[..n], issues[n];
    assert Rows(issues) == Rows(front) + (if last.fields.Some? then [RowOf(last)] else []);
    if row in Rows(front) {
      RowComesFromIssue(front, row);
      var i :| 0 <= i < n && BuiltFrom(front[i], row);
      assert issues[i] == front[i];
    } else {
      assert BuiltFrom(issues[n], row);
    }
  }

  lemma {:induction false} IssueHasRow(issues: seq<RawIssue>, i: int)
    requires 0 <= i < |issues| && issues[i].fields.Some?
    ensures RowOf(issues[i]) in Rows(issues)
  {
    var n := |issues| - 1;
    var front, last := issues[..n], issues[n];
    assert Rows(issues) == Rows(front) + (if last.fields.Some? then [RowOf(last)] else []);
    if i < n {
      assert front[i] == issues[i];
      IssueHasRow(front, i);
    }
  }

  /** The new columns for one row. */
  ghost function DurationsRowOf(row: IssueRow): DurationsRow
  {
    var d := StatusDurations.Durations(row.statusHistory);
    DurationsRow(row, d, StatusDurations.BlockedDaysOf(d))
  }

  /** `compute_status_durations_column`: computes every row's buckets, then every
      row's blocked days, on a copy of the frame. A frame built from no issues has
      no columns at all, so looking up "status_history" raises KeyError. */
  method ComputeStatusDurationsColumn(rows: seq<IssueRow>) returns (out: Outcome<seq<DurationsRow>>)
    ensures out.MissingColumn? <==> rows == []
    ensures out.MissingColumn? ==> out.column == "status_history"
    ensures out.Ok? ==> |out.value| == |rows|
    ensures out.Ok? ==> forall k :: 0 <= k < |rows| ==> out.value[k] == DurationsRowOf(rows[k])
  {
    if rows == [] {
      return MissingColumn("status_history");
    }
    var durations: seq<map<string, int>> := [];
    var i := 0;
    while i < |rows|
      invariant 0 <= i <= |rows|
      invariant |durations| == i
      invariant forall k :: 0 <= k < i ==> durations[k] == StatusDurations.Durations(rows[k].statusHistory)
    {
      var d := StatusDurations.TimeInStatus(rows[i].statusHistory);
      durations := durations + [d];
      i := i + 1;
    }
    var frame: seq<DurationsRow> := [];
    i := 0;
    while i < |durations|
      invariant 0 <= i <= |durations|
      invariant |frame| == i
      invariant forall k :: 0 <= k < i ==> frame[k] == DurationsRowOf(rows[k])
    {
      var blocked := StatusDurations.BlockedDays(durations[i]);
      frame := frame + [DurationsRow(rows[i], durations[i], blocked)];
      i := i + 1;
    }
    out := Ok(frame);
  }

  /** On a frame built by `BuildIssueRows` every present blocked-days value is positive. */
  lemma BuiltRowsBlockedPositive(issues: seq<RawIssue>, k: int)
    requires 0 <= k < |Rows(issues)|
    ensures var b := DurationsRowOf(Rows(issues)[k]).blockedDays;
            b.Some? ==> b.value > 0.0
  {
    var row := Rows(issues)[k];
    RowsMembers(issues, row);
    var i :| 0 <= i < |issues| && BuiltFrom(issues[i], row);
    StatusHistory.SortByTimeSorted(StatusHistory.Collected(StatusHistory.Entries(issues[i].changelog)));
    StatusDurations.BlockedDaysPositive(row.statusHistory);
  }
}
