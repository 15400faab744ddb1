# jira-metrics: status-history and metrics engine in Dafny

This project models the engine of jira-metrics, the part that turns issue
records into sprint metrics and a summary text:

- **Status history.** Each issue's status transitions are gathered from its
  changelog and ordered by time with a stable sort (`StatusHistory`).
- **Time in status.** Each closed interval between two transitions is added to
  the bucket of the status the issue was in (`StatusDurations`). That module also
  sums the buckets of statuses whose name contains "blocked" into blocked days.
- **Sprint id.** The sprint id is the largest id the sprint field mentions. An id
  comes from a record's `id` or from an `id=<digits>` pattern in a string
  (`SprintIds`).
- **Issue frame.** The issue frame gets one row per issue whose fields could be
  read. The durations and blocked-days columns are then added to it
  (`DataProcessing`).
- **Per-issue metrics** (`Metrics`):
  - first entry into an in-progress status and last entry into a done status;
  - the done time (the resolution date first, else the last done entry);
  - cycle time and lead time in days;
  - whether the issue was reopened.
- **Batch metrics** (`Metrics`):
  - reopen rate;
  - throughput and velocity per sprint;
  - averages and the sample standard deviation (`Statistics`).
- **Summary text.** The fixed header, the metric lines in a fixed order, and at
  most three pieces of advice from four threshold rules (`Report`).

Shared definitions are in `Types`: `Option`, `Outcome`, transitions, seconds to
days, and map sums. Decimal digits are in `Digits`.

Conventions:

- Instants are integer seconds.
- Durations in days are exact reals, `seconds / 86400`.
- Optional values are `Option`.
- A per-sprint series is a `map` from sprint id. The grouping sorts its keys, so
  the report lists a series in ascending sprint order (`Report.Ascending`).

The repository has two copies of each core file. `src/data_processing.py` and
`data_processing.py` are identical, and so are `src/metrics.py` and `metrics.py`.
`report.py` differs from `src/report.py` only in how sprint ids and values are
turned into text. `src/report.py:28-32` and `src/report.py:39-43` add fallbacks
for values that `int()` or `float()` reject. The top-level `report.py:28` and
`report.py:32` call `int()` and `float()` directly. Sprint ids, counts and
points are numbers here, so the fallbacks never apply, and one model covers both
copies. The table cites the `src/` copies. The same members model
`report.py:6-61`.

Behaviour worth knowing:

- **Empty batch.** A frame built from no issues has no columns. Reading
  "status_history" from it raises `KeyError`
  (`src/data_processing.py:153`, `src/data_processing.py:174`); an empty batch
  does not give zero counts. `DataProcessing.ComputeStatusDurationsColumn`
  returns `MissingColumn` for it.
- **Blocked days.** Blocked days are `None` whenever the blocked total is zero,
  even when a blocked bucket exists (`src/data_processing.py:184`).
  `StatusDurations.ZeroBlockedBucketGivesNone` shows such a history.
- **Cycle time.** Cycle time is not clamped and can be negative: it is negative
  when the resolution date comes before the first in-progress transition
  (`src/metrics.py:63-76`). `Metrics.CycleTimeMayBeNegative` shows one.
- **Reopen flags.** The reopen flags are a series aligned with the frame rather
  than a frame column (`src/metrics.py:85`). The model keeps each flag beside its
  row.

## Model

| member | source | states |
|---|---|---|
| Types.ToDays | src/data_processing.py:184 | days times 86400 gives back the seconds; the sign and zero-ness are kept |
| Types.MapSumUpdate | src/data_processing.py:169 | adding to one bucket changes the total of all buckets by the change of that bucket alone |
| Types.MapSumRemove | src/data_processing.py:181-183 | the total of the buckets is one bucket plus the total of the others, whichever bucket is taken first |
| Types.MapSumNonNegative | src/data_processing.py:180-183 | buckets that are all non-negative have a non-negative total |
| Digits.NatToString | src/report.py:28-30 | `str(int(n))` of a natural: non-empty, only digits, no leading zero |
| Digits.IntToString | src/report.py:28-30 | `str(int(v))`: non-empty, and it starts with "-" exactly for negatives |
| Digits.ReadWritten | src/data_processing.py:68 | reading back the decimal digits written for n gives n |
| StatusHistory.ExtractStatusHistory | src/data_processing.py:84-108 | the collected status transitions of entries with a known time, stably sorted by time: sorted, a permutation of the collected ones, each instant's transitions in changelog order |
| StatusHistory.CollectedMembers | src/data_processing.py:89-102 | a transition is collected iff some entry with a known time has a status item that yields it |
| StatusHistory.ItemTransitionsMembers | src/data_processing.py:93-102 | an entry contributes exactly its items whose field is "status", with that entry's time and the item's from/to names |
| StatusHistory.UnknownTimeDropped | src/data_processing.py:90-92 | an entry whose time cannot be read contributes nothing |
| StatusHistory.CollectedAppend | src/data_processing.py:89 | the transitions of a changelog are those of its first entries followed by those of the last |
| StatusHistory.InsertByTimeSorted | src/data_processing.py:107 | inserting into a sorted history keeps it sorted |
| StatusHistory.InsertByTimePermutes | src/data_processing.py:107 | inserting adds exactly the one transition |
| StatusHistory.InsertByTimeStable | src/data_processing.py:107 | inserting puts the new transition after every earlier one with the same time |
| StatusHistory.SortByTimeSorted | src/data_processing.py:107 | the sorted history is ordered by time |
| StatusHistory.SortByTimePermutes | src/data_processing.py:107 | the sorted history is a permutation of its input |
| StatusHistory.SortByTimeStable | src/data_processing.py:107 | transitions with equal times keep their input order |
| StatusHistory.SortedStableUnique | src/data_processing.py:107 | two histories that are sorted and agree on each instant's transitions in order are equal |
| StatusHistory.StableSortIsUnique | src/data_processing.py:107 | any sorted, order-keeping rearrangement of the collected transitions is the one the model builds, so the sort's result is determined |
| StatusDurations.TimeInStatus | src/data_processing.py:157-170 | the loop's buckets are those of every closed interval, each credited to the status entered at its start |
| StatusDurations.TimeInStatusKeys | src/data_processing.py:161-169 | the buckets are exactly the statuses entered by every transition but the last; fewer than two transitions give no buckets |
| StatusDurations.TimeInStatusPerStatus | src/data_processing.py:163-169 | each bucket holds the summed length of the intervals that start by entering that status |
| StatusDurations.TimeInStatusTotal | src/data_processing.py:163-169 | the buckets plus the intervals started by a transition into no status cover the span from first to last transition exactly |
| StatusDurations.TimeInStatusSpan | src/data_processing.py:163-169 | when every transition enters a status, the buckets sum to the span |
| StatusDurations.TimeInStatusNonNegative | src/data_processing.py:168 | on a time-sorted history no bucket is negative |
| StatusDurations.BlockedDays | src/data_processing.py:179-184 | sums the buckets whose name contains "blocked" in any case, in any visiting order; None iff that sum is zero, else the sum in days |
| StatusDurations.BlockedSecondsUpdate | src/data_processing.py:180-183 | setting one bucket moves the blocked total by that bucket's change exactly when its status is blocked |
| StatusDurations.BlockedSecondsByInterval | src/data_processing.py:179-184 | the blocked total equals the summed length of the intervals that start by entering a blocked status |
| StatusDurations.BlockedDaysPositive | src/data_processing.py:184 | on a time-sorted history, blocked days, when present, are positive |
| StatusDurations.ZeroBlockedBucketGivesNone | src/data_processing.py:184 | a blocked bucket holding zero seconds still yields None |
| SprintIds.DigitRun | src/data_processing.py:66 | `\d+` takes the longest run of digits at the start |
| SprintIds.Largest | src/data_processing.py:81 | `sorted(ids)[-1]` is an element no smaller than any other |
| SprintIds.ExtractSprintId | src/data_processing.py:44-81 | the largest id the field's values contribute; None exactly when none contributes one |
| SprintIds.FindIdSpec | src/data_processing.py:66-68 | the search finds the leftmost "id=" followed by a digit and reads that digit run; None iff there is none |
| SprintIds.TextIdSpec | src/data_processing.py:65-68 | a string value contributes nothing iff it has no "id=" followed by a digit, else the first such number |
| SprintIds.TextIdRoundTrip | src/data_processing.py:66-68 | a string holding "id=" and the digits of n, then a non-digit, contributes n |
| SprintIds.IdsOfMembers | src/data_processing.py:72-76 | an id is gathered iff some value of the field contributes it |
| SprintIds.SprintIdIsLargest | src/data_processing.py:72-81 | the chosen id is contributed by some value and is at least every contributed id; None iff no value contributes one |
| DataProcessing.BuildIssueRows | src/data_processing.py:111-154 | one row per issue whose fields could be read, in input order, each with its sprint id and time-sorted status history |
| DataProcessing.RowsMembers | src/data_processing.py:113-151 | a row is in the frame iff it was built from some issue that has fields |
| DataProcessing.ComputeStatusDurationsColumn | src/data_processing.py:173-186 | KeyError on the column-less frame of an empty batch; otherwise every row gains its buckets and blocked days, rows kept in order |
| DataProcessing.BuiltRowsBlockedPositive | src/data_processing.py:184 | on rows built from issues, blocked days, when present, are positive |
| Statistics.DefinedEmpty | src/metrics.py:120 | dropping missing values leaves nothing iff every value is missing |
| Statistics.DefinedAtMostOne | src/metrics.py:122 | at most one value is left iff no two positions hold values |
| Statistics.MeanBounds | src/metrics.py:120-121 | the mean lies between any bounds of the values |
| Statistics.SampleVarianceNonNegative | src/metrics.py:122 | the sample variance is never negative |
| Metrics.FirstTimeToStatus | src/metrics.py:19-25 | the time of the earliest-positioned transition into a target status, or None |
| Metrics.LastTimeToStatus | src/metrics.py:28-34 | the time of the latest-positioned transition into a target status, or None |
| Metrics.FirstIndexSpec | src/metrics.py:22-25 | the first match is the lowest matching position; None iff nothing matches |
| Metrics.LastIndexSpec | src/metrics.py:31-34 | the last match is the highest matching position; None iff nothing matches |
| Metrics.EntriesAreExtremes | src/metrics.py:19-34 | on a sorted history the first entry is the earliest and the last entry the latest matching time; both absent together |
| Metrics.WasReopened | src/metrics.py:37-47 | true iff some transition into a done status is later followed by one into anything else |
| Metrics.ReopenedAfterFirstDone | src/metrics.py:41-47 | reopened iff a done status is reached and something not done follows the first such transition; false without any done transition |
| Metrics.WorkedHistory | src/metrics.py:37-47 | To Do, In Progress, Done: done at the last step, not reopened, two buckets; going back to In Progress makes it reopened |
| Metrics.DoneTimePolicy | src/metrics.py:63-68 | the resolution date wins when present; otherwise the last done transition, and none without a done transition |
| Metrics.CycleAndLeadTime | src/metrics.py:73-82 | cycle time present iff both ends are, and equal to their distance in days; lead time likewise from creation to resolution |
| Metrics.CycleTimeMayBeNegative | src/metrics.py:74-76 | a resolution before the first in-progress transition gives a negative cycle time |
| Metrics.MetricsFrame | src/metrics.py:56-85 | the frame keeps every input row in order and adds its per-issue metrics |
| Metrics.ColumnMean | src/metrics.py:120-127 | the mean of the present values, absent iff every value is missing |
| Metrics.ColumnStd | src/metrics.py:122 | the standard deviation is present iff at least two values are |
| Metrics.Aggregate | src/metrics.py:84-138 | throughput and velocity over the same sprints; reopen rate a percentage; each average absent iff its column has no value; deviation present iff two cycle times are |
| Metrics.ComputeAllMetrics | src/metrics.py:50-138 | input rows kept in order, each beside its own per-issue metrics; throughput and velocity over the same sprints; reopen rate a percentage; blocked average absent iff no row has blocked days |
| Metrics.ReopenRateBounds | src/metrics.py:84-91 | 0.0 with nothing completed; otherwise rate times completed equals 100 times reopened-and-completed; between 0 and 100 |
| Metrics.Percentage | src/metrics.py:89-91 | a count no larger than the whole, divided by it and scaled by 100, lies between 0 and 100 and times the whole gives 100 times the count |
| Metrics.ThroughputSum | src/metrics.py:94-102 | each sprint's count is at least one and the counts add up to the completed issues that have a sprint |
| Metrics.SprintKeys | src/metrics.py:94-107 | a sprint has a throughput and a velocity entry iff some completed issue belongs to it |
| Metrics.VelocityWithoutEstimates | src/metrics.py:104-107 | a sprint whose completed issues have no estimate gets velocity 0.0, not no entry |
| Metrics.VelocityExample | src/metrics.py:102-107 | estimates 3, missing and 5 in one sprint give velocity 8.0 and throughput 3 |
| Report.FmtDays | src/report.py:6-12 | "n/a" exactly for a missing value; else one decimal and "d" |
| Report.Ascending | src/metrics.py:102 | the sprint ids in increasing order, each exactly once |
| Report.IncreasingUnique | src/metrics.py:102 | an increasing listing of a set of ids is unique |
| Report.AscendingKeys | src/report.py:35 | lists a series' sprint ids in increasing order |
| Report.ThroughputLineOf | src/report.py:26-35 | the throughput line, sprints in increasing order, exactly when the series has entries |
| Report.VelocityLineOf | src/report.py:36-47 | the velocity line, sprints in increasing order, exactly when the series has entries |
| Report.AppendMetricLines | src/report.py:16-47 | the header, the averages, the blocked line if any, the reopen line, and the throughput and velocity lines if non-empty |
| Report.CollectRecommendations | src/report.py:50-70 | the advice of every firing rule, in the rules' fixed order |
| Report.GenerateSummaryMarkdown | src/report.py:15-77 | the metric lines, then the heading and at most three pieces of advice if some rule fires, joined by line breaks; the text starts with the header |
| Report.JoinStartsWithFirst | src/report.py:77 | the joined text starts with its first line |
| Report.FiredRules | src/report.py:51-70 | each piece of advice is listed iff its own rule fires; none listed iff no rule fires |
| Report.FalsyInputsSuppressRules | src/report.py:51-70 | a missing or zero average, blocked average or deviation switches its rule off |
| Report.RecommendationsCapped | src/report.py:72-75 | at most three pieces of advice are shown, the first three that fire; all four firing shows the first three |
| Report.LayoutMarkers | src/report.py:16-47 | lines that each start with "*" or "-" still all do once put in the fixed order |
| Report.MetricLinesHeads | src/report.py:17-47 | every metric line starts with "*" or "-" |
| Report.RecommendationLinesShape | src/report.py:72-75 | the heading appears iff some advice fires, followed by the shown advice as bullets |
| Report.LayoutPositions | src/report.py:16-47 | header, averages, the blocked line exactly when present, the reopen line always, then the throughput and velocity lines exactly when present: the position of each, whichever optional lines are missing (`MetricLines` fills this order with the blocked line iff a blocked average exists and a series line iff that series is non-empty) |
| Report.SummaryLayout | src/report.py:15-77 | the summary is the metric lines followed by the recommendation lines, starting with the header |
| Report.RecommendationsHeadingIffFired | src/report.py:72-73 | the recommendations heading is among the lines iff some rule fires |

## Left out

- Fetching issues, the UI, charts, publishing and text generation are not modelled. Issues arrive already decoded.
- Parsing timestamps is not modelled. Instants are integer seconds, and an unreadable one is `None`. Time zones are not modelled.
- Reading the custom field ids from the environment is not modelled.
- Duck-typed attribute access is not modelled. An issue whose `fields` cannot be read has `fields == None`. Reading other attributes never raises.
- A changelog that cannot be read yields no transitions. A failure part-way through is not modelled.
- The `float()` coercion of story points is not modelled. An estimate is an `Option<real>`.
- A sprint record whose `int()` raises contributes no id (`Record(None)`). Which inputs `int()` accepts is not modelled.
- Lower-casing and `\d` cover ASCII only. Unicode case folding and non-ASCII digits are not modelled.
- Floating point is modelled as exact reals. This covers days, means, the variance and the percentage. Rounding is not modelled.
- The square root in the standard deviation is a function parameter.
- Python's `:.1f` formatting is a function parameter.
- NaN is not modelled. The truthiness of a present value is "not zero".
- pandas dtype inference is not modelled. Sprint ids stay integers after `dropna`, and the time columns are taken as datetime-typed (see `Metrics.MetricsFrame` above).
- Metrics.MetricsFrame: it takes the in-progress, done, created and resolved columns to be datetime-typed. In a batch where no row has a resolution date, or where no row enters an in-progress status, pandas may infer an untyped (object) column. The subtraction or the `.dt` accessor (`src/metrics.py:74-82`) can then raise. The model gives per-row `None` cycle or lead times instead.
- Metrics.ComputeAllMetrics: it returns full metrics for the same two batches (no resolution date anywhere, no in-progress entry anywhere), where the source can raise as described for `Metrics.MetricsFrame`. It also does not model the missing-column errors of a frame without rows; the upstream step already raises on such a frame.
- Metrics.CycleAndLeadTime: the `"created" in dfm.columns` guard is taken as always true. The frame always has that column.
