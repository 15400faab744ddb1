/**
 * The summary text built from the aggregate metrics: the fixed header, the metric
 * lines in a fixed order, and up to three recommendations from four threshold
 * rules (report.py, `_fmt_days` and `generate_summary_markdown`).
 * `oneDecimal` stands for Python's `:.1f` formatting of a float.
 */
module Report {
  import opened Types
  import opened Digits
  import Metrics

  /** `_fmt_days`: "n/a" for a missing value, else one decimal and a "d". */
  function FmtDays(value: Option<real>, oneDecimal: real -> string): (s: string)
    ensures s == "n/a" <==> value.None?
    ensures value.Some? ==> s == oneDecimal(value.value) + "d"
  {
    if value.None? then "n/a"
    else
      var s := oneDecimal(value.value) + "d";
      assert s[|s| - 1] == 'd';
      s
  }

  // ---------------------------------------------------------------------------
  // Sprint order of the series

  predicate Increasing(s: seq<int>)
  {
    forall i, j :: 0 <= i < j < |s| ==> s[i] < s[j]
  }

  lemma {:induction false} HasLeast(s: set<int>)
    requires s != {}
    ensures exists m :: m in s && forall x :: x in s ==> m <= x
    decreases |s|
  {
    if forall x :: x !in s {
      assert false;
    }
    var y :| y in s;
    var rest := s - {y};
    var least := y;
    if rest != {} {
      HasLeast(rest);
      var m :| m in rest && forall x :: x in rest ==> m <= x;
      least := if y < m then y else m;
    }
    forall x | x in s
      ensures least <= x
    {
      if x != y {
        assert x in rest;
      }
    }
  }

  /** The ids of a per-sprint series in the order the series lists them: the
      grouping sorts its keys, so ascending. */
  ghost function Ascending(s: set<int>): (r: seq<int>)
    ensures Increasing(r)
    ensures forall x :: x in r <==> x in s
    decreases |s|
  {
    if s == {} then []
    else
      HasLeast(s);
      var m :| m in s && forall x :: x in s ==> m <= x;
      var rest := Ascending(s - {m});
      assert forall i :: 0 <= i < |rest| ==> m < rest[i];
      [m] + rest
  }

  /** An increasing sequence is determined by its elements. */
  lemma {:induction false} IncreasingUnique(a: seq<int>, b: seq<int>)
    requires Increasing(a) && Increasing(b)
    requires forall x :: x in a <==> x in b
    ensures a == b
    decreases |a|
  {
    if a != [] {
      assert a[0] in a;
    }
    if b != [] {
      assert b[0] in b;
    }
    if a != [] && b != [] {
      assert a[0] in b && b[0] in a;
      assert a[0] == b[0];
      forall x
        ensures x in a[1..] <==> x in b[1..]
      {
        if x in a[1..] {
          var i :| 1 <= i < |a| && a[i] == x;
          assert x in b && x != b[0];
        }
        if x in b[1..] {
          var i :| 1 <= i < |b| && b[i] == x;
          assert x in a && x != a[0];
        }
      }
      IncreasingUnique(a[1..], b[1..]);
      assert a == [a[0]] + a[1..] && b == [b[0]] + b[1..];
    }
  }

  /** Lists the ids of a series, least first. */
  method AscendingKeys(s: set<int>) returns (r: seq<int>)
    ensures r == Ascending(s)
  {
    r := [];
    var rest := s;
    while rest != {}
      invariant rest <= s
      invariant Increasing(r)
      invariant forall x :: x in r <==> x in s && x !in rest
      invariant forall i, y :: 0 <= i < |r| && y in rest ==> r[i] < y
      decreases |rest|
    {
      HasLeast(rest);
      var m :| m in rest && forall x :: x in rest ==> m <= x;
      r := r + [m];
      rest := rest - {m};
    }
    IncreasingUnique(r, Ascending(s));
  }

  // ---------------------------------------------------------------------------
  // The lines

  /** `sep.join(parts)`. */
  function Join(parts: seq<string>, sep: string): string
  {
    if parts == [] then ""
    else if |parts| == 1 then parts[0]
    else Join(parts[..|parts| - 1], sep) + sep + parts[|parts| - 1]
  }

  const Header := "**Summary of Metrics (Last Sprints):**"
  const RecommendationsHeader := "\n**Recommendations:**"
  const WaitAdvice := "Reduce waiting time before work starts; clarify backlog grooming and prioritization."
  const BlockerAdvice := "Investigate frequent blockers; define escalation paths and remove systemic impediments."
  const ReopenAdvice := "Tighten acceptance criteria and improve QA to reduce reopen churn."
  const VarianceAdvice := "High variance in cycle time; slice work smaller and limit WIP for predictability."

  function AveragesLine(m: Metrics.MetricsResult, oneDecimal: real -> string): string
  {
    "- **Average cycle time**: " + FmtDays(m.avgCycleTimeDays, oneDecimal)
      + "; **lead time**: " + FmtDays(m.avgLeadTimeDays, oneDecimal)
      + "; **cycle time stdev**: " + FmtDays(m.cycleTimeStdDays, oneDecimal)
  }

  function BlockedLine(days: real, oneDecimal: real -> string): string
  {
    "- **Avg blocked time**: " + FmtDays(Some(days), oneDecimal) + " per ticket"
  }

  function ReopenLine(pct: real, oneDecimal: real -> string): string
  {
    "- **Reopen rate**: " + oneDecimal(pct) + "%"
  }

  /** "id:count" per sprint, in the order `ids` gives. */
  function ThroughputLine(throughput: map<int, int>, ids: seq<int>): string
    requires forall k :: 0 <= k < |ids| ==> ids[k] in throughput
  {
    "- **Throughput** (tickets/sprint): "
      + Join(seq(|ids|, k requires 0 <= k < |ids| => IntToString(ids[k]) + ":" + IntToString(throughput[ids[k]])), ", ")
  }

  /** "id:points" per sprint, points to one decimal, in the order `ids` gives. */
  function VelocityLine(velocity: map<int, real>, ids: seq<int>, oneDecimal: real -> string): string
    requires forall k :: 0 <= k < |ids| ==> ids[k] in velocity
  {
    "- **Velocity** (SP/sprint): "
      + Join(seq(|ids|, k requires 0 <= k < |ids| => IntToString(ids[k]) + ":" + oneDecimal(velocity[ids[k]])), ", ")
  }

  // ---------------------------------------------------------------------------
  // The recommendation rules

  /** Python truthiness of an optional float: present and not zero. */
  predicate Truthy(x: Option<real>)
  {
    x.Some? && x.value != 0.0
  }

  predicate WaitRule(m: Metrics.MetricsResult)
  {
    Truthy(m.avgCycleTimeDays) && Truthy(m.avgLeadTimeDays)
      && m.avgLeadTimeDays.value - m.avgCycleTimeDays.value > 2.0
  }

  predicate BlockerRule(m: Metrics.MetricsResult)
  {
    Truthy(m.blockedAvgDays) && m.blockedAvgDays.value > 0.5
  }

  predicate ReopenRule(m: Metrics.MetricsResult)
  {
    m.reopenRatePct > 10.0
  }

  predicate VarianceRule(m: Metrics.MetricsResult)
  {
    Truthy(m.cycleTimeStdDays) && m.cycleTimeStdDays.value > 3.0
  }

  /** The advice of every rule that fires, in evaluation order. */
  function Fired(m: Metrics.MetricsResult): seq<string>
  {
    (if WaitRule(m) then [WaitAdvice] else [])
      + (if BlockerRule(m) then [BlockerAdvice] else [])
      + (if ReopenRule(m) then [ReopenAdvice] else [])
      + (if VarianceRule(m) then [VarianceAdvice] else [])
  }

  /** `recs[:3]`. */
  function FirstThree(recs: seq<string>): seq<string>
  {
    if |recs| <= 3 then recs else recs[..3]
  }

  function Bullets(recs: seq<string>): seq<string>
  {
    seq(|recs|, k requires 0 <= k < |recs| => "- " + recs[k])
  }

  /** An optional line: one line when present, none otherwise. */
  function OptionalLine(line: Option<string>): seq<string>
  {
    if line.Some? then [line.value] else []
  }

  /** The fixed order of the metric lines; a missing optional line is left out. */
  function Layout(averages: string, blocked: Option<string>, reopen: string,
                  throughput: Option<string>, velocity: Option<string>): seq<string>
  {
    [Header, averages] + OptionalLine(blocked) + [reopen] + OptionalLine(throughput) + OptionalLine(velocity)
  }

  function BlockedText(m: Metrics.MetricsResult, oneDecimal: real -> string): Option<string>
  {
    if m.blockedAvgDays.Some? then Some(BlockedLine(m.blockedAvgDays.value, oneDecimal)) else None
  }

  ghost function ThroughputText(m: Metrics.MetricsResult): Option<string>
  {
    if |m.throughput| > 0 then Some(ThroughputLine(m.throughput, Ascending(m.throughput.Keys))) else None
  }

  ghost function VelocityText(m: Metrics.MetricsResult, oneDecimal: real -> string): Option<string>
  {
    if |m.velocity| > 0 then Some(VelocityLine(m.velocity, Ascending(m.velocity.Keys), oneDecimal)) else None
  }

  /** The metric lines, in order. */
  ghost function MetricLines(m: Metrics.MetricsResult, oneDecimal: real -> string): seq<string>
  {
    Layout(AveragesLine(m, oneDecimal), BlockedText(m, oneDecimal), ReopenLine(m.reopenRatePct, oneDecimal),
           ThroughputText(m), VelocityText(m, oneDecimal))
  }

  /** The recommendations heading and the shown advice, or nothing when no rule fires. */
  function RecommendationLines(recs: seq<string>): seq<string>
  {
    if recs != [] then [RecommendationsHeader] + Bullets(FirstThree(recs)) else []
  }

  /** The lines of the summary, in order. */
  ghost function SummaryLines(m: Metrics.MetricsResult, oneDecimal: real -> string): seq<string>
  {
    MetricLines(m, oneDecimal) + RecommendationLines(Fired(m))
  }

  /** The throughput line, sprints least first, when the series has entries. */
  method ThroughputLineOf(m: Metrics.MetricsResult) returns (line: Option<string>)
    ensures line == ThroughputText(m)
  {
    line := None;
    if |m.throughput| > 0 {
      var ids := AscendingKeys(m.throughput.Keys);
      line := Some(ThroughputLine(m.throughput, ids));
    }
  }

  /** The velocity line, sprints least first, when the series has entries. */
  method VelocityLineOf(m: Metrics.MetricsResult, oneDecimal: real -> string) returns (line: Option<string>)
    ensures line == VelocityText(m, oneDecimal)
  {
    line := None;
    if |m.velocity| > 0 {
      var ids := AscendingKeys(m.velocity.Keys);
      line := Some(VelocityLine(m.velocity, ids, oneDecimal));
    }
  }

  /** The first half of `generate_summary_markdown`: the metric lines, appended one
      by one. */
  method AppendMetricLines(m: Metrics.MetricsResult, oneDecimal: real -> string) returns (lines: seq<string>)
    ensures lines == MetricLines(m, oneDecimal)
  {
    var averages := AveragesLine(m, oneDecimal);
    var blocked := BlockedText(m, oneDecimal);
    var reopen := ReopenLine(m.reopenRatePct, oneDecimal);
    lines := [];
    lines := lines + [Header];
    lines := lines + [averages];
    if m.blockedAvgDays.Some? {
      lines := lines + [BlockedLine(m.blockedAvgDays.value, oneDecimal)];
    }
    assert lines == [Header, averages] + OptionalLine(blocked);
    lines := lines + [reopen];
    ghost var head := lines;
    var throughput := ThroughputLineOf(m);
    if throughput.Some? {
      lines := lines + [throughput.value];
    }
    assert lines == head + OptionalLine(throughput);
    ghost var upToThroughput := lines;
    var velocity := VelocityLineOf(m, oneDecimal);
    if velocity.Some? {
      lines := lines + [velocity.value];
    }
    assert lines == upToThroughput + OptionalLine(velocity);
  }

  /** The rules of `generate_summary_markdown`, evaluated in order, each appending
      its advice when it fires. */
  method CollectRecommendations(m: Metrics.MetricsResult) returns (recs: seq<string>)
    ensures recs == Fired(m)
  {
    recs := [];
    if Truthy(m.avgCycleTimeDays) && Truthy(m.avgLeadTimeDays)
       && m.avgLeadTimeDays.value - m.avgCycleTimeDays.value > 2.0 {
      recs := recs + [WaitAdvice];
    }
    if Truthy(m.blockedAvgDays) && m.blockedAvgDays.value > 0.5 {
      recs := recs + [BlockerAdvice];
    }
    if m.reopenRatePct > 10.0 {
      recs := recs + [ReopenAdvice];
    }
    if Truthy(m.cycleTimeStdDays) && m.cycleTimeStdDays.value > 3.0 {
      recs := recs + [VarianceAdvice];
    }
  }

  /** The tail of `generate_summary_markdown`: when some advice was collected, the
      heading, then the first three pieces of advice as bullets. */
  method AppendRecommendations(lines: seq<string>, recs: seq<string>) returns (out: seq<string>)
    ensures out == lines + RecommendationLines(recs)
  {
    out := lines;
    if recs != [] {
      out := out + [RecommendationsHeader];
      var shown := FirstThree(recs);
      for i := 0 to |shown|
        invariant out == lines + [RecommendationsHeader] + Bullets(shown[..i])
      {
        assert Bullets(shown[..i + 1]) == Bullets(shown[..i]) + ["- " + shown[i]];
        out := out + ["- " + shown[i]];
      }
      assert shown[..|shown|] == shown;
    }
  }

  /** `generate_summary_markdown`: the metric lines, then the heading and at most
      three pieces of advice when some rule fires, joined with line breaks. */
  method GenerateSummaryMarkdown(m: Metrics.MetricsResult, oneDecimal: real -> string) returns (text: string)
    ensures text == Join(SummaryLines(m, oneDecimal), "\n")
    ensures |Header| <= |text| && text[..|Header|] == Header
  {
    var metricLines := AppendMetricLines(m, oneDecimal);
    var recs := CollectRecommendations(m);
    var lines := AppendRecommendations(metricLines, recs);
    SummaryLayout(m, oneDecimal);
    JoinStartsWithFirst(lines, "\n");
    text := Join(lines, "\n");
  }

  // ---------------------------------------------------------------------------
  // Properties of the summary

  /** The joined text begins with its first line. */
  lemma {:induction false} JoinStartsWithFirst(parts: seq<string>, sep: string)
    requires parts != []
    ensures |parts[0]| <= |Join(parts, sep)|
    ensures Join(parts, sep)[..|parts[0]|] == parts[0]
  {
    if |parts| > 1 {
      var front := parts[..|parts| - 1];
      JoinStartsWithFirst(front, sep);
      assert front[0] == parts[0];
      var j := Join(front, sep);
      assert Join(parts, sep) == j + (sep + parts[|parts| - 1]);
      assert (j + (sep + parts[|parts| - 1]))[..|parts[0]|] == j[..|parts[0]|];
    }
  }

  /** Which rule's advice is listed is decided by that rule alone. */
  lemma FiredRules(m: Metrics.MetricsResult)
    ensures WaitAdvice in Fired(m) <==> WaitRule(m)
    ensures BlockerAdvice in Fired(m) <==> BlockerRule(m)
    ensures ReopenAdvice in Fired(m) <==> ReopenRule(m)
    ensures VarianceAdvice in Fired(m) <==> VarianceRule(m)
    ensures Fired(m) == [] <==> !WaitRule(m) && !BlockerRule(m) && !ReopenRule(m) && !VarianceRule(m)
  {

  }

  /** A missing or zero input switches its rule off, whatever the other inputs are:
      the waiting-time rule needs both averages, the blocker rule the blocked
      average and the variance rule the deviation. */
  lemma FalsyInputsSuppressRules(m: Metrics.MetricsResult)
    ensures m.avgCycleTimeDays in {None, Some(0.0)} || m.avgLeadTimeDays in {None, Some(0.0)} ==>
              WaitAdvice !in Fired(m)
    ensures m.blockedAvgDays in {None, Some(0.0)} ==> BlockerAdvice !in Fired(m)
    ensures m.cycleTimeStdDays in {None, Some(0.0)} ==> VarianceAdvice !in Fired(m)
  {
    FiredRules(m);
  }

  /** At most three pieces of advice are shown: the first three that fire, in the
      rules' order; all of them when no more than three fire. */
  lemma RecommendationsCapped(m: Metrics.MetricsResult)
    ensures |FirstThree(Fired(m))| == if |Fired(m)| < 3 then |Fired(m)| else 3
    ensures FirstThree(Fired(m)) == Fired(m)[..|FirstThree(Fired(m))|]
    ensures WaitRule(m) && BlockerRule(m) && ReopenRule(m) && VarianceRule(m) ==>
              FirstThree(Fired(m)) == [WaitAdvice, BlockerAdvice, ReopenAdvice]
  {
  }

  /** `line` begins with a bullet or emphasis marker. */
  predicate MarkerFirst(line: string)
  {
    |line| > 0 && line[0] in "*-"
  }

  /** Lines that each begin with a marker keep that property in the fixed order. */
  lemma LayoutMarkers(averages: string, blocked: Option<string>, reopen: string,
                      throughput: Option<string>, velocity: Option<string>)
    requires MarkerFirst(averages) && MarkerFirst(reopen)
    requires blocked.Some? ==> MarkerFirst(blocked.value)
    requires throughput.Some? ==> MarkerFirst(throughput.value)
    requires velocity.Some? ==> MarkerFirst(velocity.value)
    ensures forall line :: line in Layout(averages, blocked, reopen, throughput, velocity) ==> MarkerFirst(line)
  {
    assert Header[0] == '*';
    forall line | line in Layout(averages, blocked, reopen, throughput, velocity)
      ensures MarkerFirst(line)
    {
      assert line in [Header, averages] || line in OptionalLine(blocked) || line == reopen
             || line in OptionalLine(throughput) || line in OptionalLine(velocity);
    }
  }

  /** No metric line begins with a line break: each begins with "*" or "-". */
  lemma MetricLinesHeads(m: Metrics.MetricsResult, oneDecimal: real -> string)
    ensures forall line :: line in MetricLines(m, oneDecimal) ==> MarkerFirst(line)
  {
    assert AveragesLine(m, oneDecimal)[0] == '-';
    assert ReopenLine(m.reopenRatePct, oneDecimal)[0] == '-';
    if m.blockedAvgDays.Some? {
      assert BlockedLine(m.blockedAvgDays.value, oneDecimal)[0] == '-';
    }
    if |m.throughput| > 0 {
      assert ThroughputText(m).value[0] == '-';
    }
    if |m.velocity| > 0 {
      assert VelocityText(m, oneDecimal).value[0] == '-';
    }
    LayoutMarkers(AveragesLine(m, oneDecimal), BlockedText(m, oneDecimal), ReopenLine(m.reopenRatePct, oneDecimal),
                  ThroughputText(m), VelocityText(m, oneDecimal));
  }

  /** The recommendation lines are the heading, which begins with a line break, and
      the shown advice as bullets. */
  lemma RecommendationLinesShape(recs: seq<string>)
    ensures RecommendationsHeader in RecommendationLines(recs) <==> recs != []
    ensures recs != [] ==>
              var lines := RecommendationLines(recs);
              lines[0] == RecommendationsHeader && RecommendationsHeader[0] == '\n'
              && |lines| == 1 + |FirstThree(recs)|
              && forall k :: 0 <= k < |FirstThree(recs)| ==> lines[k + 1] == "- " + FirstThree(recs)[k]
  {
  }

  /** Where each line of the fixed order lands, whichever optional lines are missing. */
  lemma LayoutPositions(averages: string, blocked: Option<string>, reopen: string,
                        throughput: Option<string>, velocity: Option<string>)
    ensures var lines := Layout(averages, blocked, reopen, throughput, velocity);
            var b := |OptionalLine(blocked)|;
            var t := |OptionalLine(throughput)|;
            var v := |OptionalLine(velocity)|;
            && |lines| == 3 + b + t + v
            && lines[0] == Header
            && lines[1] == averages
            && (blocked.Some? ==> lines[2] == blocked.value)
            && lines[2 + b] == reopen
            && (throughput.Some? ==> lines[3 + b] == throughput.value)
            && (velocity.Some? ==> lines[3 + b + t] == velocity.value)
  {
  }

  /** The summary is the metric lines followed by the recommendation lines, so it
      always opens with the header. */
  lemma SummaryLayout(m: Metrics.MetricsResult, oneDecimal: real -> string)
    ensures var lines := SummaryLines(m, oneDecimal);
            var n := |MetricLines(m, oneDecimal)|;
            && n <= |lines|
            && lines[..n] == MetricLines(m, oneDecimal)
            && lines[n..] == RecommendationLines(Fired(m))
            && lines[0] == Header
  {
  }

  /** The recommendations heading appears exactly when some rule fires. */
  lemma RecommendationsHeadingIffFired(m: Metrics.MetricsResult, oneDecimal: real -> string)
    ensures RecommendationsHeader in SummaryLines(m, oneDecimal) <==> Fired(m) != []
  {
    var metric := MetricLines(m, oneDecimal);
    MetricLinesHeads(m, oneDecimal);
    RecommendationLinesShape(Fired(m));
    assert RecommendationsHeader[0] == '\n';
    assert RecommendationsHeader !in metric;
  }
}
