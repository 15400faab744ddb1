/**
 * Phase durations: the time an issue spent in each status, credited interval by
 * interval to the status the earlier transition entered, and the blocked time
 * derived from it (data_processing.py, `_time_in_status` and the blocked-days
 * loop of `compute_status_durations_column`).
 */
module StatusDurations {
  import opened Types
  import StatusHistory

  // ---------------------------------------------------------------------------
  // Specification of the buckets

  /** The buckets after crediting intervals 0 .. k-1; interval i runs from
      transition i to transition i+1 and goes to the status transition i entered. */
  function Accrued(h: History, k: nat): map<string, int>
    requires k == 0 || k < |h|
  {
    if k == 0 then map[]
    else
      var d := Accrued(h, k - 1);
      match h[k - 1].2
      case None => d
      case Some(s) => d[s := Get(d, s, 0) + (h[k].0 - h[k - 1].0)]
  }

  /** `_time_in_status`: nothing for fewer than two transitions, else every closed interval. */
  function Durations(h: History): map<string, int>
  {
    if |h| < 2 then map[] else Accrued(h, |h| - 1)
  }

  /** The statuses entered by transitions 0 .. k-1. */
  function EnteredBefore(h: History, k: nat): set<string>
    requires k <= |h|
  {
    set i | 0 <= i < k && h[i].2.Some? :: h[i].2.value
  }

  /** Total length of the intervals among 0 .. k-1 that start by entering `s`. */
  function StatusTime(h: History, s: string, k: nat): int
    requires k == 0 || k < |h|
  {
    if k == 0 then 0
    else StatusTime(h, s, k - 1) + (if h[k - 1].2 == Some(s) then h[k].0 - h[k - 1].0 else 0)
  }

  /** Total length of the intervals among 0 .. k-1 that start at a transition into no status. */
  function Skipped(h: History, k: nat): int
    requires k == 0 || k < |h|
  {
    if k == 0 then 0
    else Skipped(h, k - 1) + (if h[k - 1].2.None? then h[k].0 - h[k - 1].0 else 0)
  }

  /** The number of closed intervals of a history. */
  function Closed(h: History): nat
  {
    if |h| < 2 then 0 else |h| - 1
  }

  // ---------------------------------------------------------------------------
  // The loop of `_time_in_status`

  /** `_time_in_status`: walks consecutive pairs, adding each interval to the bucket
      of the status the first transition of the pair entered. */
  method TimeInStatus(history: History) returns (durations: map<string, int>)
    ensures durations == Durations(history)
  {
    durations := map[];
    if |history| < 2 {
      return;
    }
    var idx := 0;
    while idx < |history| - 1
      invariant 0 <= idx <= |history| - 1
      invariant durations == Accrued(history, idx)
    {
      var (startTime, _, toStatus) := history[idx];
      var endTime := history[idx + 1].0;
      if toStatus.Some? {
        var delta := endTime - startTime;
        durations := durations[toStatus.value := Get(durations, toStatus.value, 0) + delta];
      }
      idx := idx + 1;
    }
  }

  // ---------------------------------------------------------------------------
  // What the buckets are

  lemma {:induction false} AccruedFacts(h: History, k: nat)
    requires k == 0 || k < |h|
    ensures Accrued(h, k).Keys == EnteredBefore(h, k)
    ensures forall s :: Get(Accrued(h, k), s, 0) == StatusTime(h, s, k)
  {
    if k > 0 {
      AccruedFacts(h, k - 1);
      assert EnteredBefore(h, k) == EnteredBefore(h, k - 1) +
        (if h[k - 1].2.Some? then {h[k - 1].2.value} else {});
    }
  }

  /** The buckets are exactly the statuses entered by every transition but the last. */
  lemma TimeInStatusKeys(h: History)
    ensures Durations(h).Keys == EnteredBefore(h, Closed(h))
    ensures |h| < 2 ==> Durations(h) == map[]
  {
    if |h| >= 2 {
      AccruedFacts(h, |h| - 1);
    } else {
      assert EnteredBefore(h, 0) == {};
    }
  }

  /** Each status's bucket holds the summed length of the intervals that start by
      entering it; a status never entered (or entered only last) gets nothing. */
  lemma TimeInStatusPerStatus(h: History, s: string)
    ensures Get(Durations(h), s, 0) == StatusTime(h, s, Closed(h))
  {
    if |h| >= 2 {
      AccruedFacts(h, |h| - 1);
    }
  }

  lemma {:induction false} AccruedTotal(h: History, k: nat)
    requires k < |h|
    ensures MapSum(Accrued(h, k)) + Skipped(h, k) == h[k].0 - h[0].0
  {
    if k > 0 {
      AccruedTotal(h, k - 1);
      var d := Accrued(h, k - 1);
      if h[k - 1].2.Some? {
        var s := h[k - 1].2.value;
        MapSumUpdate(d, s, Get(d, s, 0) + (h[k].0 - h[k - 1].0));
      }
    }
  }

  /** No double counting, no gap: the buckets plus the skipped intervals cover the
      span from the first to the last transition exactly; the open tail is not counted. */
  lemma TimeInStatusTotal(h: History)
    requires |h| >= 1
    ensures MapSum(Durations(h)) + Skipped(h, |h| - 1) == h[|h| - 1].0 - h[0].0
  {
    AccruedTotal(h, |h| - 1);
  }

  lemma {:induction false} SkippedZero(h: History, k: nat)
    requires k == 0 || k < |h|
    requires forall i :: 0 <= i < k ==> h[i].2.Some?
    ensures Skipped(h, k) == 0
  {
    if k > 0 {
      SkippedZero(h, k - 1);
    }
  }

  /** When every transition but the last enters some status, the buckets sum to the span. */
  lemma TimeInStatusSpan(h: History)
    requires |h| >= 1
    requires forall i :: 0 <= i < |h| - 1 ==> h[i].2.Some?
    ensures MapSum(Durations(h)) == h[|h| - 1].0 - h[0].0
  {
    TimeInStatusTotal(h);
    SkippedZero(h, |h| - 1);
  }

  lemma {:induction false} AccruedNonNegative(h: History, k: nat)
    requires k == 0 || k < |h|
    requires StatusHistory.Sorted(h)
    ensures forall s :: s in Accrued(h, k) ==> Accrued(h, k)[s] >= 0
  {
    if k > 0 {
      AccruedNonNegative(h, k - 1);
    }
  }

  /** On a normalised (time-sorted) history every bucket is non-negative. */
  lemma TimeInStatusNonNegative(h: History)
    requires StatusHistory.Sorted(h)
    ensures forall s :: s in Durations(h) ==> Durations(h)[s] >= 0
  {
    if |h| >= 2 {
      AccruedNonNegative(h, |h| - 1);
    }
  }

  // ---------------------------------------------------------------------------
  // Blocked time

  function LowerChar(c: char): char
  {
    if 'A' <= c <= 'Z' then (c as int + 32) as char else c
  }

  /** `str.lower()` on ASCII letters. */
  function Lower(s: string): (r: string)
    ensures |r| == |s|
  {
    seq(|s|, i requires 0 <= i < |s| => LowerChar(s[i]))
  }

  /** `p in s` for strings: `p` occurs in `s` as a contiguous substring. */
  predicate Contains(s: string, p: string)
    decreases |s|
  {
    |p| <= |s| && (s[..|p|] == p || (|s| > 0 && Contains(s[1..], p)))
  }

  /** `status_name and "blocked" in status_name.lower()`. */
  predicate IsBlocked(name: string)
  {
    |name| > 0 && Contains(Lower(name), "blocked")
  }

  /** The buckets of blocked statuses. */
  function BlockedPart(d: map<string, int>): (b: map<string, int>)
    ensures b.Keys <= d.Keys
  {
    map k | k in d && IsBlocked(k) :: d[k]
  }

  ghost function BlockedSeconds(d: map<string, int>): int
  {
    MapSum(BlockedPart(d))
  }

  /** Per-issue blocked days: None whenever the blocked total is zero. */
  ghost function BlockedDaysOf(d: map<string, int>): Option<real>
  {
    if BlockedSeconds(d) == 0 then None else Some(ToDays(BlockedSeconds(d)))
  }

  /** The inner loop of `compute_status_durations_column`: sums the buckets of
      blocked statuses, visiting the buckets in any order. */
  method BlockedDays(dur: map<string, int>) returns (days: Option<real>)
    ensures days == BlockedDaysOf(dur)
    ensures days.None? <==> BlockedSeconds(dur) == 0
    ensures days.Some? ==> days.value * 86400.0 == BlockedSeconds(dur) as real
  {
    var total := 0;
    var rest := dur;
    while rest != map[]
      invariant total + BlockedSeconds(rest) == BlockedSeconds(dur)
      decreases |rest|
    {
      var name :| name in rest;
      BlockedPartRemove(rest, name);
      if IsBlocked(name) {
        total := total + rest[name];
      }
      RemoveShrinks(rest, name);
      rest := rest - {name};
    }
    assert BlockedPart(rest) == map[];
    days := if total != 0 then Some(total as real / 86400.0) else None;
  }

  lemma RemoveShrinks(d: map<string, int>, name: string)
    requires name in d
    ensures |d - {name}| == |d| - 1
  {
    assert (d - {name}).Keys == d.Keys - {name};
  }

  lemma BlockedPartRemove(d: map<string, int>, name: string)
    requires name in d
    ensures MapSum(BlockedPart(d)) ==
            MapSum(BlockedPart(d - {name})) + (if IsBlocked(name) then d[name] else 0)
  {
    var b := BlockedPart(d);
    if IsBlocked(name) {
      MapSumRemove(b, name);
      assert BlockedPart(d - {name}) == b - {name};
    } else {
      assert BlockedPart(d - {name}) == b;
    }
  }

  /** Total length of the intervals among 0 .. k-1 that start by entering a blocked status. */
  function BlockedTime(h: History, k: nat): int
    requires k == 0 || k < |h|
  {
    if k == 0 then 0
    else
      BlockedTime(h, k - 1)
        + (if h[k - 1].2.Some? && IsBlocked(h[k - 1].2.value) then h[k].0 - h[k - 1].0 else 0)
  }

  lemma {:induction false} AccruedBlocked(h: History, k: nat)
    requires k == 0 || k < |h|
    ensures BlockedSeconds(Accrued(h, k)) == BlockedTime(h, k)
  {
    if k == 0 {
      assert BlockedPart(map[]) == map[];
    } else {
      AccruedBlocked(h, k - 1);
      var d := Accrued(h, k - 1);
      if h[k - 1].2.Some? {
        var s := h[k - 1].2.value;
        BlockedSecondsUpdate(d, s, Get(d, s, 0) + (h[k].0 - h[k - 1].0));
      }
    }
  }

  /** Setting one bucket changes the blocked total by that bucket's change when its
      status is blocked, and not at all otherwise. */
  lemma BlockedSecondsUpdate(d: map<string, int>, s: string, v: int)
    ensures BlockedSeconds(d[s := v]) == BlockedSeconds(d) + (if IsBlocked(s) then v - Get(d, s, 0) else 0)
  {
    if IsBlocked(s) {
      assert BlockedPart(d[s := v]) == BlockedPart(d)[s := v];
      assert Get(BlockedPart(d), s, 0) == Get(d, s, 0);
      MapSumUpdate(BlockedPart(d), s, v);
    } else {
      assert BlockedPart(d[s := v]) == BlockedPart(d);
    }
  }

  /** The blocked total of the buckets equals the summed length of the intervals
      that start by entering a blocked status, however those statuses are named. */
  lemma BlockedSecondsByInterval(h: History)
    ensures BlockedSeconds(Durations(h)) == BlockedTime(h, Closed(h))
  {
    if |h| >= 2 {
      AccruedBlocked(h, |h| - 1);
    } else {
      assert BlockedPart(map[]) == map[];
    }
  }

  /** On a normalised history the blocked days, when present, are positive. */
  lemma BlockedDaysPositive(h: History)
    requires StatusHistory.Sorted(h)
    ensures BlockedDaysOf(Durations(h)).Some? ==> BlockedDaysOf(Durations(h)).value > 0.0
  {
    TimeInStatusNonNegative(h);
    MapSumNonNegative(BlockedPart(Durations(h)));
  }

  /** A blocked bucket that exists but holds zero seconds still yields None: two
      transitions at the same instant, the first into "Blocked". */
  lemma ZeroBlockedBucketGivesNone()
    ensures var h: History := [(5, None, Some("Blocked")), (5, Some("Blocked"), Some("In Progress"))];
            && "Blocked" in Durations(h)
            && IsBlocked("Blocked")
            && BlockedDaysOf(Durations(h)) == None
  {
    var h: History := [(5, None, Some("Blocked")), (5, Some("Blocked"), Some("In Progress"))];
    assert Lower("Blocked") == "blocked";
    assert Contains("blocked", "blocked");
    assert Durations(h) == map["Blocked" := 0];
    var b := BlockedPart(Durations(h));
    assert b == map["Blocked" := 0];
    MapSumRemove(b, "Blocked");
    assert b - {"Blocked"} == map[];
  }
}
