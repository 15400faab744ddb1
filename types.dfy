/**
 * Shared vocabulary of the metrics engine: optional values, the outcome of a
 * frame operation, status transitions, the seconds-to-days conversion and a
 * sum over the values of a finite map (used for duration buckets and per-sprint
 * counts).
 */
module Types {

  /** A value that may be missing (Python's None, pandas' NaN/NaT). */
  datatype Option<+T> = None | Some(value: T)

  /** The outcome of an operation on a data frame: either the new frame or the
      name of the column whose lookup raised KeyError. */
  datatype Outcome<+T> = Ok(value: T) | MissingColumn(column: string)

  /** One status change: (time in seconds, status left, status entered). */
  type Transition = (int, Option<string>, Option<string>)

  /** The status history of one issue. */
  type History = seq<Transition>

  const SecondsPerDay: int := 86400

  /** `timedelta.total_seconds() / 86400.0` for a whole number of seconds. */
  function ToDays(seconds: int): (d: real)
    ensures d * 86400.0 == seconds as real
    ensures (d >= 0.0) <==> (seconds >= 0)
    ensures (d == 0.0) <==> (seconds == 0)
  {
    seconds as real / 86400.0
  }

  /** Value at `k`, or `dflt` when `k` is absent (`dict.get(k, dflt)`). */
  function Get<K, V>(m: map<K, V>, k: K, dflt: V): V
  {
    if k in m then m[k] else dflt
  }

  /** The sum of all values of a finite map, in no particular key order. */
  ghost function MapSum<K>(m: map<K, int>): int
    decreases |m|
  {
    if m == map[] then 0
    else
      var k :| k in m;
      assert |m - {k}| < |m| by {
        assert (m - {k}).Keys == m.Keys - {k};
        assert |m.Keys - {k}| == |m.Keys| - 1;
      }
      m[k] + MapSum(m - {k})
  }

  /** The sum does not depend on which key is taken out first. */
  lemma {:induction false} MapSumRemove<K>(m: map<K, int>, k: K)
    requires k in m
    ensures MapSum(m) == m[k] + MapSum(m - {k})
    decreases |m|
  {
    var j :| j in m && MapSum(m) == m[j] + MapSum(m - {j});
    if j != k {
      var mj := m - {j};
      var mk := m - {k};
      assert |mj| < |m| by {
        assert mj.Keys == m.Keys - {j};
        assert |m.Keys - {j}| == |m.Keys| - 1;
      }
      assert |mk| < |m| by {
        assert mk.Keys == m.Keys - {k};
        assert |m.Keys - {k}| == |m.Keys| - 1;
      }
      MapSumRemove(mj, k);
      MapSumRemove(mk, j);
      assert mj - {k} == mk - {j};
    }
  }

  /** Updating one key changes the sum by exactly the change at that key. */
  lemma MapSumUpdate<K>(m: map<K, int>, k: K, v: int)
    ensures MapSum(m[k := v]) == MapSum(m) - Get(m, k, 0) + v
  {
    var m' := m[k := v];
    MapSumRemove(m', k);
    if k in m {
      MapSumRemove(m, k);
      assert m' - {k} == m - {k};
    } else {
      assert m' - {k} == m;
    }
  }

  /** A map whose values are all non-negative has a non-negative sum. */
  lemma {:induction false} MapSumNonNegative<K>(m: map<K, int>)
    requires forall k :: k in m ==> m[k] >= 0
    ensures MapSum(m) >= 0
    decreases |m|
  {
    if m != map[] {
      var k :| k in m;
      MapSumRemove(m, k);
      var rest := m - {k};
      assert |rest| < |m| by {
        assert rest.Keys == m.Keys - {k};
        assert |m.Keys - {k}| == |m.Keys| - 1;
      }
      MapSumNonNegative(rest);
    }
  }
}
