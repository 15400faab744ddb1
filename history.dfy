/**
 * History normaliser: turns an issue's raw change log into its status history,
 * keeping only the `status` change items of entries whose time could be read,
 * and stable-sorting them by time (data_processing.py, `_extract_status_history`).
 */
module StatusHistory {
  import opened Types

  /** One field change inside a change-log entry (`field`, `fromString`, `toString`). */
  datatype ChangeItem = ChangeItem(field: Option<string>, fromString: Option<string>, toString: Option<string>)

  /** One change-log entry: its creation time, already parsed (None when it was
      missing or could not be parsed), and its change items in order. */
  datatype ChangeEntry = ChangeEntry(created: Option<int>, items: seq<ChangeItem>)

  predicate IsStatusItem(item: ChangeItem)
  {
    item.field == Some("status")
  }

  /** Entry `e`'s item `j` contributes transition `x` to the history. */
  predicate Yields(e: ChangeEntry, j: int, x: Transition)
  {
    && e.created.Some?
    && 0 <= j < |e.items|
    && IsStatusItem(e.items[j])
    && x == (e.created.value, e.items[j].fromString, e.items[j].toString)
  }

  /** The status transitions of `items`, all stamped with time `t`, in item order. */
  function ItemTransitions(t: int, items: seq<ChangeItem>): History
  {
    if items == [] then []
    else
      var item := items[|items| - 1];
      ItemTransitions(t, items[..|items| - 1])
        + (if IsStatusItem(item) then [(t, item.fromString, item.toString)] else [])
  }

  /** The transitions of one entry; nothing when its time is unknown. */
  function EntryTransitions(e: ChangeEntry): History
  {
    if e.created.Some? then ItemTransitions(e.created.value, e.items) else []
  }

  /** All transitions of the change log in the order the log lists them. */
  function Collected(entries: seq<ChangeEntry>): History
  {
    if entries == [] then []
    else Collected(entries[..|entries| - 1]) + EntryTransitions(entries[|entries| - 1])
  }

  /** The change log of an issue; an issue without one has no entries. */
  function Entries(changelog: Option<seq<ChangeEntry>>): seq<ChangeEntry>
  {
    if changelog.Some? then changelog.value else []
  }

  predicate Sorted(h: History)
  {
    forall i, j :: 0 <= i < j < |h| ==> h[i].0 <= h[j].0
  }

  /** The transitions of `h` at time `t`, in the order `h` has them. */
  function WithTime(h: History, t: int): History
  {
    if h == [] then []
    else WithTime(h[..|h| - 1], t) + (if h[|h| - 1].0 == t then [h[|h| - 1]] else [])
  }

  /** Inserts `x` after every element of `s` whose time is not later than its own. */
  function InsertByTime(s: History, x: Transition): History
  {
    if s == [] then [x]
    else if s[0].0 > x.0 then [x] + s
    else [s[0]] + InsertByTime(s[1..], x)
  }

  /** A stable sort by time: `list.sort(key=lambda t: t[0])`. */
  function SortByTime(s: History): History
  {
    if s == [] then []
    else InsertByTime(SortByTime(s[..|s| - 1]), s[|s| - 1])
  }

  // ---------------------------------------------------------------------------
  // The normaliser itself

  /** `_extract_status_history`: gathers the status items entry by entry, skipping
      entries whose time is unknown, then sorts the result by time. */
  method ExtractStatusHistory(changelog: Option<seq<ChangeEntry>>) returns (history: History)
    ensures history == SortByTime(Collected(Entries(changelog)))
    ensures Sorted(history)
    ensures multiset(history) == multiset(Collected(Entries(changelog)))
    ensures forall t :: WithTime(history, t) == WithTime(Collected(Entries(changelog)), t)
  {
    history := [];
    var entries := Entries(changelog);
    var i := 0;
    while i < |entries|
      invariant 0 <= i <= |entries|
      invariant history == Collected(entries[..i])
    {
      var e := entries[i];
      if e.created.Some? {
        var ht := e.created.value;
        var j := 0;
        while j < |e.items|
          invariant 0 <= j <= |e.items|
          invariant history == Collected(entries[..i]) + ItemTransitions(ht, e.items[..j])
        {
          var item := e.items[j];
          if item.field == Some("status") {
            history := history + [(ht, item.fromString, item.toString)];
          }
          assert e.items[..j + 1][..j] == e.items[..j];
          j := j + 1;
        }
        assert e.items[..j] == e.items;
      }
      assert entries[..i + 1][..i] == entries[..i];
      i := i + 1;
    }
    assert entries[..i] == entries;
    ghost var collected := history;
    history := SortByTime(history);
    SortByTimeSorted(collected);
    SortByTimePermutes(collected);
    SortByTimeStable(collected);
  }

  // ---------------------------------------------------------------------------
  // What the collection keeps

  lemma {:induction false} ItemTransitionsMembers(t: int, items: seq<ChangeItem>, x: Transition)
    ensures x in ItemTransitions(t, items) <==>
            exists j :: 0 <= j < |items| && IsStatusItem(items[j]) && x == (t, items[j].fromString, items[j].toString)
  {
    if items != [] {
      var n := |items| - 1;
      ItemTransitionsMembers(t, items[..n], x);
      if x in ItemTransitions(t, items[..n]) {
        var j :| 0 <= j < n && IsStatusItem(items[..n][j]) && x == (t, items[..n][j].fromString, items[..n][j].toString);
        assert items[j] == items[..n][j];
      }
      if exists j :: 0 <= j < |items| && IsStatusItem(items[j]) && x == (t, items[j].fromString, items[j].toString) {
        var j :| 0 <= j < |items| && IsStatusItem(items[j]) && x == (t, items[j].fromString, items[j].toString);
        if j < n {
          assert items[..n][j] == items[j];
        }
      }
    }
  }

  /** The collected history holds exactly the `status` items of the entries whose
      time is known, each stamped with its entry's time; everything else is dropped. */
  lemma {:induction false} CollectedMembers(entries: seq<ChangeEntry>, x: Transition)
    ensures x in Collected(entries) <==>
            exists i, j :: 0 <= i < |entries| && Yields(entries[i], j, x)
  {
    if entries != [] {
      var n := |entries| - 1;
      var e := entries[n];
      CollectedMembers(entries[..n], x);
      if e.created.Some? {
        ItemTransitionsMembers(e.created.value, e.items, x);
      }
      if x in Collected(entries[..n]) {
        var i, j :| 0 <= i < n && Yields(entries[..n][i], j, x);
        assert entries[i] == entries[..n][i];
      }
      if x in EntryTransitions(e) {
        var j :| 0 <= j < |e.items| && IsStatusItem(e.items[j]) && x == (e.created.value, e.items[j].fromString, e.items[j].toString);
        assert Yields(entries[n], j, x);
      }
      if exists i, j :: 0 <= i < |entries| && Yields(entries[i], j, x) {
        var i, j :| 0 <= i < |entries| && Yields(entries[i], j, x);
        if i < n {
          assert Yields(entries[..n][i], j, x);
        } else {
          assert x in EntryTransitions(e);
        }
      }
    }
  }

  /** An entry whose time is unknown contributes nothing, wherever it stands. */
  lemma {:induction false} UnknownTimeDropped(entries: seq<ChangeEntry>, i: int)
    requires 0 <= i < |entries| && entries[i].created.None?
    ensures Collected(entries) == Collected(entries[..i] + entries[i + 1..])
  {
    var a, e, b := entries[..i], entries[i], entries[i + 1..];
    var tail := [e] + b;
    calc {
      Collected(entries);
      { assert entries == a + tail; }
      Collected(a + tail);
      { CollectedAppend(a, tail); }
      Collected(a) + Collected(tail);
      { CollectedAppend([e], b); CollectedUnknown(e); }
      Collected(a) + Collected(b);
      { CollectedAppend(a, b); }
      Collected(a + b);
    }
  }

  lemma CollectedUnknown(e: ChangeEntry)
    requires e.created.None?
    ensures Collected([e]) == []
  {
    assert [e][..0] == [];
  }

  lemma {:induction false} CollectedAppend(a: seq<ChangeEntry>, b: seq<ChangeEntry>)
    ensures Collected(a + b) == Collected(a) + Collected(b)
    decreases |b|
  {
    if b == [] {
      assert a + b == a;
    } else {
      var n := |b| - 1;
      assert (a + b)[..|a + b| - 1] == a + b[..n];
      assert (a + b)[|a + b| - 1] == b[n];
      CollectedAppend(a, b[..n]);
      assert Collected(b) == Collected(b[..n]) + EntryTransitions(b[n]);
    }
  }

  // ---------------------------------------------------------------------------
  // The stable sort

  lemma {:induction false} WithTimeAppend(a: History, b: History, t: int)
    ensures WithTime(a + b, t) == WithTime(a, t) + WithTime(b, t)
    decreases |b|
  {
    if b == [] {
      assert a + b == a;
    } else {
      var n := |b| - 1;
      assert (a + b)[..|a + b| - 1] == a + b[..n];
      WithTimeAppend(a, b[..n], t);
    }
  }

  lemma {:induction false} WithTimeAbsent(h: History, t: int)
    requires forall i :: 0 <= i < |h| ==> h[i].0 != t
    ensures WithTime(h, t) == []
  {
    if h != [] {
      WithTimeAbsent(h[..|h| - 1], t);
    }
  }

  lemma {:induction false} InsertByTimePermutes(s: History, x: Transition)
    ensures multiset(InsertByTime(s, x)) == multiset(s) + multiset{x}
  {
    if s != [] && s[0].0 <= x.0 {
      InsertByTimePermutes(s[1..], x);
      assert s == [s[0]] + s[1..];
    }
  }

  /** No transition of `h` is earlier than `lo`. */
  predicate NotBefore(h: History, lo: int)
  {
    forall k :: 0 <= k < |h| ==> lo <= h[k].0
  }

  lemma {:induction false} InsertByTimeNotBefore(s: History, x: Transition, lo: int)
    requires NotBefore(s, lo) && lo <= x.0
    ensures NotBefore(InsertByTime(s, x), lo)
  {
    if s != [] && s[0].0 <= x.0 {
      InsertByTimeNotBefore(s[1..], x, lo);
    }
  }

  lemma {:induction false} InsertByTimeSorted(s: History, x: Transition)
    requires Sorted(s)
    ensures Sorted(InsertByTime(s, x))
  {
    if s != [] && s[0].0 <= x.0 {
      var tail := s[1..];
      InsertByTimeSorted(tail, x);
      assert NotBefore(tail, s[0].0);
      InsertByTimeNotBefore(tail, x, s[0].0);
      var rt := InsertByTime(tail, x);
      var r := [s[0]] + rt;
      assert r == InsertByTime(s, x);
      forall i, j | 0 <= i < j < |r| ensures r[i].0 <= r[j].0 {
        assert r[j] == rt[j - 1];
        if i > 0 {
          assert r[i] == rt[i - 1];
        }
      }
    }
  }

  lemma {:induction false} InsertByTimeStable(s: History, x: Transition, t: int)
    requires Sorted(s)
    ensures WithTime(InsertByTime(s, x), t) == WithTime(s, t) + WithTime([x], t)
  {
    assert [x] == [] + [x];
    assert WithTime([x], t) == if x.0 == t then [x] else [];
    if s == [] {
    } else if s[0].0 > x.0 {
      WithTimeAppend([x], s, t);
      if x.0 == t {
        WithTimeAbsent(s, t);
      }
    } else {
      var tail := s[1..];
      assert s == [s[0]] + tail;
      InsertByTimeStable(tail, x, t);
      WithTimeAppend([s[0]], InsertByTime(tail, x), t);
      WithTimeAppend([s[0]], tail, t);
    }
  }

  lemma {:induction false} SortByTimeAll(s: History)
    ensures Sorted(SortByTime(s))
    ensures multiset(SortByTime(s)) == multiset(s)
    ensures forall t :: WithTime(SortByTime(s), t) == WithTime(s, t)
  {
    if s != [] {
      var n := |s| - 1;
      SortByTimeAll(s[..n]);
      InsertByTimeSorted(SortByTime(s[..n]), s[n]);
      InsertByTimePermutes(SortByTime(s[..n]), s[n]);
      assert s == s[..n] + [s[n]];
      forall t ensures WithTime(SortByTime(s), t) == WithTime(s, t) {
        InsertByTimeStable(SortByTime(s[..n]), s[n], t);
        WithTimeAppend(s[..n], [s[n]], t);
      }
    }
  }

  /** The sorted history is ordered by time, non-decreasingly. */
  lemma SortByTimeSorted(s: History)
    ensures Sorted(SortByTime(s))
  {
    SortByTimeAll(s);
  }

  /** Sorting keeps every transition, each as often as before. */
  lemma SortByTimePermutes(s: History)
    ensures multiset(SortByTime(s)) == multiset(s)
  {
    SortByTimeAll(s);
  }

  /** The sort is stable: transitions with equal times keep their source order. */
  lemma SortByTimeStable(s: History)
    ensures forall t :: WithTime(SortByTime(s), t) == WithTime(s, t)
  {
    SortByTimeAll(s);
  }

  /** Two histories sorted by time whose transitions at every time agree, in order,
      are equal: sortedness and stability pin down the sort's result. */
  lemma {:induction false} SortedStableUnique(r: History, s: History)
    requires Sorted(r) && Sorted(s)
    requires forall t :: WithTime(r, t) == WithTime(s, t)
    ensures r == s
    decreases |r| + |s|
  {
    if r == [] {
      if s != [] {
        WithTimeLast(s);
      }
    } else if s == [] {
      WithTimeLast(r);
    } else {
      LastAgree(r, s);
      var a := r[|r| - 1];
      var r', s' := r[..|r| - 1], s[..|s| - 1];
      forall t ensures WithTime(r', t) == WithTime(s', t) {
        DropLastAgree(r, s, t);
      }
      assert Sorted(r') && Sorted(s');
      SortedStableUnique(r', s');
      assert r == r' + [a] && s == s' + [a];
    }
  }

  lemma LastAgree(r: History, s: History)
    requires r != [] && s != [] && Sorted(r) && Sorted(s)
    requires forall t :: WithTime(r, t) == WithTime(s, t)
    ensures r[|r| - 1] == s[|s| - 1]
  {
    var a, b := r[|r| - 1], s[|s| - 1];
    LastTimeAgree(r, s);
    var wr, ws := WithTime(r, a.0), WithTime(s, a.0);
    assert wr == WithTime(r[..|r| - 1], a.0) + [a];
    assert ws == WithTime(s[..|s| - 1], a.0) + [b];
    assert a == wr[|wr| - 1] == ws[|ws| - 1] == b;
  }

  lemma LastTimeAgree(r: History, s: History)
    requires r != [] && s != [] && Sorted(r) && Sorted(s)
    requires forall t :: WithTime(r, t) == WithTime(s, t)
    ensures r[|r| - 1].0 == s[|s| - 1].0
  {
    var a, b := r[|r| - 1], s[|s| - 1];
    if a.0 < b.0 {
      WithTimeAbsent(r, b.0);
      WithTimeLast(s);
    } else if b.0 < a.0 {
      WithTimeAbsent(s, a.0);
      WithTimeLast(r);
    }
  }

  lemma DropLastAgree(r: History, s: History, t: int)
    requires r != [] && s != [] && r[|r| - 1] == s[|s| - 1]
    requires WithTime(r, t) == WithTime(s, t)
    ensures WithTime(r[..|r| - 1], t) == WithTime(s[..|s| - 1], t)
  {
    var a := r[|r| - 1];
    var tail := if a.0 == t then [a] else [];
    var x, y := WithTime(r[..|r| - 1], t), WithTime(s[..|s| - 1], t);
    assert WithTime(r, t) == x + tail;
    assert WithTime(s, t) == y + tail;
    assert x == (x + tail)[..|x|];
    assert y == (y + tail)[..|y|];
  }

  /** The last element of a non-empty history appears at its own time, and in a
      sorted history no element is later than it. */
  lemma WithTimeLast(h: History)
    requires h != []
    ensures WithTime(h, h[|h| - 1].0) != []
  {
  }

  /** Any stable sort of the collected history is the one the normaliser produces. */
  lemma StableSortIsUnique(s: History, r: History)
    requires Sorted(r)
    requires forall t :: WithTime(r, t) == WithTime(s, t)
    ensures r == SortByTime(s)
  {
    SortByTimeAll(s);
    SortedStableUnique(r, SortByTime(s));
  }
}
