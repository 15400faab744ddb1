/**
 * Sprint id of an issue: gathers the ids the sprint field mentions and picks the
 * numerically largest (data_processing.py, `_extract_sprint_id`).
 */
module SprintIds {
  import opened Types
  import opened Digits

  /** One value of the sprint field, already decoded. */
  datatype SprintRef =
    | Record(id: Option<int>)  // a dict with an "id" key, or an object with an `id`
                               // attribute; None when `int()` of it raised
    | Text(text: string)       // a string such as "...Sprint@1f[id=42,name=...]"
    | Unrecognised             // anything else: contributes no id

  /** The sprint field holds either a list of values or a single value. */
  datatype SprintField = Many(refs: seq<SprintRef>) | Single(ref: SprintRef)

  /** The leading run of ASCII digits of `s` (`\d+`, greedy). */
  function DigitRun(s: string): (r: string)
    ensures AllDigits(r) && |r| <= |s| && r == s[..|r|]
    ensures |r| < |s| ==> !IsDigit(s[|r|])
  {
    if s == [] || !IsDigit(s[0]) then [] else [s[0]] + DigitRun(s[1..])
  }

  /** `re.search(r"id=(\d+)", s)` from position `i` on: the leftmost "id=" that is
      followed by a digit, read as a number. */
  function FindId(s: string, i: nat): Option<int>
    decreases |s| - i
  {
    if i + 4 > |s| then None
    else if s[i..i + 3] == "id=" && IsDigit(s[i + 3]) then Some(DigitsValue(DigitRun(s[i + 3..])))
    else FindId(s, i + 1)
  }

  /** A match of the pattern starts at position i. */
  predicate IdAt(s: string, i: int)
  {
    0 <= i && i + 4 <= |s| && s[i..i + 3] == "id=" && IsDigit(s[i + 3])
  }

  /** `maybe_add`: the id one value contributes, if any. */
  function IdOf(r: SprintRef): Option<int>
  {
    match r
    case Record(id) => id
    case Text(text) => FindId(text, 0)
    case Unrecognised => None
  }

  /** The ids `maybe_add` appends for a list of values, in order. */
  function IdsOf(refs: seq<SprintRef>): seq<int>
  {
    if refs == [] then []
    else
      var last := IdOf(refs[|refs| - 1]);
      IdsOf(refs[..|refs| - 1]) + (if last.Some? then [last.value] else [])
  }

  /** The ids gathered from the whole field. */
  function CollectedIds(raw: Option<SprintField>): seq<int>
  {
    match raw
    case None => []
    case Some(Many(refs)) => IdsOf(refs)
    case Some(Single(r)) => IdsOf([r])
  }

  /** `sorted(ids)[-1]`: the largest id. */
  function Largest(ids: seq<int>): (m: int)
    requires ids != []
    ensures m in ids
    ensures forall k :: 0 <= k < |ids| ==> ids[k] <= m
  {
    if |ids| == 1 then ids[0]
    else
      var rest := Largest(ids[1..]);
      assert forall k :: 1 <= k < |ids| ==> ids[k] == ids[1..][k - 1];
      if ids[0] >= rest then ids[0] else rest
  }

  /** The sprint id an issue is attributed to: the largest collected id, if any. */
  function SprintIdOf(raw: Option<SprintField>): Option<int>
  {
    var ids := CollectedIds(raw);
    if ids == [] then None else Some(Largest(ids))
  }

  /** `_extract_sprint_id`: appends the id of every value the field holds, then
      returns the largest, or None when no id was gathered. */
  method ExtractSprintId(raw: Option<SprintField>) returns (sprintId: Option<int>)
    ensures sprintId == SprintIdOf(raw)
    ensures sprintId.None? <==> CollectedIds(raw) == []
    ensures sprintId.Some? ==> sprintId.value in CollectedIds(raw)
    ensures sprintId.Some? ==> forall id :: id in CollectedIds(raw) ==> id <= sprintId.value
  {
    if raw.None? {
      return None;
    }
    var refs := match raw.value case Many(rs) => rs case Single(r) => [r];
    var ids: seq<int> := [];
    var i := 0;
    while i < |refs|
      invariant 0 <= i <= |refs|
      invariant ids == IdsOf(refs[..i])
    {
      var id := IdOf(refs[i]);
      if id.Some? {
        ids := ids + [id.value];
      }
      assert refs[..i + 1][..i] == refs[..i];
      i := i + 1;
    }
    assert refs[..i] == refs;
    if ids == [] {
      return None;
    }
    sprintId := Some(Largest(ids));
  }

  // ---------------------------------------------------------------------------
  // The text pattern

  lemma {:induction false} FindIdSpec(s: string, i: nat)
    ensures FindId(s, i).None? <==> forall j :: i <= j ==> !IdAt(s, j)
    ensures FindId(s, i).Some? ==>
              exists j :: i <= j && IdAt(s, j) && (forall k :: i <= k < j ==> !IdAt(s, k))
                          && FindId(s, i).value == DigitsValue(DigitRun(s[j + 3..]))
    decreases |s| - i
  {
    if i + 4 > |s| {
      assert forall j :: i <= j ==> !IdAt(s, j);
    } else if IdAt(s, i) {
    } else {
      FindIdSpec(s, i + 1);
      if FindId(s, i).Some? {
        var j :| i + 1 <= j && IdAt(s, j) && (forall k :: i + 1 <= k < j ==> !IdAt(s, k))
                 && FindId(s, i).value == DigitsValue(DigitRun(s[j + 3..]));
        assert forall k :: i <= k < j ==> !IdAt(s, k);
      }
    }
  }

  /** A string item contributes nothing exactly when no "id=" in it is followed by a
      digit; otherwise it contributes the digits after the first such "id=". */
  lemma TextIdSpec(text: string)
    ensures IdOf(Text(text)).None? <==> forall j :: !IdAt(text, j)
    ensures IdOf(Text(text)).Some? ==>
              exists j :: IdAt(text, j) && (forall k :: 0 <= k < j ==> !IdAt(text, k))
                          && IdOf(Text(text)).value == DigitsValue(DigitRun(text[j + 3..]))
  {
    FindIdSpec(text, 0);
    assert forall j :: j < 0 ==> !IdAt(text, j);
  }

  lemma {:induction false} DigitRunOfDigits(d: string, rest: string)
    requires AllDigits(d)
    requires rest == [] || !IsDigit(rest[0])
    ensures DigitRun(d + rest) == d
  {
    if d != [] {
      assert (d + rest)[1..] == d[1..] + rest;
      DigitRunOfDigits(d[1..], rest);
      assert d == [d[0]] + d[1..];
    } else {
      assert d + rest == rest;
    }
  }

  /** A sprint written as "id=<n>" followed by a non-digit reads back as n. */
  lemma TextIdRoundTrip(n: nat, rest: string)
    requires rest == [] || !IsDigit(rest[0])
    ensures IdOf(Text("id=" + NatToString(n) + rest)) == Some(n)
  {
    var d := NatToString(n);
    var s := "id=" + d + rest;
    assert s[0..3] == "id=";
    assert s[3] == d[0];
    assert s[3..] == d + rest;
    DigitRunOfDigits(d, rest);
    ReadWritten(n);
  }

  // ---------------------------------------------------------------------------
  // The collected ids

  lemma {:induction false} IdsOfMembers(refs: seq<SprintRef>, id: int)
    ensures id in IdsOf(refs) <==> exists k :: 0 <= k < |refs| && IdOf(refs[k]) == Some(id)
  {
    if refs != [] {
      var n := |refs| - 1;
      IdsOfMembers(refs[..n], id);
      if exists k :: 0 <= k < |refs| && IdOf(refs[k]) == Some(id) {
        var k :| 0 <= k < |refs| && IdOf(refs[k]) == Some(id);
        if k < n {
          assert refs[..n][k] == refs[k];
        }
      }
      if id in IdsOf(refs[..n]) {
        var k :| 0 <= k < n && IdOf(refs[..n][k]) == Some(id);
        assert refs[k] == refs[..n][k];
      }
    }
  }

  /** The chosen sprint is the largest id any value of the field contributes, and
      None exactly when no value contributes one. */
  lemma SprintIdIsLargest(refs: seq<SprintRef>)
    ensures SprintIdOf(Some(Many(refs))).None? <==> forall k :: 0 <= k < |refs| ==> IdOf(refs[k]).None?
    ensures SprintIdOf(Some(Many(refs))).Some? ==>
              (exists k :: 0 <= k < |refs| && IdOf(refs[k]) == SprintIdOf(Some(Many(refs)))) &&
              (forall k :: 0 <= k < |refs| && IdOf(refs[k]).Some? ==>
                 IdOf(refs[k]).value <= SprintIdOf(Some(Many(refs))).value)
  {
    var ids := IdsOf(refs);
    forall k | 0 <= k < |refs| && IdOf(refs[k]).Some?
      ensures IdOf(refs[k]).value in ids
    {
      IdsOfMembers(refs, IdOf(refs[k]).value);
    }
    if ids != [] {
      IdsOfMembers(refs, Largest(ids));
    }
  }
}
