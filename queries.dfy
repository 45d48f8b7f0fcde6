/**
 * The two lookups over a formant table: the frame at a time point
 * (`formants_at_time`) and the frames of a time interval
 * (`formants_at_interval`), each with its "undefined formant found" warning.
 * praat lists the frames in order of time; the lookups rely on that.
 */
module Queries {
  import opened Wrappers
  import opened FormantTable
  import opened Bisect

  /** A query's result together with whether the query warned about an undefined value. */
  datatype Answer<T> = Answer(value: T, warned: bool)

  predicate HasTime(row: Row)
  {
    |row| >= 1 && row[0].Some?
  }

  function Time(row: Row): real
    requires HasTime(row)
  {
    row[0].value
  }

  predicate AllTimed(table: Table)
  {
    forall i :: 0 <= i < |table| ==> HasTime(table[i])
  }

  /** The time column, `table[:, 0]`. */
  function Times(table: Table): seq<real>
    requires AllTimed(table)
  {
    seq(|table|, i requires 0 <= i < |table| => Time(table[i]))
  }

  /** What praat guarantees of its table: every frame has a time, and times never decrease. */
  predicate TimeSorted(table: Table)
  {
    AllTimed(table) && Sorted(Times(table))
  }

  /**
   * `formants_at_time`: the formants (every column but the time) of the first
   * frame at or after `t`. It fails exactly when no frame is at or after `t`,
   * which includes the empty table, and warns exactly when the formants it
   * returns hold an undefined value.
   */
  function AtTime(table: Table, t: real): (r: Result<Answer<Row>, Error>)
    requires TimeSorted(table)
    ensures r.Err? <==> forall k :: 0 <= k < |table| ==> Time(table[k]) < t
    ensures r.Err? ==> r.error == TimeOutOfRange
    ensures r.Ok? ==> (r.value.warned <==> HasUndefined(r.value.value))
  {
    // On the empty table numpy already fails on `[:, 0]`; LeftIndex is then 0 == |table|.
    var i := LeftIndex(Times(table), t);
    assert forall k :: 0 <= k < |table| ==> Times(table)[k] == Time(table[k]);
    if i == |table| then Err(TimeOutOfRange)
    else
      var formants := table[i][1..];
      Ok(Answer(formants, HasUndefined(formants)))
  }

  /**
   * Any frame that is at or after `t` while all frames before it are earlier
   * than `t` is the one `AtTime` answers with, minus its time column.
   */
  lemma AtTimeFindsFirstAtOrAfter(table: Table, t: real, i: nat)
    requires TimeSorted(table)
    requires i < |table| && t <= Time(table[i])
    requires forall k :: 0 <= k < i ==> Time(table[k]) < t
    ensures AtTime(table, t) == Ok(Answer(table[i][1..], HasUndefined(table[i][1..])))
  {
    LeftIndexUnique(Times(table), t, i);
  }

  /** With strictly increasing times, a query at a frame's own time returns that frame. */
  lemma AtTimeExactMatch(table: Table, i: nat)
    requires TimeSorted(table) && i < |table|
    requires forall j, k :: 0 <= j < k < |table| ==> Time(table[j]) < Time(table[k])
    ensures AtTime(table, Time(table[i])) == Ok(Answer(table[i][1..], HasUndefined(table[i][1..])))
  {
    AtTimeFindsFirstAtOrAfter(table, Time(table[i]), i);
  }

  predicate InInterval(row: Row, start: real, end: real)
  {
    HasTime(row) && start <= Time(row) <= end
  }

  /** The frames whose time lies in `[start, end]`, in table order. */
  function Within(table: Table, start: real, end: real): Table
  {
    if |table| == 0 then []
    else (if InInterval(table[0], start, end) then [table[0]] else []) + Within(table[1..], start, end)
  }

  /**
   * `formants_at_interval`: the frames from `bisect_left(times, start)` up to
   * `bisect_right(times, end)`, time column kept. It fails only when the table
   * is empty, and warns exactly when the frames it returns hold an undefined value.
   */
  function AtInterval(table: Table, start: real, end: real): (r: Result<Answer<Table>, Error>)
    requires TimeSorted(table)
    ensures r.Err? <==> |table| == 0
    ensures r.Err? ==> r.error == TimeOutOfRange
    ensures r.Ok? ==> (r.value.warned <==> TableHasUndefined(r.value.value))
  {
    // numpy fails on `[:, 0]` of the empty table; slicing never fails.
    if |table| == 0 then Err(TimeOutOfRange)
    else
      var lo := LeftIndex(Times(table), start);
      var hi := RightIndex(Times(table), end);
      // A Python slice whose start is past its end is empty.
      var frames := if lo <= hi then table[lo..hi] else [];
      Ok(Answer(frames, TableHasUndefined(frames)))
  }

  lemma {:induction false} WithinAppend(a: Table, b: Table, start: real, end: real)
    ensures Within(a + b, start, end) == Within(a, start, end) + Within(b, start, end)
    decreases |a|
  {
    if |a| > 0 {
      assert (a + b)[1..] == a[1..] + b;
      WithinAppend(a[1..], b, start, end);
    } else {
      assert a + b == b;
    }
  }

  lemma {:induction false} WithinAll(a: Table, start: real, end: real)
    requires forall k :: 0 <= k < |a| ==> InInterval(a[k], start, end)
    ensures Within(a, start, end) == a
    decreases |a|
  {
    if |a| > 0 {
      WithinAll(a[1..], start, end);
      assert [a[0]] + a[1..] == a;
    }
  }

  lemma {:induction false} WithinNone(a: Table, start: real, end: real)
    requires forall k :: 0 <= k < |a| ==> !InInterval(a[k], start, end)
    ensures Within(a, start, end) == []
    decreases |a|
  {
    if |a| > 0 {
      WithinNone(a[1..], start, end);
    }
  }

  /** A table cut into frames outside, inside and again outside `[start, end]`. */
  lemma WithinOfRun(table: Table, lo: nat, hi: nat, start: real, end: real)
    requires lo <= hi <= |table|
    requires forall k :: 0 <= k < lo ==> !InInterval(table[k], start, end)
    requires forall k :: lo <= k < hi ==> InInterval(table[k], start, end)
    requires forall k :: hi <= k < |table| ==> !InInterval(table[k], start, end)
    ensures Within(table, start, end) == table[lo..hi]
  {
    assert table == table[..lo] + table[lo..hi] + table[hi..];
    WithinAppend(table[..lo] + table[lo..hi], table[hi..], start, end);
    WithinAppend(table[..lo], table[lo..hi], start, end);
    WithinNone(table[..lo], start, end);
    WithinAll(table[lo..hi], start, end);
    WithinNone(table[hi..], start, end);
  }

  /**
   * Where the two insertion points fall in a sorted table: frames before
   * `bisect_left(start)` are earlier than `start`, frames from
   * `bisect_right(end)` on are later than `end`, and the frames between are
   * in `[start, end]`.
   */
  lemma InsertionPointsBracket(table: Table, start: real, end: real)
    requires TimeSorted(table)
    ensures var lo := LeftIndex(Times(table), start); var hi := RightIndex(Times(table), end);
      forall k :: 0 <= k < |table| ==>
        && (k < lo ==> !InInterval(table[k], start, end))
        && (lo <= k < hi ==> InInterval(table[k], start, end))
        && (hi <= k ==> !InInterval(table[k], start, end))
  {
    var ts := Times(table);
    LeftIndexSplits(ts, start);
    RightIndexSplits(ts, end);
    forall k | 0 <= k < |table| ensures HasTime(table[k]) && ts[k] == Time(table[k]) {}
  }

  /**
   * On a non-empty table the interval query returns exactly the frames whose
   * time lies in `[start, end]`, in their order, as one contiguous run of the
   * table that starts at the first frame not earlier than `start`.
   */
  lemma AtIntervalIsWithin(table: Table, start: real, end: real)
    requires TimeSorted(table) && |table| > 0
    ensures AtInterval(table, start, end).value.value == Within(table, start, end)
    ensures var lo := LeftIndex(Times(table), start); var frames := AtInterval(table, start, end).value.value;
      lo + |frames| <= |table| && frames == table[lo..lo + |frames|]
  {
    var lo := LeftIndex(Times(table), start);
    var hi := RightIndex(Times(table), end);
    InsertionPointsBracket(table, start, end);
    if lo <= hi {
      WithinOfRun(table, lo, hi, start, end);
    } else {
      WithinOfRun(table, hi, hi, start, end);
    }
  }

  /** An interval whose start is after its end selects no frame. */
  lemma AtIntervalEmptyWhenReversed(table: Table, start: real, end: real)
    requires TimeSorted(table) && |table| > 0
    requires end < start
    ensures AtInterval(table, start, end) == Ok(Answer([], false))
  {
  }
}
