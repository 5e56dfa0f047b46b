/**
 * Lag features. For each step `i` of an aligned run sequence, a feature group compares the
 * series of one run against the series of a reference run over a window of lead-day indices,
 * correcting the current run's index by a day-rollover offset; a step whose window leaves
 * either series is skipped and its index recorded.
 */
module Features {
  import opened Wrappers
  import opened FileNames
  import opened Chronology
  import opened Snapshots
  import opened Catalog
  import opened Alignment

  // ---------------------------------------------------------------------------
  // Day-rollover offset

  /** `1 if str(date)[:10] != str(prev_date)[:10] else 0`: the calendar dates differ. */
  function Offset(date: DateTime, prevDate: DateTime): nat
  {
    if date.date != prevDate.date then 1 else 0
  }

  /**
   * Between two admitted snapshots the offset is 1 exactly when their filename date fields
   * differ, and 0 exactly when they are equal; the hour field never matters.
   */
  lemma OffsetOfRuns(f: Snapshot, g: Snapshot)
    requires Admitted(f) && Admitted(g)
    ensures Offset(Stamp(f), Stamp(g)) == 1 <==> Key(f).date != Key(g).date
    ensures Offset(Stamp(f), Stamp(g)) == 0 <==> Key(f).date == Key(g).date
    ensures Offset(Stamp(f), Stamp(g)) <= 1
  {
    StampDateIff(f, g);
  }

  // ---------------------------------------------------------------------------
  // Windows of lead-day differences

  /** Both `cur.iloc[day - offset]` and `ref.iloc[day]` exist. */
  predicate Available(cur: seq<real>, ref: seq<real>, offset: nat, day: nat)
    requires offset <= day
  {
    day - offset < |cur| && day < |ref|
  }

  /**
   * `[cur[day - offset] - ref[day] for day in range(lo, hi)]`, or `None` where the list
   * comprehension would raise `IndexError`: only the last day of the window has to be checked,
   * since it reaches furthest into both series.
   */
  function WindowDiff(cur: seq<real>, ref: seq<real>, offset: nat, lo: nat, hi: nat): Option<seq<real>>
    requires offset <= lo <= hi
  {
    if lo == hi || (hi - 1 - offset < |cur| && hi - 1 < |ref|) then
      Some(seq(hi - lo, k requires 0 <= k < hi - lo => cur[lo + k - offset] - ref[lo + k]))
    else
      None
  }

  /**
   * The window is produced exactly when every day of it has both indices in range; it then
   * holds one value per day, the value for day `lo + k` being `cur[lo + k - offset] - ref[lo + k]`.
   */
  lemma WindowDiffPerDay(cur: seq<real>, ref: seq<real>, offset: nat, lo: nat, hi: nat)
    requires offset <= lo <= hi
    ensures WindowDiff(cur, ref, offset, lo, hi).Some? <==>
      forall d :: lo <= d < hi ==> Available(cur, ref, offset, d)
    ensures WindowDiff(cur, ref, offset, lo, hi).Some? ==>
      var w := WindowDiff(cur, ref, offset, lo, hi).value;
      && |w| == hi - lo
      && forall k :: 0 <= k < hi - lo ==> w[k] == cur[lo + k - offset] - ref[lo + k]
  {
    if lo < hi && (forall d :: lo <= d < hi ==> Available(cur, ref, offset, d)) {
      assert Available(cur, ref, offset, hi - 1);
    }
  }

  /**
   * The inner `for day in range(lo, hi)` loop and its `except IndexError`: the changes of a
   * whole window, or `None` as soon as one index is out of range.
   */
  method DayChanges(cur: seq<real>, ref: seq<real>, offset: nat, lo: nat, hi: nat)
    returns (changes: Option<seq<real>>)
    requires offset <= lo <= hi
    ensures changes == WindowDiff(cur, ref, offset, lo, hi)
  {
    var acc: seq<real> := [];
    for day := lo to hi
      invariant |acc| == day - lo
      invariant day > lo ==> day - 1 - offset < |cur| && day - 1 < |ref|
      invariant forall k :: 0 <= k < day - lo ==> acc[k] == cur[lo + k - offset] - ref[lo + k]
    {
      if day - offset >= |cur| || day >= |ref| {
        return None;
      }
      acc := acc + [cur[day - offset] - ref[day]];
    }
    assert acc == WindowDiff(cur, ref, offset, lo, hi).value;
    return Some(acc);
  }

  /** `cur.iloc[7] - prev.iloc[7 + offset]`, or `None` for an `IndexError`. */
  function Day8Diff(cur: seq<real>, prev: seq<real>, offset: nat): (r: Option<real>)
    ensures r.Some? <==> 7 < |cur| && 7 + offset < |prev|
  {
    if 7 < |cur| && 7 + offset < |prev| then Some(cur[7] - prev[7 + offset]) else None
  }

  /**
   * The day-8 error is a one-day window anchored the other way round: it shifts the
   * predecessor's index up by the offset, where the windowed groups shift the current run's
   * index down. Read as a window on the predecessor it is day `7 + offset` compared with day
   * `7 + offset - offset` of the current run.
   */
  lemma Day8IsShiftedWindow(cur: seq<real>, prev: seq<real>, offset: nat)
    ensures Day8Diff(cur, prev, offset).Some? <==> WindowDiff(cur, prev, offset, 7 + offset, 8 + offset).Some?
    ensures Day8Diff(cur, prev, offset).Some? ==>
      WindowDiff(cur, prev, offset, 7 + offset, 8 + offset) == Some([Day8Diff(cur, prev, offset).value])
  {
    WindowDiffPerDay(cur, prev, offset, 7 + offset, 8 + offset);
    if Day8Diff(cur, prev, offset).Some? {
      var w := WindowDiff(cur, prev, offset, 7 + offset, 8 + offset).value;
      assert w[0] == cur[7] - prev[7 + offset];
      assert w == [w[0]];
    }
  }
}
