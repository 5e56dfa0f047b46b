/**
 * One snapshot file: its name and its tabular body. Loading keeps the rows whose lead-day
 * indicator (column 2) is at least 1, and exposes their `Value` column as the run's series.
 */
module Snapshots {
  import opened Wrappers
  import opened FileNames
  import opened Chronology

  /** One CSV row: the column-2 lead-day indicator and the `Value` column. */
  datatype RawRow = RawRow(indicator: int, value: real)

  datatype Snapshot = Snapshot(name: string, body: seq<RawRow>)

  /** The run key of a snapshot (the sort key `(x.split('.')[1], x.split('.')[2])`). */
  function Key(f: Snapshot): RunKey
  {
    match ExtractDateTime(f.name)
    case Some(k) => k
    case None => RunKey("", "")
  }

  /**
   * A file the catalog admits and the source can date without raising: the date and hour
   * fields parse, and the hour field has two characters (`[01][02]` in the glob).
   */
  predicate Admitted(f: Snapshot)
  {
    GetDate(f.name).Some? && |ExtractDateTime(f.name).value.hour| == 2
  }

  /** The fields of an admitted name's key: both parse, and the hour has two characters. */
  predicate AdmittedKey(k: RunKey)
  {
    ParseDate(k.date).Some? && ParseHour(k.hour).Some? && |k.hour| == 2
  }

  /** Admission depends on the run key alone, so the files of one run are admitted together. */
  lemma AdmittedByKey(f: Snapshot)
    ensures Admitted(f) <==> AdmittedKey(Key(f))
  {
  }

  predicate AllAdmitted(s: seq<Snapshot>)
  {
    forall k :: 0 <= k < |s| ==> Admitted(s[k])
  }

  /** `get_date(df, file)`: the issue datetime of an admitted snapshot. */
  function Stamp(f: Snapshot): DateTime
    requires Admitted(f)
  {
    GetDate(f.name).value
  }

  /** Between admitted snapshots, run-key order is issue-time order and key equality is stamp equality. */
  lemma StampOrder(f: Snapshot, g: Snapshot)
    requires Admitted(f) && Admitted(g)
    ensures KeyLt(Key(f), Key(g)) <==> Before(Stamp(f), Stamp(g))
    ensures Key(f) == Key(g) <==> Stamp(f) == Stamp(g)
  {
    KeyOrderIsChronological(f.name, g.name);
  }

  /** The calendar dates of two admitted snapshots differ exactly when their date fields differ. */
  lemma StampDateIff(f: Snapshot, g: Snapshot)
    requires Admitted(f) && Admitted(g)
    ensures Stamp(f).date != Stamp(g).date <==> Key(f).date != Key(g).date
  {
    SameCalendarDateIff(f.name, g.name);
  }

  // ---------------------------------------------------------------------------
  // Order-preserving subsequences

  /** `a` is obtained from `b` by deleting elements, keeping the order of the rest. */
  predicate IsSubsequence<T(==)>(a: seq<T>, b: seq<T>)
    decreases |b|
  {
    |a| == 0 || (|b| > 0 && ((a[0] == b[0] && IsSubsequence(a[1..], b[1..])) || IsSubsequence(a, b[1..])))
  }

  // ---------------------------------------------------------------------------
  // Loading a snapshot

  /** `df[df[df.columns[2]] >= 1]`: the rows whose lead-day indicator is at least 1, in order. */
  function LeadDayRows(body: seq<RawRow>): (rows: seq<RawRow>)
    ensures forall k :: 0 <= k < |rows| ==> rows[k].indicator >= 1
    ensures forall r :: r in rows <==> r in body && r.indicator >= 1
    ensures IsSubsequence(rows, body)
    ensures |rows| <= |body|
    decreases |body|
  {
    if |body| == 0 then []
    else
      var rest := LeadDayRows(body[1..]);
      if body[0].indicator >= 1 then
        assert ([body[0]] + rest)[1..] == rest;
        [body[0]] + rest
      else rest
  }

  /** The filter keeps every copy of a lead-day row and no copy of any other row. */
  lemma {:induction false} LeadDayCounts(body: seq<RawRow>)
    ensures forall r :: multiset(LeadDayRows(body))[r] == if r.indicator >= 1 then multiset(body)[r] else 0
    decreases |body|
  {
    if |body| > 0 {
      LeadDayCounts(body[1..]);
      assert body == [body[0]] + body[1..];
    }
  }

  /**
   * The `Value` column of the kept rows: `.iloc[k]['Value']` is `Series(body)[k]`. It has no
   * more values than the body has rows, and a body of lead days only gives its whole column.
   */
  function Series(body: seq<RawRow>): (values: seq<real>)
    ensures |values| <= |body|
    ensures (forall j :: 0 <= j < |body| ==> body[j].indicator >= 1) ==>
      |values| == |body| && forall k :: 0 <= k < |body| ==> values[k] == body[k].value
  {
    var rows := LeadDayRows(body);
    assert (forall j :: 0 <= j < |body| ==> body[j].indicator >= 1) ==> rows == body by {
      if forall j :: 0 <= j < |body| ==> body[j].indicator >= 1 {
        AllLeadDaysKept(body);
      }
    }
    seq(|rows|, k requires 0 <= k < |rows| => rows[k].value)
  }

  /**
   * When the raw indicators count up by one from `start <= 1`, `.iloc[k]['Value']` of the
   * filtered frame is the value of lead day `k + 1`, the raw row `k + 1 - start`.
   */
  lemma {:induction false} SeriesOfLeadDays(body: seq<RawRow>, start: int)
    requires start <= 1
    requires forall j :: 0 <= j < |body| ==> body[j].indicator == start + j
    ensures |Series(body)| == if |body| >= 1 - start then |body| - (1 - start) else 0
    ensures forall k :: 0 <= k < |Series(body)| ==> Series(body)[k] == body[k + 1 - start].value
  {
    LeadDaysFrom(body, start);
  }

  /** With indicators counting up from `start <= 1`, the kept rows are the raw rows from lead day 1 on. */
  lemma {:induction false} LeadDaysFrom(body: seq<RawRow>, start: int)
    requires start <= 1
    requires forall j :: 0 <= j < |body| ==> body[j].indicator == start + j
    ensures LeadDayRows(body) == if |body| >= 1 - start then body[1 - start..] else []
    decreases |body|
  {
    if start == 1 {
      AllLeadDaysKept(body);
    } else if |body| > 0 {
      assert LeadDayRows(body) == LeadDayRows(body[1..]);
      LeadDaysFrom(body[1..], start + 1);
      if |body| >= 1 - start {
        assert body[1..][1 - (start + 1)..] == body[1 - start..];
      }
    }
  }

  /** A body whose indicators are all at least 1 is kept whole. */
  lemma {:induction false} AllLeadDaysKept(body: seq<RawRow>)
    requires forall j :: 0 <= j < |body| ==> body[j].indicator >= 1
    ensures LeadDayRows(body) == body
    decreases |body|
  {
    if |body| > 0 {
      AllLeadDaysKept(body[1..]);
      assert [body[0]] + body[1..] == body;
    }
  }

  /**
   * When the raw indicators count up by one from `start <= 1` (lead day 0, 1, 2, ...),
   * filtered index `k` is lead day `k + 1`: index 8 is lead day 9.
   */
  lemma {:induction false} FilteredIndexIsLeadDay(body: seq<RawRow>, start: int)
    requires start <= 1
    requires forall j :: 0 <= j < |body| ==> body[j].indicator == start + j
    ensures forall k :: 0 <= k < |LeadDayRows(body)| ==> LeadDayRows(body)[k].indicator == k + 1
    decreases |body|
  {
    if start == 1 {
      AllLeadDaysKept(body);
    } else if |body| > 0 {
      assert LeadDayRows(body) == LeadDayRows(body[1..]);
      FilteredIndexIsLeadDay(body[1..], start + 1);
    }
  }
}
