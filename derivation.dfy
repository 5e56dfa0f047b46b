/**
 * The six feature loops over an aligned run sequence. Each loop `for i in range(first, n)`
 * loads a current and a reference series, resolves the day-rollover offset, computes a window
 * of differences, and either appends one row keyed by an issue datetime or appends `i` to the
 * shared `passed_rows` list.
 */
module Derivation {
  import opened Wrappers
  import opened FileNames
  import opened Chronology
  import opened Snapshots
  import opened Catalog
  import opened Alignment
  import opened Features

  /** The six feature groups, in the order the source computes them. */
  datatype Group = EpsRevision | EcmwfVsEps | GfsVsEps | CmcVsGfs | Day8Error | Errors

  /**
   * A column of the final table: the `k`-th feature of a group carries the numeric suffix of
   * its source name (`ecmwf-eps_9`, `ecmwf_diff_8`, `day_8_error`, `error_9`, ...), and `Noon`
   * is the categorical issue-hour column.
   */
  datatype Column = Feature(group: Group, suffix: nat) | Noon

  /** One appended row: `pd.DataFrame([changes], index=[date])`. */
  datatype FeatureRow = FeatureRow(stamp: DateTime, values: seq<real>)

  /** The number of days in a group's window. */
  function Width(g: Group): nat
  {
    match g
    case EcmwfVsEps => 2
    case Day8Error => 1
    case _ => 6
  }

  /** The suffix of a group's first column name. */
  function FirstLabel(g: Group): nat
  {
    if g == EcmwfVsEps || g == Day8Error then 8 else 9
  }

  /**
   * The columns a group's frame is created with, in order: one per day of its window, no two
   * alike, and exactly the group's features whose suffix lies in the window.
   */
  function Columns(g: Group): (cs: seq<Column>)
    ensures |cs| == Width(g)
    ensures forall c :: c in cs <==> c.Feature? && c.group == g && FirstLabel(g) <= c.suffix < FirstLabel(g) + Width(g)
    ensures forall i, j :: 0 <= i < j < |cs| ==> cs[i] != cs[j]
  {
    var cs := seq(Width(g), k requires 0 <= k < Width(g) => Feature(g, FirstLabel(g) + k));
    assert forall c: Column | c.Feature? && c.group == g && FirstLabel(g) <= c.suffix < FirstLabel(g) + Width(g) :: c in cs by {
      forall c: Column | c.Feature? && c.group == g && FirstLabel(g) <= c.suffix < FirstLabel(g) + Width(g) ensures c in cs {
        assert cs[c.suffix - FirstLabel(g)] == c;
      }
    }
    cs
  }

  /** Column `k` of a group is its feature labelled `k` past the first label. */
  lemma ColumnAt(g: Group, k: nat)
    requires k < Width(g)
    ensures Columns(g)[k] == Feature(g, FirstLabel(g) + k)
  {
  }

  /** The first loop index: `range(1, ...)`, or `range(2, ...)` for the errors loop. */
  function FirstStep(g: Group): nat
  {
    if g == Errors then 2 else 1
  }

  // ---------------------------------------------------------------------------
  // Loaded runs

  /** A snapshot as the loops see it: `get_date(df, file)` and the filtered `Value` column. */
  datatype Run = Run(stamp: DateTime, series: seq<real>)

  /** The four aligned lists, each file loaded. */
  datatype Loaded = Loaded(ecmwf: seq<Run>, eps: seq<Run>, gfs: seq<Run>, cmc: seq<Run>)

  /**
   * A loaded snapshot: its issue datetime is the parsed date field and the parsed hour field
   * of its name, and its series has no more values than the file has rows.
   */
  function Load(f: Snapshot): (r: Run)
    requires Admitted(f)
    ensures Some(r.stamp.date) == ParseDate(Key(f).date) && Some(r.stamp.hour) == ParseHour(Key(f).hour)
    ensures |r.series| <= |f.body|
  {
    Run(Stamp(f), Series(f.body))
  }

  /**
   * Loading a list loads each file at its own position; a list in strictly increasing run
   * order loads to strictly increasing issue datetimes.
   */
  function LoadList(s: seq<Snapshot>): (runs: seq<Run>)
    requires AllAdmitted(s)
    ensures |runs| == |s|
    ensures forall k :: 0 <= k < |s| ==> runs[k] == Load(s[k])
    ensures StrictlySorted(s) ==> Chronological(runs)
  {
    StampsInRunOrder(s);
    seq(|s|, k requires 0 <= k < |s| => Load(s[k]))
  }

  /** Along a list sorted strictly by run, the admitted files' issue datetimes increase. */
  lemma StampsInRunOrder(s: seq<Snapshot>)
    requires AllAdmitted(s)
    ensures StrictlySorted(s) ==> forall x, y :: 0 <= x < y < |s| ==> Before(Stamp(s[x]), Stamp(s[y]))
  {
    if StrictlySorted(s) {
      forall x, y | 0 <= x < y < |s| ensures Before(Stamp(s[x]), Stamp(s[y])) {
        assert KeyLt(Key(s[x]), Key(s[y]));
        StampOrder(s[x], s[y]);
      }
    }
  }

  function LoadAll(m: ModelFiles): Loaded
    requires AllAdmitted(m.ecmwf) && AllAdmitted(m.eps) && AllAdmitted(m.gfs) && AllAdmitted(m.cmc)
  {
    Loaded(LoadList(m.ecmwf), LoadList(m.eps), LoadList(m.gfs), LoadList(m.cmc))
  }

  predicate SameLength(l: Loaded)
  {
    |l.ecmwf| == |l.eps| && |l.gfs| == |l.eps| && |l.cmc| == |l.eps|
  }

  /** The runs at each position of the four lists carry the same issue datetime. */
  predicate SameStamps(l: Loaded)
  {
    SameLength(l)
    && forall k :: 0 <= k < |l.eps| ==>
         l.ecmwf[k].stamp == l.eps[k].stamp && l.gfs[k].stamp == l.eps[k].stamp && l.cmc[k].stamp == l.eps[k].stamp
  }

  /** Strictly increasing issue datetimes. */
  predicate Chronological(runs: seq<Run>)
  {
    forall x, y :: 0 <= x < y < |runs| ==> Before(runs[x].stamp, runs[y].stamp)
  }

  /**
   * Loading aligned lists gives lists of equal length whose runs agree on the issue datetime
   * at every position, and the eps runs are in strictly increasing issue-time order.
   */
  lemma AlignedLoads(m: ModelFiles)
    requires Aligned(m)
    ensures SameStamps(LoadAll(m)) && Chronological(LoadAll(m).eps)
  {
    var l := LoadAll(m);
    assert |Keys(m.ecmwf)| == |Keys(m.eps)| && |Keys(m.gfs)| == |Keys(m.eps)| && |Keys(m.cmc)| == |Keys(m.eps)|;
    forall k | 0 <= k < |l.eps|
      ensures l.ecmwf[k].stamp == l.eps[k].stamp && l.gfs[k].stamp == l.eps[k].stamp && l.cmc[k].stamp == l.eps[k].stamp
    {
      assert Keys(m.ecmwf)[k] == Keys(m.eps)[k] && Keys(m.gfs)[k] == Keys(m.eps)[k] && Keys(m.cmc)[k] == Keys(m.eps)[k];
      assert Admitted(m.ecmwf[k]) && Admitted(m.eps[k]) && Admitted(m.gfs[k]) && Admitted(m.cmc[k]);
      StampOrder(m.ecmwf[k], m.eps[k]);
      StampOrder(m.gfs[k], m.eps[k]);
      StampOrder(m.cmc[k], m.eps[k]);
    }
  }

  /** An issue datetime of a loaded eps run is the datetime of one of the eps files. */
  lemma LoadedEpsStamp(m: ModelFiles, s: DateTime)
    requires AllAdmitted(m.ecmwf) && AllAdmitted(m.eps) && AllAdmitted(m.gfs) && AllAdmitted(m.cmc)
    requires s in EpsStamps(LoadAll(m))
    ensures exists f :: f in m.eps && Admitted(f) && Stamp(f) == s && Key(f) in KeySet(m.eps)
  {
    var l := LoadAll(m);
    var r :| r in l.eps && r.stamp == s;
    var i :| 0 <= i < |l.eps| && l.eps[i] == r;
    assert m.eps[i] in m.eps && Stamp(m.eps[i]) == s;
  }

  /** The list whose length bounds a group's loop. */
  function Driver(g: Group, l: Loaded): seq<Run>
  {
    match g
    case EcmwfVsEps => l.ecmwf
    case GfsVsEps => l.gfs
    case CmcVsGfs => l.cmc
    case _ => l.eps
  }

  predicate ValidStep(g: Group, l: Loaded, i: nat)
  {
    SameLength(l) && FirstStep(g) <= i < |Driver(g, l)|
  }

  // ---------------------------------------------------------------------------
  // One step of each loop

  /** The run whose issue datetime keys the row: `index=[date]`. */
  function RowRun(g: Group, l: Loaded, i: nat): Run
    requires ValidStep(g, l, i)
  {
    match g
    case EcmwfVsEps => l.ecmwf[i]
    case GfsVsEps => l.gfs[i]
    case CmcVsGfs => l.cmc[i]
    case _ => l.eps[i]
  }

  /** The run whose series is indexed by `day - offset` (by `7` for the day-8 error). */
  function CurrentRun(g: Group, l: Loaded, i: nat): Run
    requires ValidStep(g, l, i)
  {
    if g == Errors then l.eps[i - 1] else RowRun(g, l, i)
  }

  /** The run whose series is indexed by `day` (by `7 + offset` for the day-8 error). */
  function ReferenceRun(g: Group, l: Loaded, i: nat): Run
    requires ValidStep(g, l, i)
  {
    match g
    case CmcVsGfs => l.gfs[i]
    case Errors => l.eps[i - 2]
    case _ => l.eps[i - 1]
  }

  /**
   * The offset of a step: the row run's datetime against eps run `i - 1` (`prev_date`); the
   * cmc loop has none. In the errors loop the two compared runs are `i` and `i - 1`, not the
   * runs `i - 1` and `i - 2` whose series are subtracted.
   */
  function StepOffset(g: Group, l: Loaded, i: nat): (offset: nat)
    requires ValidStep(g, l, i)
    ensures offset <= 1
  {
    if g == CmcVsGfs then 0 else Offset(RowRun(g, l, i).stamp, l.eps[i - 1].stamp)
  }

  function RowOf(stamp: DateTime, changes: Option<seq<real>>): Option<FeatureRow>
  {
    match changes
    case Some(values) => Some(FeatureRow(stamp, values))
    case None => None
  }

  /**
   * The outcome of one step of group `g` on loaded series: the appended row, or `None` where
   * the source catches an `IndexError` and appends the step to `passed_rows`. The ecmwf loop
   * first probes `iloc[8]` of the ecmwf series and `iloc[9]` of the eps series.
   */
  function StepOn(g: Group, cur: seq<real>, ref: seq<real>, offset: nat, stamp: DateTime): (r: Option<FeatureRow>)
    requires offset <= 1
    ensures r.Some? ==> r.value.stamp == stamp && |r.value.values| == |Columns(g)|
  {
    if g == Day8Error then
      match Day8Diff(cur, ref, offset)
      case Some(v) => Some(FeatureRow(stamp, [v]))
      case None => None
    else if g == EcmwfVsEps && (|cur| <= 8 || |ref| <= 9) then
      None
    else
      RowOf(stamp, WindowDiff(cur, ref, offset, 8, 8 + Width(g)))
  }

  /** Step `i` of group `g` on the aligned lists. */
  function Step(g: Group, l: Loaded, i: nat): (r: Option<FeatureRow>)
    requires ValidStep(g, l, i)
    ensures r.Some? ==> r.value.stamp == RowRun(g, l, i).stamp && |r.value.values| == |Columns(g)|
  {
    StepOn(g, CurrentRun(g, l, i).series, ReferenceRun(g, l, i).series, StepOffset(g, l, i), RowRun(g, l, i).stamp)
  }

  /** The body of one loop iteration. */
  method RunStep(g: Group, l: Loaded, i: nat) returns (outcome: Option<FeatureRow>)
    requires ValidStep(g, l, i)
    ensures outcome == Step(g, l, i)
  {
    var cur := CurrentRun(g, l, i).series;
    var ref := ReferenceRun(g, l, i).series;
    if g == EcmwfVsEps && (|cur| <= 8 || |ref| <= 9) {
      return None;
    }
    var date := RowRun(g, l, i).stamp;
    var offset := StepOffset(g, l, i);
    if g == Day8Error {
      var change := Day8Diff(cur, ref, offset);
      outcome := if change.Some? then Some(FeatureRow(date, [change.value])) else None;
    } else {
      var changes := DayChanges(cur, ref, offset, 8, 8 + Width(g));
      outcome := RowOf(date, changes);
    }
  }

  // ---------------------------------------------------------------------------
  // The rule each step follows

  /**
   * A windowed step appends a row exactly when every day `d` of its window has
   * `cur[d - offset]` and `ref[d]` in range, and the row's value for day `8 + k` is
   * `cur[8 + k - offset] - ref[8 + k]`. The ecmwf loop's early probe never changes the outcome.
   */
  lemma WindowRule(g: Group, cur: seq<real>, ref: seq<real>, offset: nat, stamp: DateTime)
    requires offset <= 1 && g != Day8Error
    ensures StepOn(g, cur, ref, offset, stamp).Some? <==>
      forall d :: 8 <= d < 8 + Width(g) ==> Available(cur, ref, offset, d)
    ensures StepOn(g, cur, ref, offset, stamp).Some? ==> forall k :: 0 <= k < Width(g) ==>
      StepOn(g, cur, ref, offset, stamp).value.values[k] == cur[8 + k - offset] - ref[8 + k]
  {
    WindowDiffPerDay(cur, ref, offset, 8, 8 + Width(g));
    if g == EcmwfVsEps && (|cur| <= 8 || |ref| <= 9) {
      assert !Available(cur, ref, offset, 9);
    }
  }

  /** The ecmwf loop's early `iloc[8]`/`iloc[9]` probe skips only steps the window would skip. */
  lemma EcmwfProbeSubsumed(cur: seq<real>, ref: seq<real>, offset: nat, stamp: DateTime)
    requires offset <= 1
    ensures StepOn(EcmwfVsEps, cur, ref, offset, stamp) == RowOf(stamp, WindowDiff(cur, ref, offset, 8, 10))
  {
    WindowDiffPerDay(cur, ref, offset, 8, 10);
    if |cur| <= 8 || |ref| <= 9 {
      assert !Available(cur, ref, offset, 9);
    }
  }

  /** Step `i` of a windowed group, day by day. */
  lemma WindowStepRule(g: Group, l: Loaded, i: nat)
    requires ValidStep(g, l, i) && g != Day8Error
    ensures var cur, ref, offset := CurrentRun(g, l, i).series, ReferenceRun(g, l, i).series, StepOffset(g, l, i);
      && (Step(g, l, i).Some? <==> forall d :: 8 <= d < 8 + Width(g) ==> Available(cur, ref, offset, d))
      && (Step(g, l, i).Some? ==>
            forall k :: 0 <= k < Width(g) ==> Step(g, l, i).value.values[k] == cur[8 + k - offset] - ref[8 + k])
  {
    WindowRule(g, CurrentRun(g, l, i).series, ReferenceRun(g, l, i).series, StepOffset(g, l, i), RowRun(g, l, i).stamp);
  }

  /** The day-8 step appends `cur[7] - prev[7 + offset]` exactly when both indices exist. */
  lemma Day8StepRule(l: Loaded, i: nat)
    requires ValidStep(Day8Error, l, i)
    ensures var cur, prev := l.eps[i].series, l.eps[i - 1].series;
      var offset := Offset(l.eps[i].stamp, l.eps[i - 1].stamp);
      && (Step(Day8Error, l, i).Some? <==> 7 < |cur| && 7 + offset < |prev|)
      && (Step(Day8Error, l, i).Some? ==> Step(Day8Error, l, i).value.values == [cur[7] - prev[7 + offset]])
  {
  }

  /** The cmc step compares cmc run `i` with gfs run `i` day by day, without an offset. */
  lemma CmcStepRule(l: Loaded, i: nat)
    requires ValidStep(CmcVsGfs, l, i)
    ensures var cur, ref := l.cmc[i].series, l.gfs[i].series;
      && (Step(CmcVsGfs, l, i).Some? <==> 13 < |cur| && 13 < |ref|)
      && (Step(CmcVsGfs, l, i).Some? ==>
            forall k :: 0 <= k < 6 ==> Step(CmcVsGfs, l, i).value.values[k] == cur[8 + k] - ref[8 + k])
  {
    WindowStepRule(CmcVsGfs, l, i);
    var cur, ref := l.cmc[i].series, l.gfs[i].series;
    if 13 < |cur| && 13 < |ref| {
      forall d | 8 <= d < 14 ensures Available(cur, ref, 0, d) { }
    } else {
      assert !Available(cur, ref, 0, 13);
    }
  }

  /**
   * The offset the gfs and ecmwf loops take from eps run `i - 1` is the offset between the
   * model's own runs `i` and `i - 1`, and both equal the eps revision offset at step `i`.
   */
  lemma CrossModelOffsets(l: Loaded, i: nat)
    requires SameStamps(l) && 1 <= i < |l.eps|
    ensures ValidStep(EcmwfVsEps, l, i) && ValidStep(GfsVsEps, l, i) && ValidStep(EpsRevision, l, i)
    ensures StepOffset(EcmwfVsEps, l, i) == Offset(l.ecmwf[i].stamp, l.ecmwf[i - 1].stamp)
    ensures StepOffset(GfsVsEps, l, i) == Offset(l.gfs[i].stamp, l.gfs[i - 1].stamp)
    ensures StepOffset(EcmwfVsEps, l, i) == StepOffset(EpsRevision, l, i)
    ensures StepOffset(GfsVsEps, l, i) == StepOffset(EpsRevision, l, i)
  {
    assert l.ecmwf[i - 1].stamp == l.eps[i - 1].stamp && l.gfs[i - 1].stamp == l.eps[i - 1].stamp;
  }

  /** Under aligned stamps every group keys step `i` by the datetime of eps run `i`. */
  lemma RowKeyedByEps(g: Group, l: Loaded, i: nat)
    requires SameStamps(l) && ValidStep(g, l, i)
    ensures Step(g, l, i).Some? ==> Step(g, l, i).value.stamp == l.eps[i].stamp
  {
  }

  /**
   * The errors row at step `i` is keyed by run `i` and holds the series of runs `i - 1` and
   * `i - 2`, with the offset of step `i`. It repeats the eps revision row of step `i - 1`
   * whenever that offset equals the offset between runs `i - 1` and `i - 2`.
   */
  lemma ErrorsRepeatRevision(l: Loaded, i: nat)
    requires ValidStep(Errors, l, i)
    ensures ValidStep(EpsRevision, l, i - 1) && ValidStep(EpsRevision, l, i)
    ensures StepOffset(Errors, l, i) == StepOffset(EpsRevision, l, i)
    ensures StepOffset(Errors, l, i) == StepOffset(EpsRevision, l, i - 1) ==>
      Step(Errors, l, i) == RowOf(l.eps[i].stamp,
        if Step(EpsRevision, l, i - 1).Some? then Some(Step(EpsRevision, l, i - 1).value.values) else None)
  {
  }

  // ---------------------------------------------------------------------------
  // Logs of step outcomes

  /** The rows appended by a run of outcomes, in order. */
  function Appended(outs: seq<Option<FeatureRow>>): seq<FeatureRow>
    decreases |outs|
  {
    if |outs| == 0 then []
    else if outs[|outs| - 1].Some? then Appended(outs[..|outs| - 1]) + [outs[|outs| - 1].value]
    else Appended(outs[..|outs| - 1])
  }

  /** The step numbers (`base` for the first outcome) that appended a row. */
  function AppendedAt(outs: seq<Option<FeatureRow>>, base: nat): seq<nat>
    decreases |outs|
  {
    if |outs| == 0 then []
    else if outs[|outs| - 1].Some? then AppendedAt(outs[..|outs| - 1], base) + [base + |outs| - 1]
    else AppendedAt(outs[..|outs| - 1], base)
  }

  /** The step numbers that failed and were appended to `passed_rows`. */
  function FailedAt(outs: seq<Option<FeatureRow>>, base: nat): seq<nat>
    decreases |outs|
  {
    if |outs| == 0 then []
    else if outs[|outs| - 1].Some? then FailedAt(outs[..|outs| - 1], base)
    else FailedAt(outs[..|outs| - 1], base) + [base + |outs| - 1]
  }

  lemma LogExtend(outs: seq<Option<FeatureRow>>, o: Option<FeatureRow>, base: nat)
    ensures Appended(outs + [o]) == Appended(outs) + (if o.Some? then [o.value] else [])
    ensures FailedAt(outs + [o], base) == FailedAt(outs, base) + (if o.Some? then [] else [base + |outs|])
  {
    assert (outs + [o])[..|outs|] == outs;
  }

  lemma {:induction false} LogCounts(outs: seq<Option<FeatureRow>>, base: nat)
    ensures |AppendedAt(outs, base)| == |Appended(outs)|
    ensures |Appended(outs)| + |FailedAt(outs, base)| == |outs|
    decreases |outs|
  {
    if |outs| > 0 {
      LogCounts(outs[..|outs| - 1], base);
    }
  }

  lemma {:induction false} AppendedFromOutcomes(outs: seq<Option<FeatureRow>>, base: nat)
    ensures |AppendedAt(outs, base)| == |Appended(outs)|
    ensures forall x :: 0 <= x < |Appended(outs)| ==>
      base <= AppendedAt(outs, base)[x] < base + |outs| && outs[AppendedAt(outs, base)[x] - base] == Some(Appended(outs)[x])
    ensures forall x, y :: 0 <= x < y < |AppendedAt(outs, base)| ==> AppendedAt(outs, base)[x] < AppendedAt(outs, base)[y]
    decreases |outs|
  {
    LogCounts(outs, base);
    if |outs| > 0 {
      var init := outs[..|outs| - 1];
      AppendedFromOutcomes(init, base);
      forall x | 0 <= x < |Appended(init)|
        ensures outs[AppendedAt(init, base)[x] - base] == init[AppendedAt(init, base)[x] - base]
      {
      }
    }
  }

  lemma {:induction false} FailedOutcomes(outs: seq<Option<FeatureRow>>, base: nat)
    ensures forall x :: 0 <= x < |FailedAt(outs, base)| ==>
      base <= FailedAt(outs, base)[x] < base + |outs| && outs[FailedAt(outs, base)[x] - base].None?
    ensures forall x, y :: 0 <= x < y < |FailedAt(outs, base)| ==> FailedAt(outs, base)[x] < FailedAt(outs, base)[y]
    decreases |outs|
  {
    if |outs| > 0 {
      var init := outs[..|outs| - 1];
      FailedOutcomes(init, base);
      forall x | 0 <= x < |FailedAt(init, base)|
        ensures outs[FailedAt(init, base)[x] - base] == init[FailedAt(init, base)[x] - base]
      {
      }
    }
  }

  lemma {:induction false} OutcomesRecorded(outs: seq<Option<FeatureRow>>, base: nat)
    ensures forall j :: 0 <= j < |outs| ==>
      (base + j in AppendedAt(outs, base) <==> outs[j].Some?) && (base + j in FailedAt(outs, base) <==> outs[j].None?)
    decreases |outs|
  {
    if |outs| > 0 {
      var init := outs[..|outs| - 1];
      OutcomesRecorded(init, base);
      AppendedFromOutcomes(init, base);
      FailedOutcomes(init, base);
      assert base + |init| !in AppendedAt(init, base) && base + |init| !in FailedAt(init, base);
    }
  }

  // ---------------------------------------------------------------------------
  // A whole loop

  /** The outcomes of steps `FirstStep(g)`, ..., `k - 1`. */
  function Outcomes(g: Group, l: Loaded, k: nat): seq<Option<FeatureRow>>
    requires SameLength(l) && k <= |Driver(g, l)|
  {
    if k <= FirstStep(g) then []
    else seq(k - FirstStep(g), j requires 0 <= j < k - FirstStep(g) => Step(g, l, FirstStep(g) + j))
  }

  lemma OutcomesAt(g: Group, l: Loaded, k: nat)
    requires SameLength(l) && k <= |Driver(g, l)|
    ensures |Outcomes(g, l, k)| == if k <= FirstStep(g) then 0 else k - FirstStep(g)
    ensures forall j :: 0 <= j < |Outcomes(g, l, k)| ==> Outcomes(g, l, k)[j] == Step(g, l, FirstStep(g) + j)
  {
  }

  /** The rows a loop has appended before step `k`. */
  function Rows(g: Group, l: Loaded, k: nat): seq<FeatureRow>
    requires SameLength(l) && k <= |Driver(g, l)|
  {
    Appended(Outcomes(g, l, k))
  }

  /** The indices a loop has appended to `passed_rows` before step `k`. */
  function Skips(g: Group, l: Loaded, k: nat): seq<nat>
    requires SameLength(l) && k <= |Driver(g, l)|
  {
    FailedAt(Outcomes(g, l, k), FirstStep(g))
  }

  /** The step that appended each row before step `k`. */
  function RowSteps(g: Group, l: Loaded, k: nat): seq<nat>
    requires SameLength(l) && k <= |Driver(g, l)|
  {
    AppendedAt(Outcomes(g, l, k), FirstStep(g))
  }

  lemma OutcomesExtend(g: Group, l: Loaded, k: nat)
    requires SameLength(l) && FirstStep(g) <= k < |Driver(g, l)|
    ensures Outcomes(g, l, k + 1) == Outcomes(g, l, k) + [Step(g, l, k)]
    ensures |Outcomes(g, l, k)| == k - FirstStep(g)
  {
  }

  /** One more step appends its row or its index. */
  lemma LoopStep(g: Group, l: Loaded, i: nat)
    requires SameLength(l) && FirstStep(g) <= i < |Driver(g, l)|
    ensures Rows(g, l, i + 1) == Rows(g, l, i) + (if Step(g, l, i).Some? then [Step(g, l, i).value] else [])
    ensures Skips(g, l, i + 1) == Skips(g, l, i) + (if Step(g, l, i).Some? then [] else [i])
  {
    OutcomesExtend(g, l, i);
    LogExtend(Outcomes(g, l, i), Step(g, l, i), FirstStep(g));
  }

  /** Before its first step a loop has recorded nothing. */
  lemma NoSteps(g: Group, l: Loaded, k: nat)
    requires SameLength(l) && k <= |Driver(g, l)| && k <= FirstStep(g)
    ensures Rows(g, l, k) == [] && Skips(g, l, k) == []
  {
    assert Outcomes(g, l, k) == [];
  }

  /** The outer `for i in range(first, len(files))` loop of a group, with its try/except. */
  method DeriveGroup(g: Group, l: Loaded, passed: seq<nat>) returns (table: seq<FeatureRow>, passedOut: seq<nat>)
    requires SameLength(l)
    ensures table == Rows(g, l, |Driver(g, l)|)
    ensures passedOut == passed + Skips(g, l, |Driver(g, l)|)
  {
    var n := |Driver(g, l)|;
    table, passedOut := [], passed;
    // `range(first, n)` is empty when the list is shorter than `first`
    var i := if n < FirstStep(g) then n else FirstStep(g);
    NoSteps(g, l, i);
    assert passedOut == passed + Skips(g, l, i);
    while i < n
      invariant i <= n && (i < n ==> FirstStep(g) <= i)
      invariant table == Rows(g, l, i) && passedOut == passed + Skips(g, l, i)
    {
      var outcome := RunStep(g, l, i);
      LoopStep(g, l, i);
      if outcome.Some? {
        table := table + [outcome.value];
      } else {
        passedOut := passedOut + [i];
      }
      i := i + 1;
    }
  }

  // ---------------------------------------------------------------------------
  // What a loop records

  /**
   * Every step appends exactly one row or one skipped index, so a pairwise loop yields at most
   * `len - 1` rows and the errors loop at most `len - 2`.
   */
  lemma StepsAccounted(g: Group, l: Loaded, k: nat)
    requires SameLength(l) && k <= |Driver(g, l)|
    ensures |RowSteps(g, l, k)| == |Rows(g, l, k)|
    ensures |Rows(g, l, k)| + |Skips(g, l, k)| == if k <= FirstStep(g) then 0 else k - FirstStep(g)
  {
    OutcomesAt(g, l, k);
    LogCounts(Outcomes(g, l, k), FirstStep(g));
  }

  /** Row `x` was appended by step `RowSteps[x]`, and those steps are strictly increasing. */
  lemma RowsFromSteps(g: Group, l: Loaded, k: nat)
    requires SameLength(l) && k <= |Driver(g, l)|
    ensures |RowSteps(g, l, k)| == |Rows(g, l, k)|
    ensures forall x :: 0 <= x < |Rows(g, l, k)| ==>
      FirstStep(g) <= RowSteps(g, l, k)[x] < k && Step(g, l, RowSteps(g, l, k)[x]) == Some(Rows(g, l, k)[x])
    ensures forall x, y :: 0 <= x < y < |RowSteps(g, l, k)| ==> RowSteps(g, l, k)[x] < RowSteps(g, l, k)[y]
  {
    var outs := Outcomes(g, l, k);
    OutcomesAt(g, l, k);
    AppendedFromOutcomes(outs, FirstStep(g));
    forall x | 0 <= x < |Rows(g, l, k)|
      ensures FirstStep(g) <= RowSteps(g, l, k)[x] < k && Step(g, l, RowSteps(g, l, k)[x]) == Some(Rows(g, l, k)[x])
    {
      var j := RowSteps(g, l, k)[x] - FirstStep(g);
      assert outs[j] == Step(g, l, FirstStep(g) + j);
    }
  }

  /** Every skipped index is a step in range whose window failed; the indices increase. */
  lemma SkipsAreFailedSteps(g: Group, l: Loaded, k: nat)
    requires SameLength(l) && k <= |Driver(g, l)|
    ensures forall x :: 0 <= x < |Skips(g, l, k)| ==>
      FirstStep(g) <= Skips(g, l, k)[x] < k && Step(g, l, Skips(g, l, k)[x]).None?
    ensures forall x, y :: 0 <= x < y < |Skips(g, l, k)| ==> Skips(g, l, k)[x] < Skips(g, l, k)[y]
  {
    var outs := Outcomes(g, l, k);
    OutcomesAt(g, l, k);
    FailedOutcomes(outs, FirstStep(g));
    forall x | 0 <= x < |Skips(g, l, k)|
      ensures FirstStep(g) <= Skips(g, l, k)[x] < k && Step(g, l, Skips(g, l, k)[x]).None?
    {
      var j := Skips(g, l, k)[x] - FirstStep(g);
      assert outs[j] == Step(g, l, FirstStep(g) + j);
    }
  }

  /** A step's index is among the row steps iff it appended a row, and among the skips iff not. */
  lemma EveryStepRecorded(g: Group, l: Loaded, k: nat)
    requires SameLength(l) && k <= |Driver(g, l)|
    ensures forall i :: FirstStep(g) <= i < k ==>
      (i in RowSteps(g, l, k) <==> Step(g, l, i).Some?) && (i in Skips(g, l, k) <==> Step(g, l, i).None?)
  {
    var outs := Outcomes(g, l, k);
    OutcomesAt(g, l, k);
    OutcomesRecorded(outs, FirstStep(g));
    forall i | FirstStep(g) <= i < k
      ensures (i in RowSteps(g, l, k) <==> Step(g, l, i).Some?) && (i in Skips(g, l, k) <==> Step(g, l, i).None?)
    {
      var j := i - FirstStep(g);
      assert outs[j] == Step(g, l, FirstStep(g) + j);
    }
  }

  /**
   * With aligned stamps and chronological eps runs, the rows of a loop are keyed by eps runs
   * in strictly increasing issue-time order, so no two rows share an index label.
   */
  lemma RowsChronological(g: Group, l: Loaded, k: nat)
    requires SameStamps(l) && Chronological(l.eps) && k <= |Driver(g, l)|
    ensures forall x, y :: 0 <= x < y < |Rows(g, l, k)| ==> Before(Rows(g, l, k)[x].stamp, Rows(g, l, k)[y].stamp)
    ensures forall x, y :: 0 <= x < y < |Rows(g, l, k)| ==> Rows(g, l, k)[x].stamp != Rows(g, l, k)[y].stamp
  {
    RowsFromSteps(g, l, k);
    var rows, steps := Rows(g, l, k), RowSteps(g, l, k);
    forall x, y | 0 <= x < y < |rows|
      ensures Before(rows[x].stamp, rows[y].stamp) && rows[x].stamp != rows[y].stamp
    {
      var a, b := steps[x], steps[y];
      assert Step(g, l, a) == Some(rows[x]) && Step(g, l, b) == Some(rows[y]);
      RowKeyedByEps(g, l, a);
      RowKeyedByEps(g, l, b);
      assert Before(l.eps[a].stamp, l.eps[b].stamp);
    }
  }

  /** Every row of a loop has one value per column of its group and is keyed by an eps run. */
  lemma RowsWellFormed(g: Group, l: Loaded, k: nat)
    requires SameStamps(l) && k <= |Driver(g, l)|
    ensures forall x :: 0 <= x < |Rows(g, l, k)| ==> |Rows(g, l, k)[x].values| == |Columns(g)|
    ensures forall x :: 0 <= x < |Rows(g, l, k)| ==> Rows(g, l, k)[x].stamp in EpsStamps(l)
  {
    RowsFromSteps(g, l, k);
    forall x | 0 <= x < |Rows(g, l, k)|
      ensures |Rows(g, l, k)[x].values| == |Columns(g)| && Rows(g, l, k)[x].stamp in EpsStamps(l)
    {
      var a := RowSteps(g, l, k)[x];
      assert Step(g, l, a) == Some(Rows(g, l, k)[x]);
      RowKeyedByEps(g, l, a);
      assert l.eps[a] in l.eps;
    }
  }

  /** The issue datetimes of the eps runs. */
  function EpsStamps(l: Loaded): set<DateTime>
  {
    set r | r in l.eps :: r.stamp
  }

  /**
   * The errors offset can disagree with the offset between the runs it subtracts. Runs issued
   * 2023-01-01 00, 2023-01-01 12 and 2023-01-02 00: step 2 of the errors loop uses offset 1
   * (run 2 is on a new date) while runs 1 and 0 share a date, so its day-9 value is
   * `series_1[7] - series_0[8]` where the revision loop's step 1 has `series_1[8] - series_0[8]`.
   */
  lemma ErrorsOffsetMismatch()
    ensures exists l: Loaded ::
      && SameStamps(l) && Chronological(l.eps) && ValidStep(Errors, l, 2)
      && StepOffset(Errors, l, 2) == 1 && StepOffset(EpsRevision, l, 1) == 0
      && Step(Errors, l, 2).Some? && Step(EpsRevision, l, 1).Some?
      && Step(Errors, l, 2).value.values[0] == 7.0 && Step(EpsRevision, l, 1).value.values[0] == 8.0
  {
    var zeros := seq(14, k requires 0 <= k < 14 => 0.0);
    var ramp := seq(14, k requires 0 <= k < 14 => k as real);
    var r0 := Run(DateTime(Date(2023, 1, 1), 0), zeros);
    var r1 := Run(DateTime(Date(2023, 1, 1), 12), ramp);
    var r2 := Run(DateTime(Date(2023, 1, 2), 0), zeros);
    var runs := [r0, r1, r2];
    var l := Loaded(runs, runs, runs, runs);
    assert SameStamps(l);
    assert Chronological(l.eps);
    WindowStepRule(Errors, l, 2);
    WindowStepRule(EpsRevision, l, 1);
    assert Available(ramp, zeros, 1, 13);
    assert Available(ramp, zeros, 0, 13);
    assert Step(Errors, l, 2).Some? && Step(EpsRevision, l, 1).Some?;
  }
}
