/**
 * `ProcessRawData`: sort and trim each model's file list, align the four lists, run the six
 * feature loops in source order sharing one `passed_rows` list, add the `noon` flag to the
 * errors frame, and join the frames column-wise with missing cells set to 0.
 */
module Pipeline {
  import opened Wrappers
  import opened FileNames
  import opened Chronology
  import opened Snapshots
  import opened Catalog
  import opened Alignment
  import opened Derivation
  import opened Assembly

  /** Within a model no two globbed files share a run. */
  predicate DistinctRuns(files: ModelFiles)
  {
    DistinctKeys(files.ecmwf) && DistinctKeys(files.eps) && DistinctKeys(files.gfs) && DistinctKeys(files.cmc)
  }

  /**
   * Lists the feature loops can run on: distinct runs, and every aligned eps file dates without
   * a `ValueError`. The first loop dates every eps file once there are two of them, and the
   * other aligned lists carry the same runs, so nothing is asked of the files that the trim
   * or the alignment removes.
   */
  predicate Acceptable(files: ModelFiles)
  {
    DistinctRuns(files) && AllAdmitted(AlignedFiles(files).eps)
  }

  /** Lines 38-47: each list sorted by run, then trimmed by 3 (ecmwf) or 2 (the others). */
  function Trimmed(files: ModelFiles): ModelFiles
  {
    ModelFiles(SortedTrimmed(files.ecmwf, ECMWF_TRIM), SortedTrimmed(files.eps, ENSEMBLE_TRIM),
               SortedTrimmed(files.gfs, ENSEMBLE_TRIM), SortedTrimmed(files.cmc, ENSEMBLE_TRIM))
  }

  lemma TrimmedCatalogued(files: ModelFiles)
    requires DistinctRuns(files)
    ensures Catalogued(Trimmed(files))
  {
  }

  /** The lists after the two alignment passes. */
  function AlignedFiles(files: ModelFiles): ModelFiles
  {
    RestrictAll(Trimmed(files), Common(Trimmed(files)))
  }

  lemma PreparedAligned(files: ModelFiles)
    requires DistinctRuns(files)
    ensures KeysAligned(AlignedFiles(files))
    ensures AllAdmitted(AlignedFiles(files).eps) ==> Aligned(AlignedFiles(files))
    ensures KeySet(AlignedFiles(files).eps) == Common(Trimmed(files))
  {
    TrimmedCatalogued(files);
    AlignedRunsCoincide(Trimmed(files));
    if AllAdmitted(AlignedFiles(files).eps) {
      AlignedByEps(AlignedFiles(files));
    }
  }

  /** The aligned lists as the loops read them. */
  function Prepared(files: ModelFiles): (l: Loaded)
    requires Acceptable(files)
    ensures SameStamps(l) && Chronological(l.eps)
  {
    PreparedAligned(files);
    AlignedLoads(AlignedFiles(files));
    LoadAll(AlignedFiles(files))
  }

  /**
   * How the function ends: `errors_df.index.hour` raises `AttributeError` when the errors
   * frame has no row (line 245); otherwise the filled table is pickled (line 252).
   */
  datatype Outcome = AttributeError | Written(master: Matrix, passedRows: seq<nat>)

  // ---------------------------------------------------------------------------
  // The frames and the table

  function GroupFrame(g: Group, l: Loaded): Frame
    requires SameLength(l)
  {
    Frame(Columns(g), Rows(g, l, |Driver(g, l)|))
  }

  /** `[gfs_ens_bc_change_df, cmc_ens_change_df, ecmwf_change_df, errors_df, day_8_error, ecmwf_eps_change_df]`. */
  function ConcatOrder(): (gs: seq<Group>)
    ensures |gs| == 6 && forall g: Group :: g in gs
    ensures forall i, j :: 0 <= i < j < |gs| ==> gs[i] != gs[j]
  {
    var gs := [GfsVsEps, CmcVsGfs, EcmwfVsEps, Errors, Day8Error, EpsRevision];
    assert forall g: Group :: g in gs by {
      forall g: Group ensures g in gs {
        assert g == gs[0] || g == gs[1] || g == gs[2] || g == gs[3] || g == gs[4] || g == gs[5];
      }
    }
    gs
  }

  /** The frame a group contributes; only the errors frame carries `noon`. */
  function FrameOf(g: Group, l: Loaded): Frame
    requires SameLength(l)
  {
    if g == Errors then AddNoon(GroupFrame(g, l)) else GroupFrame(g, l)
  }

  /** One frame per group: each group's frame sits at the group's place in the concatenation. */
  function Frames(l: Loaded): (fs: seq<Frame>)
    requires SameLength(l)
    ensures |fs| == 6
    ensures forall g :: fs[Position(g)] == FrameOf(g, l)
  {
    seq(6, p requires 0 <= p < 6 => FrameOf(ConcatOrder()[p], l))
  }

  /** `master_df` after `fillna(0)`. */
  function MasterTable(l: Loaded): Matrix
    requires SameLength(l)
  {
    FillNa(Concat(Frames(l)))
  }

  /** `passed_rows` after the six loops, in the order they run. */
  function PassedRows(l: Loaded): seq<nat>
    requires SameLength(l)
  {
    Skips(EpsRevision, l, |l.eps|) + Skips(EcmwfVsEps, l, |l.ecmwf|) + Skips(GfsVsEps, l, |l.gfs|)
    + Skips(CmcVsGfs, l, |l.cmc|) + Skips(Day8Error, l, |l.eps|) + Skips(Errors, l, |l.eps|)
  }

  /** The six frames, written out in concatenation order. */
  lemma FramesListed(l: Loaded)
    requires SameLength(l)
    ensures Frames(l) == [FrameOf(GfsVsEps, l), FrameOf(CmcVsGfs, l), FrameOf(EcmwfVsEps, l),
                          FrameOf(Errors, l), FrameOf(Day8Error, l), FrameOf(EpsRevision, l)]
  {
  }

  /**
   * The whole function, with the globbed lists and the snapshot bodies as its input. With fewer
   * than two aligned runs every loop's range is empty, so no file is dated and the errors frame
   * stays empty; otherwise the first loop dates every aligned eps file.
   */
  method ProcessRawData(files: ModelFiles) returns (outcome: Outcome)
    requires DistinctRuns(files)
    requires |AlignedFiles(files).eps| >= 2 ==> AllAdmitted(AlignedFiles(files).eps)
    ensures |AlignedFiles(files).eps| < 2 ==> outcome == AttributeError
    ensures |AlignedFiles(files).eps| >= 2 ==>
      var l := Prepared(files);
      outcome == if Rows(Errors, l, |Driver(Errors, l)|) == [] then AttributeError
                 else Written(MasterTable(l), PassedRows(l))
  {
    var ecmwf := SortedTrimmed(files.ecmwf, ECMWF_TRIM);
    var eps := SortedTrimmed(files.eps, ENSEMBLE_TRIM);
    var gfs := SortedTrimmed(files.gfs, ENSEMBLE_TRIM);
    var cmc := SortedTrimmed(files.cmc, ENSEMBLE_TRIM);
    var aligned := AlignRuns(ModelFiles(ecmwf, eps, gfs, cmc));
    if |aligned.eps| < 2 {
      return AttributeError;
    }
    PreparedAligned(files);
    var l := LoadAll(aligned);
    assert l == Prepared(files);
    outcome := DeriveAll(l);
  }

  /** Lines 71-252 on the loaded runs: the six loops in order, the noon flag, the join. */
  method DeriveAll(l: Loaded) returns (outcome: Outcome)
    requires SameLength(l)
    ensures outcome == if Rows(Errors, l, |Driver(Errors, l)|) == [] then AttributeError
                       else Written(MasterTable(l), PassedRows(l))
  {
    var passedRows := [];
    var epsChange, ecmwfChange, gfsChange, cmcChange, day8Error, errors;
    epsChange, passedRows := DeriveGroup(EpsRevision, l, passedRows);
    assert passedRows == Skips(EpsRevision, l, |l.eps|);
    ecmwfChange, passedRows := DeriveGroup(EcmwfVsEps, l, passedRows);
    gfsChange, passedRows := DeriveGroup(GfsVsEps, l, passedRows);
    cmcChange, passedRows := DeriveGroup(CmcVsGfs, l, passedRows);
    day8Error, passedRows := DeriveGroup(Day8Error, l, passedRows);
    errors, passedRows := DeriveGroup(Errors, l, passedRows);
    if errors == [] {
      // `errors_df.index` is not a datetime index while the frame has no row
      return AttributeError;
    }

    var errorsFrame := AddNoon(Frame(Columns(Errors), errors));
    var frames := [Frame(Columns(GfsVsEps), gfsChange), Frame(Columns(CmcVsGfs), cmcChange),
                   Frame(Columns(EcmwfVsEps), ecmwfChange), errorsFrame,
                   Frame(Columns(Day8Error), day8Error), Frame(Columns(EpsRevision), epsChange)];
    FramesListed(l);
    outcome := Written(FillNa(Concat(frames)), passedRows);
  }

  // ---------------------------------------------------------------------------
  // What the table holds

  /** A group's columns are exactly its features with the suffixes of its window. */
  lemma ColumnsOfGroup(g: Group, c: Column)
    ensures c in Columns(g) <==> c.Feature? && c.group == g && FirstLabel(g) <= c.suffix < FirstLabel(g) + Width(g)
  {
    if c.Feature? && c.group == g && FirstLabel(g) <= c.suffix < FirstLabel(g) + Width(g) {
      assert Columns(g)[c.suffix - FirstLabel(g)] == c;
    }
  }

  lemma FrameColumns(g: Group, l: Loaded, c: Column)
    requires SameLength(l)
    ensures c in FrameOf(g, l).columns <==> c in Columns(g) || (g == Errors && c == Noon)
  {
  }

  /** Two different groups share no frame column. */
  lemma GroupsDisjoint(g: Group, h: Group, c: Column)
    requires g != h
    ensures !((c in Columns(g) || (g == Errors && c == Noon)) && (c in Columns(h) || (h == Errors && c == Noon)))
  {
    ColumnsOfGroup(g, c);
    ColumnsOfGroup(h, c);
  }

  lemma FramesDisjoint(l: Loaded)
    requires SameLength(l)
    ensures DisjointColumns(Frames(l))
  {
    var fs := Frames(l);
    forall i, j, c | 0 <= i < j < |fs| && c in fs[i].columns
      ensures c !in fs[j].columns
    {
      var gi, gj := ConcatOrder()[i], ConcatOrder()[j];
      PositionOfOrder(i);
      PositionOfOrder(j);
      FrameColumns(gi, l, c);
      FrameColumns(gj, l, c);
      GroupsDisjoint(gi, gj, c);
    }
  }

  lemma GroupFrameWellFormed(g: Group, l: Loaded)
    requires SameStamps(l) && Chronological(l.eps)
    ensures WellFormed(GroupFrame(g, l)) && Noon !in GroupFrame(g, l).columns
    ensures WellFormed(FrameOf(g, l))
  {
    RowsWellFormed(g, l, |Driver(g, l)|);
    RowsChronological(g, l, |Driver(g, l)|);
    ColumnsOfGroup(g, Noon);
    if g == Errors {
      AddNoonWellFormed(GroupFrame(g, l));
    }
  }

  /** The position of a group's frame in the concatenation. */
  function Position(g: Group): (p: nat)
    ensures p < 6 && ConcatOrder()[p] == g
  {
    match g
    case GfsVsEps => 0
    case CmcVsGfs => 1
    case EcmwfVsEps => 2
    case Errors => 3
    case Day8Error => 4
    case EpsRevision => 5
  }

  /** `Position` and `ConcatOrder` are inverse. */
  lemma PositionOfOrder(p: nat)
    requires p < 6
    ensures Position(ConcatOrder()[p]) == p
  {
    var gs := ConcatOrder();
    assert gs[0] == GfsVsEps && gs[1] == CmcVsGfs && gs[2] == EcmwfVsEps;
    assert gs[3] == Errors && gs[4] == Day8Error && gs[5] == EpsRevision;
  }

  /** The frame at `Position(g)` is group `g`'s own, with the noon flag added for the errors group. */
  lemma FrameAtPosition(l: Loaded, g: Group)
    requires SameLength(l)
    ensures CarriesFrame(Frames(l), Position(g), GroupFrame(g, l))
    ensures g == Errors ==> Frames(l)[Position(g)] == AddNoon(GroupFrame(g, l))
    ensures |Frames(l)[Position(g)].rows| == |GroupFrame(g, l).rows|
    ensures forall x :: 0 <= x < |GroupFrame(g, l).rows| ==>
      Frames(l)[Position(g)].rows[x].stamp == GroupFrame(g, l).rows[x].stamp
  {
  }

  /** The facts about the frames the cell lemmas of the joined table need. */
  lemma FramesReady(l: Loaded, g: Group)
    requires SameStamps(l) && Chronological(l.eps)
    ensures DisjointColumns(Frames(l)) && CarriesFrame(Frames(l), Position(g), GroupFrame(g, l))
    ensures WellFormed(GroupFrame(g, l)) && Noon !in GroupFrame(g, l).columns
    ensures g == Errors ==> Frames(l)[Position(g)] == AddNoon(GroupFrame(g, l))
  {
    FramesDisjoint(l);
    GroupFrameWellFormed(g, l);
    FrameAtPosition(l, g);
  }

  /** Every row a loop appended is a row of the table. */
  lemma RowInMaster(l: Loaded, g: Group, x: nat)
    requires SameLength(l) && x < |Rows(g, l, |Driver(g, l)|)|
    ensures Rows(g, l, |Driver(g, l)|)[x].stamp in MasterTable(l)
  {
    var fs, s := Frames(l), Rows(g, l, |Driver(g, l)|)[x].stamp;
    FrameAtPosition(l, g);
    StampsOfRows(fs, s);
    assert fs[Position(g)].rows[x].stamp == s;
  }

  /** Every row of the table was appended by one of the loops. */
  lemma MasterRowAppended(l: Loaded, s: DateTime)
    requires SameLength(l) && s in MasterTable(l)
    ensures exists g: Group, x: nat :: x < |Rows(g, l, |Driver(g, l)|)| && Rows(g, l, |Driver(g, l)|)[x].stamp == s
  {
    var fs := Frames(l);
    StampsOfRows(fs, s);
    var j, x :| 0 <= j < |fs| && 0 <= x < |fs[j].rows| && fs[j].rows[x].stamp == s;
    var g := ConcatOrder()[j];
    PositionOfOrder(j);
    FrameAtPosition(l, g);
    assert Rows(g, l, |Driver(g, l)|)[x].stamp == s;
  }

  /** The rows of the table are the issue datetimes of the rows the six loops appended. */
  lemma MasterRows(l: Loaded, s: DateTime)
    requires SameLength(l)
    ensures s in MasterTable(l) <==>
      exists g: Group, x: nat :: x < |Rows(g, l, |Driver(g, l)|)| && Rows(g, l, |Driver(g, l)|)[x].stamp == s
  {
    if s in MasterTable(l) {
      MasterRowAppended(l, s);
    }
    if exists g: Group, x: nat :: x < |Rows(g, l, |Driver(g, l)|)| && Rows(g, l, |Driver(g, l)|)[x].stamp == s {
      var g: Group, x: nat :| x < |Rows(g, l, |Driver(g, l)|)| && Rows(g, l, |Driver(g, l)|)[x].stamp == s;
      RowInMaster(l, g, x);
    }
  }

  /** A column of some frame is `noon` or a feature of its own group. */
  lemma ColumnFromFrames(l: Loaded, c: Column)
    requires SameLength(l) && c in ColumnsOf(Frames(l))
    ensures c == Noon || c in Columns(c.group)
  {
    var fs := Frames(l);
    ColumnsOfFrames(fs, c);
    var j :| 0 <= j < |fs| && c in fs[j].columns;
    var g := ConcatOrder()[j];
    FrameColumns(g, l, c);
    ColumnsOfGroup(g, c);
  }

  /** `noon` and every feature column are columns of some frame. */
  lemma ColumnToFrames(l: Loaded, c: Column)
    requires SameLength(l) && (c == Noon || c in Columns(c.group))
    ensures c in ColumnsOf(Frames(l))
  {
    var fs := Frames(l);
    var g := if c == Noon then Errors else c.group;
    FrameColumns(g, l, c);
    assert c in fs[Position(g)].columns;
    ColumnsOfFrames(fs, c);
  }

  /** Every row of the table has the 27 feature columns and `noon`, and no others. */
  lemma MasterColumns(l: Loaded, s: DateTime, c: Column)
    requires SameLength(l) && s in MasterTable(l)
    ensures c in MasterTable(l)[s] <==> c == Noon || c in Columns(c.group)
  {
    assert MasterTable(l)[s].Keys == ColumnsOf(Frames(l));
    if c in MasterTable(l)[s] {
      ColumnFromFrames(l, c);
    }
    if c == Noon || c in Columns(c.group) {
      ColumnToFrames(l, c);
    }
  }

  /** A feature cell at the datetime of a row group `g` appended holds that row's value. */
  lemma MasterFeatureAt(l: Loaded, g: Group, k: nat, s: DateTime, x: nat)
    requires SameStamps(l) && Chronological(l.eps) && k < Width(g) && s in MasterTable(l)
    requires x < |Rows(g, l, |Driver(g, l)|)| && Rows(g, l, |Driver(g, l)|)[x].stamp == s
    ensures var row, c := Rows(g, l, |Driver(g, l)|)[x], Feature(g, FirstLabel(g) + k);
      c in MasterTable(l)[s] && k < |row.values| && MasterTable(l)[s][c] == row.values[k]
  {
    FramesReady(l, g);
    ColumnAt(g, k);
    FeatureCellAt(Frames(l), Position(g), GroupFrame(g, l), k, s, x);
  }

  /** A feature cell at a datetime group `g` appended no row for is 0. */
  lemma MasterFeatureAbsent(l: Loaded, g: Group, k: nat, s: DateTime)
    requires SameStamps(l) && Chronological(l.eps) && k < Width(g) && s in MasterTable(l)
    requires forall x :: 0 <= x < |Rows(g, l, |Driver(g, l)|)| ==> Rows(g, l, |Driver(g, l)|)[x].stamp != s
    ensures var c := Feature(g, FirstLabel(g) + k);
      c in MasterTable(l)[s] && MasterTable(l)[s][c] == 0.0
  {
    FramesReady(l, g);
    ColumnAt(g, k);
    FeatureCellAbsent(Frames(l), Position(g), GroupFrame(g, l), k, s);
  }

  /**
   * `noon` is 1 exactly at the datetimes of errors rows issued at hour 12, and 0 elsewhere,
   * including the datetimes only other groups have.
   */
  lemma MasterNoon(l: Loaded, s: DateTime)
    requires SameStamps(l) && Chronological(l.eps) && s in MasterTable(l)
    ensures var rows := Rows(Errors, l, |Driver(Errors, l)|);
      && Noon in MasterTable(l)[s]
      && MasterTable(l)[s][Noon] == if s.hour == 12 && exists x :: 0 <= x < |rows| && rows[x].stamp == s then 1.0 else 0.0
  {
    FramesReady(l, Errors);
    var f := GroupFrame(Errors, l);
    if x :| 0 <= x < |f.rows| && f.rows[x].stamp == s {
      NoonCellAt(Frames(l), Position(Errors), f, s, x);
    } else {
      NoonCellAbsent(Frames(l), Position(Errors), f, s);
    }
  }

  /** Every row of the table is the issue datetime of an aligned eps run. */
  lemma MasterRowsAreEpsRuns(l: Loaded, s: DateTime)
    requires SameStamps(l) && s in MasterTable(l)
    ensures s in EpsStamps(l)
  {
    MasterRowAppended(l, s);
    var g: Group, x: nat :| x < |Rows(g, l, |Driver(g, l)|)| && Rows(g, l, |Driver(g, l)|)[x].stamp == s;
    RowsWellFormed(g, l, |Driver(g, l)|);
  }

  /**
   * Every row of the table is the issue datetime of an aligned eps run, whose run key is one
   * every trimmed list carries.
   */
  lemma MasterRowsAreCommonRuns(files: ModelFiles, s: DateTime)
    requires Acceptable(files) && s in MasterTable(Prepared(files))
    ensures exists f :: f in AlignedFiles(files).eps && Admitted(f) && Stamp(f) == s && Key(f) in Common(Trimmed(files))
  {
    MasterRowsAreEpsRuns(Prepared(files), s);
    PreparedAligned(files);
    LoadedEpsStamp(AlignedFiles(files), s);
  }
}
