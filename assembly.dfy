/**
 * The final table: the six group frames joined column-wise on their datetime index (an outer
 * join), with the `noon` column added to the errors frame and every missing cell set to 0.
 */
module Assembly {
  import opened Wrappers
  import opened FileNames
  import opened Derivation

  /** A group's frame: its column names and its appended rows. */
  datatype Frame = Frame(columns: seq<Column>, rows: seq<FeatureRow>)

  /** The table before `fillna`: `None` is a NaN cell. */
  type Sparse = map<DateTime, map<Column, Option<real>>>

  type Matrix = map<DateTime, map<Column, real>>

  /** `1 if x == 12 else 0` on the hour of the index. */
  function NoonFlag(stamp: DateTime): real
  {
    if stamp.hour == 12 then 1.0 else 0.0
  }

  /** `errors_df['noon'] = ...`: one more column, filled from each row's own hour. */
  function AddNoon(f: Frame): Frame
  {
    Frame(f.columns + [Noon],
          seq(|f.rows|, x requires 0 <= x < |f.rows| =>
            FeatureRow(f.rows[x].stamp, f.rows[x].values + [NoonFlag(f.rows[x].stamp)])))
  }

  /** Every row has one value per column and no datetime labels two rows. */
  predicate WellFormed(f: Frame)
  {
    && (forall x :: 0 <= x < |f.rows| ==> |f.rows[x].values| == |f.columns|)
    && (forall x, y :: 0 <= x < y < |f.rows| ==> f.rows[x].stamp != f.rows[y].stamp)
    && (forall a, b :: 0 <= a < b < |f.columns| ==> f.columns[a] != f.columns[b])
  }

  /** The noon flag keeps a frame well formed when the frame has no noon column yet. */
  lemma AddNoonWellFormed(f: Frame)
    requires WellFormed(f) && Noon !in f.columns
    ensures WellFormed(AddNoon(f))
    ensures |AddNoon(f).rows| == |f.rows|
    ensures forall x :: 0 <= x < |f.rows| ==>
      AddNoon(f).rows[x].stamp == f.rows[x].stamp && AddNoon(f).rows[x].values[..|f.columns|] == f.rows[x].values
  {
    var r := AddNoon(f);
    forall x | 0 <= x < |f.rows|
      ensures r.rows[x].values[..|f.columns|] == f.rows[x].values
    {
      assert r.rows[x].values == f.rows[x].values + [NoonFlag(f.rows[x].stamp)];
    }
    forall a, b | 0 <= a < b < |r.columns| ensures r.columns[a] != r.columns[b] {
      if b == |f.columns| {
        assert r.columns[a] == f.columns[a];
      }
    }
  }

  // ---------------------------------------------------------------------------
  // Lookup

  /** The first position of `x` in `s`, or `|s|` when it is absent. */
  function IndexOf<T(==)>(s: seq<T>, x: T): (k: nat)
    ensures k <= |s|
    ensures k < |s| ==> s[k] == x
    ensures forall j :: 0 <= j < k ==> s[j] != x
  {
    if |s| == 0 then 0 else if s[0] == x then 0 else 1 + IndexOf(s[1..], x)
  }

  /** The first row carrying `stamp`, or `|rows|` when there is none. */
  function RowIndex(rows: seq<FeatureRow>, stamp: DateTime): (k: nat)
    ensures k <= |rows|
    ensures k < |rows| ==> rows[k].stamp == stamp
    ensures forall j :: 0 <= j < k ==> rows[j].stamp != stamp
  {
    if |rows| == 0 then 0 else if rows[0].stamp == stamp then 0 else 1 + RowIndex(rows[1..], stamp)
  }

  /** The cell `(stamp, c)` of the first frame that has column `c`; `None` is NaN. */
  function Cell(frames: seq<Frame>, stamp: DateTime, c: Column): Option<real>
    decreases |frames|
  {
    if |frames| == 0 then None
    else
      var f := frames[0];
      var k := IndexOf(f.columns, c);
      if k < |f.columns| then
        var x := RowIndex(f.rows, stamp);
        if x < |f.rows| && k < |f.rows[x].values| then Some(f.rows[x].values[k]) else None
      else Cell(frames[1..], stamp, c)
  }

  function StampsOf(frames: seq<Frame>): set<DateTime>
  {
    set f, r | f in frames && r in f.rows :: r.stamp
  }

  function ColumnsOf(frames: seq<Frame>): set<Column>
  {
    set f, c | f in frames && c in f.columns :: c
  }

  /** `pd.concat(frames, axis=1)`: the union of the row labels by the union of the columns. */
  function Concat(frames: seq<Frame>): (t: Sparse)
    ensures t.Keys == StampsOf(frames)
    ensures forall s :: s in t ==> t[s].Keys == ColumnsOf(frames)
  {
    map s | s in StampsOf(frames) :: map c | c in ColumnsOf(frames) :: Cell(frames, s, c)
  }

  /** `fillna(0)`. */
  function FillNa(t: Sparse): (r: Matrix)
    ensures r.Keys == t.Keys
    ensures forall s :: s in t ==> r[s].Keys == t[s].Keys
  {
    map s | s in t :: map c | c in t[s] :: if t[s][c].Some? then t[s][c].value else 0.0
  }

  // ---------------------------------------------------------------------------
  // What the assembled table holds

  /** No column appears in two frames. */
  predicate DisjointColumns(frames: seq<Frame>)
  {
    forall i, j, c :: 0 <= i < j < |frames| && c in frames[i].columns ==> c !in frames[j].columns
  }

  /** Column `c` of frame `j` is found in frame `j` itself. */
  lemma {:induction false} CellOfFrame(frames: seq<Frame>, j: nat, stamp: DateTime, c: Column)
    requires DisjointColumns(frames) && j < |frames| && c in frames[j].columns
    ensures var f := frames[j];
      var k, x := IndexOf(f.columns, c), RowIndex(f.rows, stamp);
      Cell(frames, stamp, c) == if x < |f.rows| && k < |f.rows[x].values| then Some(f.rows[x].values[k]) else None
    decreases j
  {
    if j > 0 {
      assert c !in frames[0].columns;
      assert IndexOf(frames[0].columns, c) == |frames[0].columns|;
      assert DisjointColumns(frames[1..]) by {
        forall i, i', c' | 0 <= i < i' < |frames[1..]| && c' in frames[1..][i].columns
          ensures c' !in frames[1..][i'].columns
        {
          assert frames[1..][i] == frames[i + 1] && frames[1..][i'] == frames[i' + 1];
        }
      }
      CellOfFrame(frames[1..], j - 1, stamp, c);
    }
  }

  /** A column absent from every frame is NaN everywhere. */
  lemma {:induction false} CellOfNoFrame(frames: seq<Frame>, stamp: DateTime, c: Column)
    requires forall j :: 0 <= j < |frames| ==> c !in frames[j].columns
    ensures Cell(frames, stamp, c).None?
    decreases |frames|
  {
    if |frames| > 0 {
      assert IndexOf(frames[0].columns, c) == |frames[0].columns|;
      CellOfNoFrame(frames[1..], stamp, c);
    }
  }

  /**
   * In the filled table, the cell at a row of frame `j` and a column of frame `j` is that row's
   * value; a column of frame `j` at a datetime frame `j` has no row for is 0.
   */
  lemma FilledCell(frames: seq<Frame>, j: nat, stamp: DateTime, k: nat)
    requires DisjointColumns(frames) && j < |frames| && WellFormed(frames[j]) && k < |frames[j].columns|
    requires stamp in StampsOf(frames)
    ensures var t, c := FillNa(Concat(frames)), frames[j].columns[k];
      && stamp in t && c in t[stamp]
      && (forall x :: 0 <= x < |frames[j].rows| && frames[j].rows[x].stamp == stamp ==> t[stamp][c] == frames[j].rows[x].values[k])
      && ((forall x :: 0 <= x < |frames[j].rows| ==> frames[j].rows[x].stamp != stamp) ==> t[stamp][c] == 0.0)
  {
    var f, c := frames[j], frames[j].columns[k];
    assert c in ColumnsOf(frames) by { assert f in frames && c in f.columns; }
    CellOfFrame(frames, j, stamp, c);
    assert IndexOf(f.columns, c) == k;
    var x := RowIndex(f.rows, stamp);
    forall y | 0 <= y < |f.rows| && f.rows[y].stamp == stamp
      ensures x == y
    {
    }
  }

  /** The filled table has no NaN: a cell is 0 exactly where the join found no value or a 0. */
  lemma FilledValues(frames: seq<Frame>, stamp: DateTime, c: Column)
    requires stamp in StampsOf(frames) && c in ColumnsOf(frames)
    ensures FillNa(Concat(frames))[stamp][c] == if Cell(frames, stamp, c).Some? then Cell(frames, stamp, c).value else 0.0
  {
  }
  /** A datetime is a row of the joined table exactly when some frame has a row for it. */
  lemma StampsOfRows(frames: seq<Frame>, stamp: DateTime)
    ensures stamp in StampsOf(frames) <==>
      exists j, x :: 0 <= j < |frames| && 0 <= x < |frames[j].rows| && frames[j].rows[x].stamp == stamp
  {
    if stamp in StampsOf(frames) {
      var f, r :| f in frames && r in f.rows && r.stamp == stamp;
      var j :| 0 <= j < |frames| && frames[j] == f;
      var x :| 0 <= x < |f.rows| && f.rows[x] == r;
      assert frames[j].rows[x].stamp == stamp;
    }
    if exists j, x :: 0 <= j < |frames| && 0 <= x < |frames[j].rows| && frames[j].rows[x].stamp == stamp {
      var j, x :| 0 <= j < |frames| && 0 <= x < |frames[j].rows| && frames[j].rows[x].stamp == stamp;
      assert frames[j] in frames && frames[j].rows[x] in frames[j].rows;
    }
  }

  /** A column is a column of the joined table exactly when some frame has it. */
  lemma ColumnsOfFrames(frames: seq<Frame>, c: Column)
    ensures c in ColumnsOf(frames) <==> exists j :: 0 <= j < |frames| && c in frames[j].columns
  {
    if c in ColumnsOf(frames) {
      var f :| f in frames && c in f.columns;
      var j :| 0 <= j < |frames| && frames[j] == f;
    }
    if exists j :: 0 <= j < |frames| && c in frames[j].columns {
      var j :| 0 <= j < |frames| && c in frames[j].columns;
      assert frames[j] in frames;
    }
  }

  /** Frame `j` is `f`, or `f` with the noon flag added: `f`'s columns keep their place and their values. */
  predicate CarriesFrame(frames: seq<Frame>, j: nat, f: Frame)
  {
    j < |frames| && (frames[j] == f || frames[j] == AddNoon(f))
  }

  /** Column `k` of `f` at the datetime of `f`'s row `x` holds that row's value. */
  lemma FeatureCellAt(frames: seq<Frame>, j: nat, f: Frame, k: nat, stamp: DateTime, x: nat)
    requires DisjointColumns(frames) && CarriesFrame(frames, j, f) && WellFormed(f) && Noon !in f.columns
    requires k < |f.columns| && stamp in StampsOf(frames) && x < |f.rows| && f.rows[x].stamp == stamp
    ensures var t, c := FillNa(Concat(frames)), f.columns[k];
      stamp in t && c in t[stamp] && k < |f.rows[x].values| && t[stamp][c] == f.rows[x].values[k]
  {
    var g := frames[j];
    assert WellFormed(g) && k < |g.columns| && g.columns[k] == f.columns[k] by {
      AddNoonWellFormed(f);
    }
    FilledCell(frames, j, stamp, k);
    assert g.rows[x].stamp == stamp && g.rows[x].values[k] == f.rows[x].values[k] by {
      if g != f {
        assert g.rows[x].values == f.rows[x].values + [NoonFlag(stamp)];
      }
    }
  }

  /** Column `k` of `f` at a datetime `f` has no row for is 0. */
  lemma FeatureCellAbsent(frames: seq<Frame>, j: nat, f: Frame, k: nat, stamp: DateTime)
    requires DisjointColumns(frames) && CarriesFrame(frames, j, f) && WellFormed(f) && Noon !in f.columns
    requires k < |f.columns| && stamp in StampsOf(frames)
    requires forall x :: 0 <= x < |f.rows| ==> f.rows[x].stamp != stamp
    ensures var t, c := FillNa(Concat(frames)), f.columns[k];
      stamp in t && c in t[stamp] && t[stamp][c] == 0.0
  {
    var g := frames[j];
    assert WellFormed(g) && k < |g.columns| && g.columns[k] == f.columns[k] by {
      AddNoonWellFormed(f);
    }
    FilledCell(frames, j, stamp, k);
  }

  /** The noon cell at the datetime of `f`'s row `x` is the flag of that datetime's hour. */
  lemma NoonCellAt(frames: seq<Frame>, j: nat, f: Frame, stamp: DateTime, x: nat)
    requires DisjointColumns(frames) && j < |frames| && WellFormed(f) && Noon !in f.columns
    requires frames[j] == AddNoon(f) && stamp in StampsOf(frames)
    requires x < |f.rows| && f.rows[x].stamp == stamp
    ensures var t := FillNa(Concat(frames));
      stamp in t && Noon in t[stamp] && t[stamp][Noon] == NoonFlag(stamp)
  {
    var g := frames[j];
    assert WellFormed(g) && g.columns[|f.columns|] == Noon by {
      AddNoonWellFormed(f);
    }
    FilledCell(frames, j, stamp, |f.columns|);
    assert g.rows[x].stamp == stamp && g.rows[x].values[|f.columns|] == NoonFlag(stamp);
  }

  /** The noon cell at a datetime `f` has no row for is 0. */
  lemma NoonCellAbsent(frames: seq<Frame>, j: nat, f: Frame, stamp: DateTime)
    requires DisjointColumns(frames) && j < |frames| && WellFormed(f) && Noon !in f.columns
    requires frames[j] == AddNoon(f) && stamp in StampsOf(frames)
    requires forall x :: 0 <= x < |f.rows| ==> f.rows[x].stamp != stamp
    ensures var t := FillNa(Concat(frames));
      stamp in t && Noon in t[stamp] && t[stamp][Noon] == 0.0
  {
    var g := frames[j];
    assert WellFormed(g) && g.columns[|f.columns|] == Noon by {
      AddNoonWellFormed(f);
    }
    FilledCell(frames, j, stamp, |f.columns|);
  }
}
