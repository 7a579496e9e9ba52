/** The slice of pandas that `get_df` uses, on frames whose cells are kept as
    text: assigning a scalar to a column, renaming the `Unnamed: 0` column,
    and concatenating frames row-wise with a fresh row index. */
module Frames {
  import opened Results

  /** One row of cells, positionally aligned with its frame's columns. */
  type Row = seq<string>

  /** A frame: a header of column names and its rows. */
  datatype Frame = Frame(columns: seq<string>, rows: seq<Row>)

  /** Every row has one cell per column. */
  predicate Rectangular(f: Frame) {
    forall i :: 0 <= i < |f.rows| ==> |f.rows[i]| == |f.columns|
  }

  /** The frames `read_csv` produces and the loader passes along. */
  type DataFrame = f: Frame | Rectangular(f) witness Frame([], [])

  /** The two columns the loader adds, and the rename it performs. */
  const ActivityColumn: string := "activity"
  const SubjectColumn: string := "subject_id"
  const IndexColumn: string := "Unnamed: 0"
  const TimeStepColumn: string := "time_step"

  /** Position of the first column called `name`. */
  function ColumnIndex(columns: seq<string>, name: string): (j: nat)
    requires name in columns
    ensures j < |columns| && columns[j] == name
    ensures forall k :: 0 <= k < j ==> columns[k] != name
  {
    if columns[0] == name then 0 else 1 + ColumnIndex(columns[1..], name)
  }

  /** The value a row holds under `name` (its first column of that name), or
      `None` when the row has no such column. `None` is what pandas shows as a
      missing value once frames with different headers are concatenated. */
  function Cell(columns: seq<string>, row: Row, name: string): Option<string> {
    if name in columns && ColumnIndex(columns, name) < |row| then
      Some(row[ColumnIndex(columns, name)])
    else
      None
  }

  /** Two headers that put column `x` of the first exactly where the second
      puts column `y`, the second possibly being longer but without `y` in its
      extra positions, find them at the same index. */
  lemma SamePositions(a: seq<string>, x: string, b: seq<string>, y: string)
    requires |a| <= |b|
    requires forall j :: 0 <= j < |a| ==> (a[j] == x <==> b[j] == y)
    requires forall j :: |a| <= j < |b| ==> b[j] != y
    ensures x in a <==> y in b
    ensures x in a ==> ColumnIndex(a, x) == ColumnIndex(b, y)
  {
    if x in a {
      var j := ColumnIndex(a, x);
      assert b[j] == y;
      var k := ColumnIndex(b, y);
      assert k <= j;
    }
    if y in b {
      var k := ColumnIndex(b, y);
      assert k < |a| && a[k] == x;
    }
  }

  /** pandas' `df[name] = value` with a scalar `value`: every column called
      `name` is overwritten in place, or, when there is none, a new column is
      appended at the end. Either way each row then reads `value` under
      `name` and everything else reads as before. */
  function SetColumn(f: DataFrame, name: string, value: string): (g: DataFrame)
    ensures |g.rows| == |f.rows|
    ensures |f.columns| <= |g.columns| <= |f.columns| + 1
    ensures g.columns[..|f.columns|] == f.columns
    ensures name in f.columns ==> g.columns == f.columns
    ensures name in g.columns
    ensures forall i :: 0 <= i < |g.rows| ==> Cell(g.columns, g.rows[i], name) == Some(value)
    ensures forall i, c :: 0 <= i < |g.rows| && c != name ==>
      Cell(g.columns, g.rows[i], c) == Cell(f.columns, f.rows[i], c)
  {
    var g: DataFrame :=
      if name in f.columns then
        Frame(f.columns, seq(|f.rows|, i requires 0 <= i < |f.rows| =>
          seq(|f.columns|, j requires 0 <= j < |f.columns| =>
            if f.columns[j] == name then value else f.rows[i][j])))
      else
        Frame(f.columns + [name], seq(|f.rows|, i requires 0 <= i < |f.rows| => f.rows[i] + [value]));
    forall i, c | 0 <= i < |g.rows| && c != name
      ensures Cell(g.columns, g.rows[i], c) == Cell(f.columns, f.rows[i], c)
    {
      SamePositions(f.columns, c, g.columns, c);
    }
    forall i | 0 <= i < |g.rows|
      ensures Cell(g.columns, g.rows[i], name) == Some(value)
    {
      assert name in g.columns;
    }
    g
  }

  /** The rename applied to one column name. */
  function RenameColumn(c: string): string {
    if c == IndexColumn then TimeStepColumn else c
  }

  /** `df.rename(columns={'Unnamed: 0': 'time_step'})`: only columns named
      exactly `Unnamed: 0` change, to `time_step`; the rows are untouched. */
  function RenameIndexColumn(f: DataFrame): (g: DataFrame)
    ensures g.rows == f.rows
    ensures |g.columns| == |f.columns|
    ensures forall j :: 0 <= j < |f.columns| && f.columns[j] != IndexColumn ==> g.columns[j] == f.columns[j]
    ensures forall j :: 0 <= j < |f.columns| && f.columns[j] == IndexColumn ==> g.columns[j] == TimeStepColumn
    ensures IndexColumn !in g.columns
    ensures IndexColumn !in f.columns ==> g == f
  {
    var g := Frame(seq(|f.columns|, j requires 0 <= j < |f.columns| => RenameColumn(f.columns[j])), f.rows);
    assert IndexColumn !in f.columns ==> g.columns == f.columns;
    g
  }

  /** Reading a renamed frame: `Unnamed: 0` is gone, `time_step` reads what
      `Unnamed: 0` held when the header had no `time_step` of its own (and
      reads as before when there was no `Unnamed: 0`), and every other column
      reads as before. */
  lemma RenameCells(f: DataFrame, i: nat)
    requires i < |f.rows|
    ensures Cell(RenameIndexColumn(f).columns, f.rows[i], IndexColumn) == None
    ensures forall c :: c != IndexColumn && c != TimeStepColumn ==>
      Cell(RenameIndexColumn(f).columns, f.rows[i], c) == Cell(f.columns, f.rows[i], c)
    ensures IndexColumn in f.columns && TimeStepColumn !in f.columns ==>
      Cell(RenameIndexColumn(f).columns, f.rows[i], TimeStepColumn) == Cell(f.columns, f.rows[i], IndexColumn)
    ensures IndexColumn !in f.columns ==>
      Cell(RenameIndexColumn(f).columns, f.rows[i], TimeStepColumn) == Cell(f.columns, f.rows[i], TimeStepColumn)
  {
    var g := RenameIndexColumn(f);
    forall c | c != IndexColumn && c != TimeStepColumn
      ensures Cell(g.columns, f.rows[i], c) == Cell(f.columns, f.rows[i], c)
    {
      SamePositions(f.columns, c, g.columns, c);
    }
    if TimeStepColumn !in f.columns {
      SamePositions(f.columns, IndexColumn, g.columns, TimeStepColumn);
    }
  }

  /** Applying the rename twice changes nothing more. */
  lemma RenameIdempotent(f: DataFrame)
    ensures RenameIndexColumn(RenameIndexColumn(f)) == RenameIndexColumn(f)
  {
  }

  /** One row of the output table, carrying the header of the frame it came from. */
  datatype Record = Record(columns: seq<string>, cells: Row) {
    /** The value of column `name` in this record, `None` where pandas would show a missing value. */
    function Get(name: string): Option<string> {
      Cell(columns, cells, name)
    }
  }

  /** The concatenated table: its rows in order, numbered 0, 1, 2, ... by position. */
  datatype Table = Table(records: seq<Record>)

  /** The rows of one frame as records. */
  function RecordsOf(f: DataFrame): (rs: seq<Record>)
    ensures |rs| == |f.rows|
    ensures forall i :: 0 <= i < |rs| ==> rs[i] == Record(f.columns, f.rows[i])
  {
    seq(|f.rows|, i requires 0 <= i < |f.rows| => Record(f.columns, f.rows[i]))
  }

  function Sum(xs: seq<nat>): nat {
    if |xs| == 0 then 0 else xs[0] + Sum(xs[1..])
  }

  /** The number of rows of each frame. */
  function RowCounts(frames: seq<DataFrame>): (counts: seq<nat>)
    ensures |counts| == |frames|
    ensures forall k :: 0 <= k < |frames| ==> counts[k] == |frames[k].rows|
  {
    seq(|frames|, k requires 0 <= k < |frames| => |frames[k].rows|)
  }

  /** `pd.concat(frames, ignore_index=True)`: the frames' rows one after the
      other, as many as all frames hold together. */
  function Concat(frames: seq<DataFrame>): (records: seq<Record>)
    ensures |records| == Sum(RowCounts(frames))
  {
    if |frames| == 0 then []
    else
      assert RowCounts(frames[1..]) == RowCounts(frames)[1..];
      RecordsOf(frames[0]) + Concat(frames[1..])
  }

  /** `p` comes strictly before `q` in (frame, row) order. */
  predicate Before(p: (nat, nat), q: (nat, nat)) {
    p.0 < q.0 || (p.0 == q.0 && p.1 < q.1)
  }

  function Shift(ps: seq<(nat, nat)>): (qs: seq<(nat, nat)>)
    ensures |qs| == |ps|
    ensures forall k :: 0 <= k < |ps| ==> qs[k] == (ps[k].0 + 1, ps[k].1)
  {
    seq(|ps|, k requires 0 <= k < |ps| => (ps[k].0 + 1, ps[k].1))
  }

  /** The rows of the first frame, all before the shifted positions of the
      remaining frames, keep strict (frame, row) order. */
  lemma OrderedPrepend(head: seq<(nat, nat)>, tail: seq<(nat, nat)>)
    requires forall k :: 0 <= k < |head| ==> head[k] == (0, k)
    requires forall k :: 0 <= k < |tail| ==> tail[k].0 >= 1
    requires forall k, l :: 0 <= k < l < |tail| ==> Before(tail[k], tail[l])
    ensures forall k, l :: 0 <= k < l < |head + tail| ==> Before((head + tail)[k], (head + tail)[l])
  {
    var ps := head + tail;
    forall k, l | 0 <= k < l < |ps|
      ensures Before(ps[k], ps[l])
    {
      if l < |head| {
        assert ps[k] == (0, k) && ps[l] == (0, l);
      } else if k < |head| {
        assert ps[k].0 == 0 && ps[l] == tail[l - |head|];
      } else {
        assert ps[k] == tail[k - |head|] && ps[l] == tail[l - |head|];
      }
    }
  }

  /** The positions of the `n` rows of frame 0. */
  function FirstFrame(n: nat): (ps: seq<(nat, nat)>)
    ensures |ps| == n
    ensures forall k :: 0 <= k < n ==> ps[k] == (0, k)
  {
    seq(n, i requires 0 <= i < n => (0 as nat, i as nat))
  }

  /** Every (frame, row) pair of frames with the given row counts, in
      traversal order: all rows of frame 0, then all rows of frame 1, ... */
  function Positions(counts: seq<nat>): (ps: seq<(nat, nat)>)
    ensures |ps| == Sum(counts)
    ensures forall k :: 0 <= k < |ps| ==> ps[k].0 < |counts| && ps[k].1 < counts[ps[k].0]
  {
    if |counts| == 0 then []
    else
      var head := FirstFrame(counts[0]);
      var rest := Positions(counts[1..]);
      var tail := Shift(rest);
      assert forall k :: 0 <= k < |tail| ==> 1 <= tail[k].0 < |counts| && tail[k].1 < counts[tail[k].0] by {
        forall k | 0 <= k < |tail|
          ensures 1 <= tail[k].0 < |counts| && tail[k].1 < counts[tail[k].0]
        {
          assert tail[k] == (rest[k].0 + 1, rest[k].1);
          assert counts[tail[k].0] == counts[1..][rest[k].0];
        }
      }
      head + tail
  }

  /** The enumeration is strictly increasing in (frame, row) order, so it
      lists every row once, frame after frame. */
  lemma {:induction false} PositionsOrdered(counts: seq<nat>)
    ensures forall k, l :: 0 <= k < l < |Positions(counts)| ==> Before(Positions(counts)[k], Positions(counts)[l])
  {
    if |counts| > 0 {
      PositionsOrdered(counts[1..]);
      var head := FirstFrame(counts[0]);
      var rest := Positions(counts[1..]);
      var tail := Shift(rest);
      assert Positions(counts) == head + tail;
      forall k, l | 0 <= k < l < |tail|
        ensures Before(tail[k], tail[l])
      {
        assert Before(rest[k], rest[l]);
      }
      OrderedPrepend(head, tail);
    }
  }

  /** Row `k` of a concatenation is row `Positions[k].1` of frame
      `Positions[k].0`: the output keeps every row, in traversal order. */
  lemma {:induction false} ConcatRows(frames: seq<DataFrame>)
    ensures var ps := Positions(RowCounts(frames));
      forall k :: 0 <= k < |ps| ==>
        Concat(frames)[k] == Record(frames[ps[k].0].columns, frames[ps[k].0].rows[ps[k].1])
  {
    if |frames| > 0 {
      var counts := RowCounts(frames);
      assert RowCounts(frames[1..]) == counts[1..];
      ConcatRows(frames[1..]);
      var ps := Positions(counts);
      var n := |frames[0].rows|;
      var rest := Positions(counts[1..]);
      forall k | 0 <= k < |ps|
        ensures Concat(frames)[k] == Record(frames[ps[k].0].columns, frames[ps[k].0].rows[ps[k].1])
      {
        if k >= n {
          assert ps[k] == (rest[k - n].0 + 1, rest[k - n].1);
          assert Concat(frames)[k] == Concat(frames[1..])[k - n];
        }
      }
    }
  }
}
