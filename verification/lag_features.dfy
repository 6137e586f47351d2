/** The supervised-learning table built from a demand series: three
    shifted copies of the demand column are added beside it, and every row
    that has a missing cell is dropped. A row that survives carries the
    position it had in the series, as the data frame's index does. */
module LagFeatures {
  import opened Wrappers

  /** A demand series, one reading per row in date order; None is a missing
      (NaN) reading. */
  type Series = seq<Option<real>>

  /** The number of lag columns, which is also the width of a feature vector. */
  const LagCount: nat := 3

  /** The value `k` places before position `i`, or None when the series does
      not reach that far back. */
  function Back(v: Series, i: nat, k: nat): Option<real>
    requires i < |v|
  {
    if k <= i then v[i - k] else None
  }

  /** A column moved `k` places later: the first `k` cells become missing and
      the last `k` values fall off the end, so the length is unchanged. */
  function Shift(v: Series, k: nat): (s: Series)
    ensures |s| == |v|
    ensures forall i :: 0 <= i < |s| ==> s[i] == Back(v, i, k)
  {
    var m := if k < |v| then k else |v|;
    seq(m, _ => None) + v[..|v| - m]
  }

  /** One row of the frame after the lag columns are added. */
  datatype FrameRow = FrameRow(demand: Option<real>, lag1: Option<real>, lag2: Option<real>, lag3: Option<real>)

  /** A frame row with no missing cell. */
  predicate Complete(r: FrameRow)
  {
    r.demand.Some? && r.lag1.Some? && r.lag2.Some? && r.lag3.Some?
  }

  /** The frame with the columns lag_1, lag_2 and lag_3 beside the demand. */
  function AddLags(v: Series): (f: seq<FrameRow>)
    ensures |f| == |v|
    ensures forall i :: 0 <= i < |f| ==>
      && f[i].demand == Back(v, i, 0)
      && f[i].lag1 == Back(v, i, 1)
      && f[i].lag2 == Back(v, i, 2)
      && f[i].lag3 == Back(v, i, 3)
  {
    var s1 := Shift(v, 1);
    var s2 := Shift(v, 2);
    var s3 := Shift(v, 3);
    seq(|v|, i requires 0 <= i < |v| => FrameRow(v[i], s1[i], s2[i], s3[i]))
  }

  /** A training row: its position in the series, its three lags and its label. */
  datatype LagRow = LagRow(index: nat, lag1: real, lag2: real, lag3: real, demand: real)

  /** The frame row `r` has exactly the cells of the training row `row`. */
  predicate Keeps(row: LagRow, r: FrameRow)
  {
    && r.demand == Some(row.demand)
    && r.lag1 == Some(row.lag1)
    && r.lag2 == Some(row.lag2)
    && r.lag3 == Some(row.lag3)
  }

  /** The index positions of `rows` are strictly increasing. */
  predicate Ascending(rows: seq<LagRow>)
  {
    forall k, l :: 0 <= k < l < |rows| ==> rows[k].index < rows[l].index
  }

  /** Some row of `rows` came from position `i`. */
  predicate HasIndex(rows: seq<LagRow>, i: nat)
  {
    exists k :: 0 <= k < |rows| && rows[k].index == i
  }

  /** Drops every frame row with a missing cell, keeping the survivors in
      frame order together with their original positions. */
  function DropNa(f: seq<FrameRow>): (rows: seq<LagRow>)
    ensures |rows| <= |f|
    ensures forall k :: 0 <= k < |rows| ==> rows[k].index < |f| && Keeps(rows[k], f[rows[k].index])
    ensures forall i :: 0 <= i < |f| && Complete(f[i]) ==> HasIndex(rows, i)
    ensures Ascending(rows)
  {
    if |f| == 0 then []
    else
      var n := |f| - 1;
      var r := f[n];
      var kept := DropNa(f[..n]);
      var rows := if Complete(r)
                  then kept + [LagRow(n, r.lag1.value, r.lag2.value, r.lag3.value, r.demand.value)]
                  else kept;
      AppendKeepsIndices(kept, rows[|kept|..]);
      assert rows == kept + rows[|kept|..];
      assert Complete(r) ==> rows[|kept|].index == n;
      rows
  }

  /** Appending rows keeps every position already present. */
  lemma AppendKeepsIndices(kept: seq<LagRow>, extra: seq<LagRow>)
    ensures forall i :: HasIndex(kept, i) ==> HasIndex(kept + extra, i)
  {
    forall i | HasIndex(kept, i)
      ensures HasIndex(kept + extra, i)
    {
      var k :| 0 <= k < |kept| && kept[k].index == i;
      assert (kept + extra)[k] == kept[k];
    }
  }

  /** Position `i` has its own reading and the three readings before it. */
  predicate Survives(v: Series, i: nat)
  {
    && 3 <= i < |v|
    && v[i].Some? && v[i - 1].Some? && v[i - 2].Some? && v[i - 3].Some?
  }

  /** The training row position `i` yields; only meaningful when it survives. */
  function RowAt(v: Series, i: nat): LagRow
    requires Survives(v, i)
  {
    LagRow(i, v[i - 1].value, v[i - 2].value, v[i - 3].value, v[i].value)
  }

  /** `row` is the row of a surviving position: lag_k is the reading k rows
      before it and the label is its own reading. */
  predicate FromSeries(v: Series, row: LagRow)
  {
    Survives(v, row.index) && row == RowAt(v, row.index)
  }

  /** What the lag table of `v` must be: rows drawn from the series, one for
      each surviving position and no other, in series order. */
  predicate IsLagTable(v: Series, rows: seq<LagRow>)
  {
    && (forall k :: 0 <= k < |rows| ==> FromSeries(v, rows[k]))
    && (forall i :: 0 <= i < |v| ==> (Survives(v, i) <==> HasIndex(rows, i)))
    && Ascending(rows)
  }

  /** The shift-then-dropna lag table of a series. */
  function LagTable(v: Series): (rows: seq<LagRow>)
    ensures IsLagTable(v, rows)
  {
    var f := AddLags(v);
    var rows := DropNa(f);
    assert forall k :: 0 <= k < |rows| ==> FromSeries(v, rows[k]) by {
      forall k | 0 <= k < |rows|
        ensures FromSeries(v, rows[k])
      {
        var i := rows[k].index;
        assert Keeps(rows[k], f[i]);
        assert 1 <= i && 2 <= i && 3 <= i;
      }
    }
    assert forall i :: 0 <= i < |v| ==> (Survives(v, i) <==> HasIndex(rows, i)) by {
      forall i | 0 <= i < |v|
        ensures Survives(v, i) <==> HasIndex(rows, i)
      {
        if Survives(v, i) {
          assert Complete(f[i]);
        }
        if HasIndex(rows, i) {
          var k :| 0 <= k < |rows| && rows[k].index == i;
          assert Keeps(rows[k], f[i]);
        }
      }
    }
    rows
  }

  /** `a` and `b` hold rows from the same set of positions. */
  predicate SamePositions(a: seq<LagRow>, b: seq<LagRow>)
  {
    && (forall k :: 0 <= k < |a| ==> HasIndex(b, a[k].index))
    && (forall l :: 0 <= l < |b| ==> HasIndex(a, b[l].index))
  }

  /** Sequences over the same positions are empty together. */
  lemma EmptyTogether(a: seq<LagRow>, b: seq<LagRow>)
    requires SamePositions(a, b)
    ensures |a| == 0 <==> |b| == 0
  {
    if |a| > 0 {
      assert HasIndex(b, a[0].index);
    }
    if |b| > 0 {
      assert HasIndex(a, b[0].index);
    }
  }

  /** Two non-empty ascending sequences over the same positions start at the
      same position. */
  lemma FirstPositionsAgree(a: seq<LagRow>, b: seq<LagRow>)
    requires |a| > 0 && |b| > 0
    requires Ascending(a) && Ascending(b)
    requires SamePositions(a, b)
    ensures a[0].index == b[0].index
  {
  }

  /** Once equal heads are removed, the tails still share their positions. */
  lemma TailsSamePositions(a: seq<LagRow>, b: seq<LagRow>)
    requires |a| > 0 && |b| > 0 && a[0].index == b[0].index
    requires Ascending(a) && Ascending(b)
    requires SamePositions(a, b)
    ensures SamePositions(a[1..], b[1..])
  {
  }

  /** Rows at the same position agree between `a` and `b`. */
  predicate AgreeByPosition(a: seq<LagRow>, b: seq<LagRow>)
  {
    forall k, l :: 0 <= k < |a| && 0 <= l < |b| && a[k].index == b[l].index ==> a[k] == b[l]
  }

  /** Two ascending row sequences with the same positions, whose rows at the
      same position agree, are equal. */
  lemma {:induction false} AscendingUnique(a: seq<LagRow>, b: seq<LagRow>)
    requires Ascending(a) && Ascending(b)
    requires SamePositions(a, b)
    requires AgreeByPosition(a, b)
    ensures a == b
    decreases |a|
  {
    EmptyTogether(a, b);
    if |a| > 0 {
      FirstPositionsAgree(a, b);
      TailsSamePositions(a, b);
      TailsAgree(a, b);
      AscendingUnique(a[1..], b[1..]);
      assert a == [a[0]] + a[1..] && b == [b[0]] + b[1..];
    }
  }

  /** Dropping the first row keeps both sequences ascending and agreeing. */
  lemma TailsAgree(a: seq<LagRow>, b: seq<LagRow>)
    requires |a| > 0 && |b| > 0
    requires Ascending(a) && Ascending(b)
    requires AgreeByPosition(a, b)
    ensures Ascending(a[1..]) && Ascending(b[1..])
    ensures AgreeByPosition(a[1..], b[1..])
  {
  }

  /** The lag-table description determines the table: any row sequence that
      meets it is the shift-then-dropna table. */
  lemma LagTableIsUnique(v: Series, rows: seq<LagRow>)
    requires IsLagTable(v, rows)
    ensures rows == LagTable(v)
  {
    var t := LagTable(v);
    forall k | 0 <= k < |rows|
      ensures HasIndex(t, rows[k].index)
    {
      assert HasIndex(rows, rows[k].index);
    }
    forall l | 0 <= l < |t|
      ensures HasIndex(rows, t[l].index)
    {
      assert HasIndex(t, t[l].index);
    }
    AscendingUnique(rows, t);
  }

  /** A series with no missing reading yields one row for each position from
      3 onward, so max(0, n - 3) rows for a series of length n. */
  lemma NoMissingTable(v: Series)
    requires forall i :: 0 <= i < |v| ==> v[i].Some?
    ensures |LagTable(v)| == (if |v| < 3 then 0 else |v| - 3)
    ensures forall k :: 0 <= k < |LagTable(v)| ==> LagTable(v)[k].index == k + 3
  {
    var n := if |v| < 3 then 0 else |v| - 3;
    var rows := seq(n, k requires 0 <= k < n => RowAt(v, k + 3));
    assert forall k :: 0 <= k < |rows| ==> rows[k].index == k + 3 && FromSeries(v, rows[k]);
    assert Ascending(rows);
    forall i | 0 <= i < |v|
      ensures Survives(v, i) <==> HasIndex(rows, i)
    {
      if 3 <= i {
        assert rows[i - 3].index == i;
      }
    }
    LagTableIsUnique(v, rows);
  }

  /** A missing reading at position `j` removes the rows of positions j to j+3:
      the one whose label it is and the three that use it as a lag. */
  lemma MissingReadingDropsWindow(v: Series, j: nat)
    requires j < |v| && v[j].None?
    ensures forall k :: 0 <= k < |LagTable(v)| ==> !(j <= LagTable(v)[k].index <= j + 3)
  {
  }
}
