/** Offline training: when the cleaned demand file exists, its series is
    turned into a lag table, split into a feature matrix X and a label vector
    y, and the regressor fitted to them is written to the model file. When the
    data file is missing, training stops before the model file is written. */
module Training {
  import opened Wrappers
  import opened LagFeatures

  /** What the model file holds. The regressor is a forest with a fixed
      number of trees and a fixed seed, so it is a deterministic function of
      the rows it was fitted on; the artifact is identified with those rows:
      the surviving positions, the feature matrix and the labels. */
  datatype TrainingRun = TrainingRun(index: seq<nat>, features: seq<seq<real>>, labels: seq<real>)

  /** The feature vector of a lag row: lag_1, lag_2, lag_3 in that order. */
  function FeatureVector(row: LagRow): (x: seq<real>)
    ensures |x| == LagCount
  {
    [row.lag1, row.lag2, row.lag3]
  }

  /** X row k is the feature vector of lag row k, y[k] is its label, and the
      positions are kept beside them. */
  predicate IsSplitOf(rows: seq<LagRow>, run: TrainingRun)
  {
    && |run.index| == |run.features| == |run.labels| == |rows|
    && forall k :: 0 <= k < |rows| ==>
         && run.index[k] == rows[k].index
         && run.features[k] == FeatureVector(rows[k])
         && run.labels[k] == rows[k].demand
  }

  /** Splits a lag table into X and y, keeping the row positions. */
  function Split(rows: seq<LagRow>): (run: TrainingRun)
    ensures IsSplitOf(rows, run)
  {
    if |rows| == 0 then TrainingRun([], [], [])
    else
      var rest := Split(rows[1..]);
      TrainingRun([rows[0].index] + rest.index,
                   [FeatureVector(rows[0])] + rest.features,
                   [rows[0].demand] + rest.labels)
  }

  /** The run's columns have one entry per row and every feature vector has
      width 3. */
  predicate WellShaped(run: TrainingRun)
  {
    && |run.index| == |run.features| == |run.labels|
    && forall k :: 0 <= k < |run.features| ==> |run.features[k]| == LagCount
  }

  /** Reassembles the lag rows from X, y and the positions. */
  function Join(run: TrainingRun): (rows: seq<LagRow>)
    requires WellShaped(run)
    ensures |rows| == |run.index|
  {
    seq(|run.index|, k requires 0 <= k < |run.index| =>
      LagRow(run.index[k], run.features[k][0], run.features[k][1], run.features[k][2], run.labels[k]))
  }

  /** Splitting loses nothing: the lag rows come back from X, y and the
      positions, so every label stays beside its own features. */
  lemma SplitRoundTrip(rows: seq<LagRow>)
    ensures WellShaped(Split(rows))
    ensures Join(Split(rows)) == rows
  {
  }

  /** Every row of `run` comes from a surviving position of `v`: its feature
      vector has width 3 and holds the readings one, two and three rows before
      that position, and its label is the reading at the position itself. */
  predicate RowsFromSeries(v: Series, run: TrainingRun)
  {
    && |run.index| == |run.features| == |run.labels|
    && forall k :: 0 <= k < |run.index| ==>
         && 3 <= run.index[k] < |v|
         && |run.features[k]| == LagCount
         && v[run.index[k]] == Some(run.labels[k])
         && v[run.index[k] - 1] == Some(run.features[k][0])
         && v[run.index[k] - 2] == Some(run.features[k][1])
         && v[run.index[k] - 3] == Some(run.features[k][2])
  }

  /** Every surviving position of `v` has a row in `run`. */
  predicate CoversSurvivors(v: Series, run: TrainingRun)
  {
    forall i :: 0 <= i < |v| && Survives(v, i) ==> i in run.index
  }

  /** The rows of `run` are in series order, each position once. */
  predicate InSeriesOrder(run: TrainingRun)
  {
    forall k, l :: 0 <= k < l < |run.index| ==> run.index[k] < run.index[l]
  }

  /** `run` was fitted on exactly the lag rows of `v`, in series order. */
  predicate FitsSeries(v: Series, run: TrainingRun)
  {
    RowsFromSeries(v, run) && CoversSurvivors(v, run) && InSeriesOrder(run)
  }

  /** Some position of `v` has its reading and the three before it, so the
      lag table is not empty. */
  predicate HasWindow(v: Series)
  {
    exists i :: 0 <= i < |v| && Survives(v, i)
  }

  /** One run of the training script. `dataFile` is the cleaned series, or
      None when the file does not exist; `modelFile` is the model file before
      the run and the result is the model file after it. Fitting on zero rows
      raises in the regressor library, which ends the run before the model
      file is written. */
  function TrainDemandPredictor(dataFile: Option<Series>, modelFile: Option<TrainingRun>): (after: Option<TrainingRun>)
    ensures dataFile.None? ==> after == modelFile
    ensures dataFile.Some? && !HasWindow(dataFile.value) ==> after == modelFile
    ensures dataFile.Some? && HasWindow(dataFile.value) ==>
      after.Some? && |after.value.index| > 0 && FitsSeries(dataFile.value, after.value)
  {
    match dataFile
    case None => modelFile
    case Some(v) =>
      var rows := LagTable(v);
      WindowIffRows(v, rows);
      if |rows| == 0 then modelFile
      else
        SplitFitsSeries(v, rows);
        Some(Split(rows))
  }

  /** The lag table is empty exactly when no position has a full window. */
  lemma WindowIffRows(v: Series, rows: seq<LagRow>)
    requires IsLagTable(v, rows)
    ensures HasWindow(v) <==> |rows| > 0
  {
    if HasWindow(v) {
      var i :| 0 <= i < |v| && Survives(v, i);
      assert HasIndex(rows, i);
    }
    if |rows| > 0 {
      assert FromSeries(v, rows[0]);
      assert Survives(v, rows[0].index);
    }
  }

  /** A series of fewer than four readings never has a full window, so
      training on it leaves the model file as it was. */
  lemma ShortSeriesKeepsModelFile(v: Series, modelFile: Option<TrainingRun>)
    requires |v| < 4
    ensures TrainDemandPredictor(Some(v), modelFile) == modelFile
  {
  }

  /** Splitting the lag table of `v` gives a run fitted on `v`. */
  lemma SplitFitsSeries(v: Series, rows: seq<LagRow>)
    requires IsLagTable(v, rows)
    ensures FitsSeries(v, Split(rows))
  {
    var run := Split(rows);
    SplitRowsFromSeries(v, rows, run);
    SplitCoversSurvivors(v, rows, run);
    SplitInSeriesOrder(rows, run);
  }

  /** Rows drawn from `v` split into X and y cells drawn from `v`. */
  lemma SplitRowsFromSeries(v: Series, rows: seq<LagRow>, run: TrainingRun)
    requires forall k :: 0 <= k < |rows| ==> FromSeries(v, rows[k])
    requires IsSplitOf(rows, run)
    ensures RowsFromSeries(v, run)
  {
    forall k | 0 <= k < |run.index|
      ensures && 3 <= run.index[k] < |v|
              && v[run.index[k]] == Some(run.labels[k])
              && v[run.index[k] - 1] == Some(run.features[k][0])
              && v[run.index[k] - 2] == Some(run.features[k][1])
              && v[run.index[k] - 3] == Some(run.features[k][2])
    {
      RowFromSeries(v, rows[k], run.index[k], run.features[k], run.labels[k]);
    }
  }

  /** A position with a lag row keeps its row through the split. */
  lemma SplitCoversSurvivors(v: Series, rows: seq<LagRow>, run: TrainingRun)
    requires forall i :: 0 <= i < |v| && Survives(v, i) ==> HasIndex(rows, i)
    requires IsSplitOf(rows, run)
    ensures CoversSurvivors(v, run)
  {
    forall i | 0 <= i < |v| && Survives(v, i)
      ensures i in run.index
    {
      assert HasIndex(rows, i);
      var k :| 0 <= k < |rows| && rows[k].index == i;
      assert run.index[k] == i;
    }
  }

  /** The split keeps the rows' order. */
  lemma SplitInSeriesOrder(rows: seq<LagRow>, run: TrainingRun)
    requires Ascending(rows)
    requires IsSplitOf(rows, run)
    ensures InSeriesOrder(run)
  {
  }

  /** The cells a lag row of `v` puts in X and y are the readings it came from. */
  lemma RowFromSeries(v: Series, row: LagRow, i: nat, x: seq<real>, y: real)
    requires FromSeries(v, row)
    requires i == row.index && x == FeatureVector(row) && y == row.demand
    ensures 3 <= i < |v| && |x| == LagCount
    ensures v[i] == Some(y) && v[i - 1] == Some(x[0]) && v[i - 2] == Some(x[1]) && v[i - 3] == Some(x[2])
  {
  }

}
