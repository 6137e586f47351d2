/** The prediction service: the model file is loaded once when the service
    starts, and the `/predict` handler checks that a model is loaded, checks
    that exactly three readings were sent, and passes them to the regressor as
    one feature row, in the order given. */
module PredictApi {
  import opened Wrappers
  import opened LagFeatures
  import opened Training

  /** The fitted regressor applied to one feature row (lag_1, lag_2, lag_3). */
  type Predictor = (real, real, real) -> real

  const Unit: string := "MW / Units"
  const Algorithm: string := "Random Forest Regressor"
  const ModelMissing: string := "Model file not found. Run train_model.py first."
  const WrongArity: string := "Please provide exactly 3 historical data points."

  /** The handler's reply: the response body, or an HTTP error with its detail. */
  datatype Response =
    | Ok(predictedDemand: real, unit: string, algorithm: string)
    | Err(code: int, detail: string)

  /** Start-up: the model file, if it exists, is loaded into the predictor the
      service keeps for its whole life; otherwise the service has no model.
      `fit` stands for fitting the forest on a run and reading it back. */
  function LoadModel(modelFile: Option<TrainingRun>, fit: TrainingRun -> Predictor): (model: Option<Predictor>)
    ensures model.None? <==> modelFile.None?
    ensures modelFile.Some? ==> model == Some(fit(modelFile.value))
  {
    match modelFile
    case None => None
    case Some(run) => Some(fit(run))
  }

  /** The request history as a batch of one row. */
  function Reshape(history: seq<real>): (batch: seq<seq<real>>)
    ensures |batch| == 1 && batch[0] == history
  {
    [history]
  }

  /** The regressor applied to each row of a batch of width-3 rows. */
  function PredictBatch(p: Predictor, batch: seq<seq<real>>): (out: seq<real>)
    requires forall k :: 0 <= k < |batch| ==> |batch[k]| == LagCount
    ensures |out| == |batch|
    ensures forall k :: 0 <= k < |batch| ==> out[k] == p(batch[k][0], batch[k][1], batch[k][2])
  {
    if |batch| == 0 then []
    else [p(batch[0][0], batch[0][1], batch[0][2])] + PredictBatch(p, batch[1..])
  }

  /** The `/predict` handler. `round2` stands for rounding the prediction to
      two decimal places as a float. */
  function HandlePredict(model: Option<Predictor>, history: seq<real>, round2: real -> real): (r: Response)
    ensures r.Ok? <==> model.Some? && |history| == LagCount
    ensures model.None? ==> r == Err(500, ModelMissing)
    ensures model.Some? && |history| != LagCount ==> r == Err(400, WrongArity)
    ensures r.Ok? ==>
      && r.unit == Unit
      && r.algorithm == Algorithm
      && r.predictedDemand == round2(model.value(history[0], history[1], history[2]))
  {
    if model.None? then Err(500, ModelMissing)
    else if |history| != LagCount then Err(400, WrongArity)
    else
      var input := Reshape(history);
      var prediction := PredictBatch(model.value, input)[0];
      Ok(round2(prediction), Unit, Algorithm)
  }

  /** With a model loaded but the wrong number of readings, the reply does not
      depend on the model at all: the regressor is never consulted. */
  lemma WrongArityNeverConsultsModel(p: Predictor, q: Predictor, history: seq<real>, round2: real -> real)
    requires |history| != LagCount
    ensures HandlePredict(Some(p), history, round2) == HandlePredict(Some(q), history, round2)
  {
  }

  /** With three readings, the reply depends on the regressor only through
      its value on the readings exactly as sent. */
  lemma ModelSeesHistoryAsSent(p: Predictor, q: Predictor, history: seq<real>, round2: real -> real)
    requires |history| == LagCount
    requires p(history[0], history[1], history[2]) == q(history[0], history[1], history[2])
    ensures HandlePredict(Some(p), history, round2) == HandlePredict(Some(q), history, round2)
  {
  }

  /** The last three readings of a series, newest first. */
  function NewestFirst(v: Series): (h: seq<real>)
    requires |v| >= 3 && v[|v| - 1].Some? && v[|v| - 2].Some? && v[|v| - 3].Some?
  {
    [v[|v| - 1].value, v[|v| - 2].value, v[|v| - 3].value]
  }

  /** A client that sends the last three readings newest first gets the
      regressor's answer on exactly the feature row training would build for
      the row that follows the series, whatever its reading turns out to be. */
  lemma NewestFirstMatchesTraining(v: Series, next: real, p: Predictor, round2: real -> real)
    requires |v| >= 3 && v[|v| - 1].Some? && v[|v| - 2].Some? && v[|v| - 3].Some?
    ensures var t := LagTable(v + [Some(next)]);
      && |t| > 0
      && t[|t| - 1].index == |v|
      && HandlePredict(Some(p), NewestFirst(v), round2)
         == Ok(round2(p(t[|t| - 1].lag1, t[|t| - 1].lag2, t[|t| - 1].lag3)), Unit, Algorithm)
  {
  }

  /** The last three readings of a series, oldest first. */
  function OldestFirst(v: Series): (h: seq<real>)
    requires |v| >= 3 && v[|v| - 1].Some? && v[|v| - 2].Some? && v[|v| - 3].Some?
  {
    [v[|v| - 3].value, v[|v| - 2].value, v[|v| - 1].value]
  }

  /** A client that sends the last three readings oldest first gets the
      regressor's answer on the next training row with its lags reversed:
      lag_3 arrives where lag_1 is expected, and lag_1 where lag_3 is. */
  lemma OldestFirstReversesLags(v: Series, next: real, p: Predictor, round2: real -> real)
    requires |v| >= 3 && v[|v| - 1].Some? && v[|v| - 2].Some? && v[|v| - 3].Some?
    ensures var t := LagTable(v + [Some(next)]);
      && |t| > 0
      && t[|t| - 1].index == |v|
      && HandlePredict(Some(p), OldestFirst(v), round2)
         == Ok(round2(p(t[|t| - 1].lag3, t[|t| - 1].lag2, t[|t| - 1].lag1)), Unit, Algorithm)
  {
    NewestFirstMatchesTraining(v, next, p, round2);
  }

  /** The handler does not reorder: readings sent oldest first reach the
      regressor oldest first, so lag_1 receives the oldest reading although
      training put the newest one there. */
  lemma OldestFirstIsNotReordered()
    ensures var v := [Some(1.0), Some(2.0), Some(3.0)];
      var lag1Only: Predictor := (a, b, c) => a;
      var exact := (x: real) => x;
      && HandlePredict(Some(lag1Only), [1.0, 2.0, 3.0], exact).predictedDemand == 1.0
      && HandlePredict(Some(lag1Only), NewestFirst(v), exact).predictedDemand == 3.0
  {
  }

  /** The service answering a sequence of requests with the model bound at
      start-up. */
  function Serve(model: Option<Predictor>, requests: seq<seq<real>>, round2: real -> real): (responses: seq<Response>)
    ensures |responses| == |requests|
    ensures forall k :: 0 <= k < |requests| ==> responses[k] == HandlePredict(model, requests[k], round2)
  {
    if |requests| == 0 then []
    else [HandlePredict(model, requests[0], round2)] + Serve(model, requests[1..], round2)
  }

  /** No request changes what later requests see: each reply is the one the
      request would get if it were the only one. */
  lemma {:induction false} RepliesAreIndependent(model: Option<Predictor>, requests: seq<seq<real>>, round2: real -> real)
    ensures forall k :: 0 <= k < |requests| ==>
      Serve(model, requests, round2)[k] == Serve(model, [requests[k]], round2)[0]
  {
  }

  /** Without a data file, a fresh installation writes no model, so the
      service starts without one and refuses every request with 500. */
  lemma NoDataNoService(fit: TrainingRun -> Predictor, requests: seq<seq<real>>, round2: real -> real)
    ensures TrainDemandPredictor(None, None) == None
    ensures LoadModel(TrainDemandPredictor(None, None), fit) == None
    ensures forall k :: 0 <= k < |requests| ==>
      Serve(LoadModel(TrainDemandPredictor(None, None), fit), requests, round2)[k] == Err(500, ModelMissing)
  {
  }

  /** When no position of the series has a full window, a fresh
      installation still has no model file after training, so the service
      refuses every request with 500. */
  lemma NoWindowNoService(v: Series, fit: TrainingRun -> Predictor, history: seq<real>, round2: real -> real)
    requires !HasWindow(v)
    ensures TrainDemandPredictor(Some(v), None) == None
    ensures HandlePredict(LoadModel(TrainDemandPredictor(Some(v), None), fit), history, round2) == Err(500, ModelMissing)
  {
  }

  /** After training on a series with at least one full window, the service
      predicts with the regressor fitted on that series' lag table. */
  lemma TrainThenServe(v: Series, prior: Option<TrainingRun>, fit: TrainingRun -> Predictor,
                       history: seq<real>, round2: real -> real)
    requires HasWindow(v)
    requires |history| == LagCount
    ensures var file := TrainDemandPredictor(Some(v), prior);
      && file.Some?
      && FitsSeries(v, file.value)
      && HandlePredict(LoadModel(file, fit), history, round2)
         == Ok(round2(fit(file.value)(history[0], history[1], history[2])), Unit, Algorithm)
  {
  }
}
