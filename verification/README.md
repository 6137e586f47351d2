# GridFlow demand forecaster: lag table and prediction gate

A Dafny model of the two pieces of logic in the GridFlow forecaster:

- **Lag-feature construction** in `scripts/train_model.py`. The training script reads the cleaned demand series,
  one reading per row in date order. It adds the columns `lag_1`, `lag_2` and `lag_3`, which are the demand
  shifted by one, two and three rows. It drops every row with a missing cell. It then splits the survivors into the feature matrix X
  (`lag_1, lag_2, lag_3`) and the label vector y (`demand_mw`), fits a Random Forest and writes it to the
  model file. If the data file is missing, it stops before the model file is written.
- **The `/predict` gate** in `scripts/app.py`. The service loads the model file once, at start-up, if the
  file exists. The handler checks two things in order. With no model, it answers 500. Without exactly three
  readings, it answers 400. Otherwise it passes the readings to the regressor as one row, in the order
  sent, and returns the rounded prediction with a fixed unit and algorithm name.

Modules:

- `Wrappers` (`wrappers.dfy`) holds `Option`.
- `LagFeatures` (`lag_features.dfy`) models the shift, dropna and lag table.
- `Training` (`training.dfy`) models the X/y split and the training run together with the model file.
- `PredictApi` (`predict_api.dfy`) models model loading, the handler and a service answering many requests.

Representation:

- A series is `seq<Option<real>>`, where `None` is a missing (NaN) reading.
- A surviving row keeps its position in the series, just as the data frame keeps its index after `dropna`.
- The fitted forest uses a fixed seed, so it is a deterministic function of its training rows. The model
  file is therefore represented by those rows (a `TrainingRun`).
- The regressor and the reload from disk are a parameter `fit: TrainingRun -> Predictor`.
- A `Predictor` is a function `(real, real, real) -> real` applied to `(lag_1, lag_2, lag_3)`.
- `round(float(p), 2)` is a parameter `round2: real -> real`.

The central result is `LagFeatures.LagTableIsUnique`. `IsLagTable` describes the table directly from the
series: every row is the row of a position that has its reading and the three before it, every such
position has a row, and the rows are in series order. Any sequence that meets this description is the
shift-then-dropna table. The exact row count for a series with no gaps follows from it
(`NoMissingTable`), and so does the link between the serving convention and the training rows
(`PredictApi.NewestFirstMatchesTraining`).

Facts about the code that the model keeps:

- `scripts/train_model.py` has no check of its own for an empty training set. On an empty lag table the library's fit raises before the dump, so the model file keeps its previous state (`TrainDemandPredictor`).
- `dropna` keeps the series order, and `LagTable` states that order.
- `lag_1` is the most recent reading, and the handler forwards the readings as sent. A client must therefore
  send the newest reading first. `OldestFirstReversesLags` shows that readings sent oldest first reach the
  regressor with the lags reversed.
- `scripts/dashboard.py:12` calls `/api/v1/full-analysis`, which `scripts/app.py` does not define.

## Model

| member | source | states |
|---|---|---|
| LagFeatures.Shift | scripts/train_model.py:21-23 | a shifted column has the series' length; cell i is the reading k rows earlier, and missing for the first k cells |
| LagFeatures.AddLags | scripts/train_model.py:21-23 | the frame has one row per reading; row i holds reading i and the readings 1, 2 and 3 rows earlier, missing where the series does not reach back |
| LagFeatures.DropNa | scripts/train_model.py:24 | dropna keeps exactly the frame rows with no missing cell, with their cells and positions, and never reorders them |
| LagFeatures.LagTable | scripts/train_model.py:21-24 | every surviving row is the row of a position i >= 3 with lag_k = v[i-k] and label v[i]; position i survives iff v[i], v[i-1], v[i-2] and v[i-3] are all present; survivors stay in series order |
| LagFeatures.LagTableIsUnique | scripts/train_model.py:21-24 | any row sequence meeting that description equals the shift-then-dropna table, so the description is complete |
| LagFeatures.AscendingUnique | scripts/train_model.py:24 | two ascending row sequences over the same positions that agree position by position are equal |
| LagFeatures.NoMissingTable | scripts/train_model.py:21-24 | a series of length n with no missing reading yields exactly max(0, n-3) rows, from positions 3, 4, ... n-1; positions 0..2 never yield a row |
| LagFeatures.MissingReadingDropsWindow | scripts/train_model.py:24 | a missing reading at j removes every row from positions j..j+3 |
| Training.FeatureVector | scripts/train_model.py:26 | a feature vector has width exactly 3 |
| Training.Split | scripts/train_model.py:26-27 | X row k is (lag_1, lag_2, lag_3) of lag row k, in that order, and y[k] is its label; X, y and the positions have the table's length |
| Training.SplitRoundTrip | scripts/train_model.py:26-27 | the lag rows are recovered from X, y and the positions, so no label is separated from its features |
| Training.SplitFitsSeries | scripts/train_model.py:21-27 | X and y built from the lag table hold, for every surviving position and no other, the width-3 vector (v[i-1], v[i-2], v[i-3]) and the label v[i], in series order |
| Training.WindowIffRows | scripts/train_model.py:21-27 | the lag table is empty exactly when no position has its reading and the three before it |
| Training.ShortSeriesKeepsModelFile | scripts/train_model.py:21-35 | a series of fewer than four readings yields no rows, so training leaves the model file unchanged |
| Training.TrainDemandPredictor | scripts/train_model.py:12-35 | without the data file, nothing is trained and the model file is left as it was; with it but no full window (an empty lag table), the fit raises before the dump and the model file is also left as it was; otherwise the model file holds a run fitted on exactly the series' lag rows: width-3 features with lag_k = v[i-k], label v[i], every surviving position once, in order |
| PredictApi.LoadModel | scripts/app.py:10-14 | the service has a model iff the model file exists, and then it is the regressor fitted on the file's run |
| PredictApi.PredictBatch | scripts/app.py:29-32 | the regressor is applied row by row to a batch of width-3 rows, with one output per row |
| PredictApi.HandlePredict | scripts/app.py:20-38 | a reply is a success iff a model is loaded and exactly 3 readings were sent; no model gives 500 whatever the history; with a model, a wrong count gives 400; a success passes the history as a batch of one row (`Reshape`) and carries round2 of the model on (h[0], h[1], h[2]) unreordered, unit "MW / Units" and algorithm "Random Forest Regressor" |
| PredictApi.WrongArityNeverConsultsModel | scripts/app.py:25-26 | with a model but the wrong number of readings, the reply is the same whatever the model, so the regressor is never invoked |
| PredictApi.ModelSeesHistoryAsSent | scripts/app.py:29-32 | with three readings, the reply depends on the model only through its value at (h[0], h[1], h[2]) as sent |
| PredictApi.NewestFirstMatchesTraining | scripts/app.py:29-32 | sending the last three readings newest first makes the regressor see exactly the feature row training builds for the row that follows the series |
| PredictApi.OldestFirstReversesLags | scripts/app.py:29-32 | for every series whose last three readings are present, sending them oldest first makes the regressor see the training row's lags reversed: (lag_3, lag_2, lag_1) |
| PredictApi.OldestFirstIsNotReordered | scripts/app.py:29-32 | readings sent oldest first reach lag_1 unchanged, so the regressor sees the oldest reading where training put the newest |
| PredictApi.Serve | scripts/app.py:10-38 | a service answering many requests gives one reply per request, each the handler's reply under the model bound at start-up |
| PredictApi.RepliesAreIndependent | scripts/app.py:20-38 | no request changes the model or later replies: each reply equals the reply that request gets alone |
| PredictApi.NoDataNoService | scripts/train_model.py:12-14 | a fresh installation without the data file has no model file, so the service starts without a model and answers every request with 500 |
| PredictApi.NoWindowNoService | scripts/train_model.py:31-35 | on a fresh installation, training on a series with no full window writes no model, so every request gets 500 |
| PredictApi.TrainThenServe | scripts/train_model.py:31-35 | after training on a series with at least one full window, the service answers three readings with the regressor fitted on that series' lag rows |

## Left out

- Fitting the Random Forest, `model.predict` and `joblib.dump`/`joblib.load`: these are library calls whose code is not part of this model. The fitted model is represented by its training rows, and the regressor is the parameter `fit`.
- `round(float(prediction), 2)`: floating-point rounding is the parameter `round2`, and floats are modelled as reals.
- Fitting on zero rows: the regressor library raises, which ends the script before `joblib.dump`. The model reflects only the outcome, which is that the model file is unchanged. The library's error message and the process exit are not modelled. The script itself has no check for this case.
- HandlePredict: treats `model.predict` as total. The library converts its input to 32-bit floats and raises on a reading beyond that range, which the service reports as a 500. The model returns `Ok` for such a reading, so `HandlePredict`'s "success iff" holds for the model and not for out-of-range floats.
- TrainDemandPredictor: `dropna` also looks at the `date` column. The model assumes every date is present, because `scripts/process_data.py` drops rows without a date before writing the file.
- Dates: the model is positional, and a lag is a number of rows back. The cleaning step drops rows whose date does not parse, so a lag of k rows may span more than k days. A day with no row is not a `None` reading.
- Reading the CSV, `os.makedirs` and the progress messages: file-system I/O. The data file is an `Option<Series>`, and the model file is an `Option<TrainingRun>` passed in and returned.
- Request parsing by FastAPI and pydantic (a non-list or non-numeric `history` is rejected before the handler runs), and the uvicorn start-up: framework behaviour. The history reaches the handler as `seq<real>`, and status codes are integers.
- `scripts/process_data.py`, the dataset download and date parsing: library and network behaviour.
- `scripts/dashboard.py`: user-interface code and an HTTP client for an endpoint that the service does not define.
- The inventory, financial, reliability, weather-adjusted and sustainability metrics: neither modelled file computes them.
