# Sensor time-series pipeline, modelled in Dafny

This project models the backend pipeline of an industrial monitoring service.
The service replays a dataset of contaminant readings (Nickel, Cobalt, NH3)
tick by tick. It forecasts the next ten minutes with a sequence network and
flags forecasts that go above static safety limits. Three parts are modelled:

- **Dataset cursor** (`dataloader.dfy`, module `DataLoading`). The class
  `DataLoader` holds the sorted readings (`data`) and a circular read position
  (`currentIndex`). `LoadData` filters parsed rows, fails when none survive, and
  stores the rest sorted by timestamp. `GetNextReading` returns the reading under
  the cursor and advances it modulo N. `GetCurrentWindowData` is the trailing
  slice of at most 30 readings before the cursor, without wrap-around.
  `GetInitialTrainingData` is the first `min(60, N)` readings. `Size` and
  `GetCurrentIndex` are plain reads. The four reads are `reads this` functions,
  so they cannot change `data` or `currentIndex`. `Step` and `Replay` state one
  call and `k` calls of `GetNextReading` as functions, so that circular replay
  can be proved as a lemma.
- **Prediction model bookkeeping** (`prediction_model.dfy`, module `Prediction`).
  This covers the constants W = 30, P = 10 and the thresholds 1.0 / 0.8 / 25.0,
  and per-feature min/max scaling and its inverse. It also covers the
  overlapping supervised examples and the guard on training length. Then come the
  guards of `predict`, the decoding of the flat network output into P
  timestamped points, and `CheckThresholds`. The class `PredictionModel`
  keeps the source class's state (`model`, `scalers`, `initialized`) and its
  methods `initializeScalers`, `prepareSequences`, `trainModel` and `predict`.
  The source class's methods `scaleFeature`, `inverseScaleFeature` and
  `checkThresholds` become module-level functions here, because they read only
  a scaler or the constant thresholds. `buildModel` is part of the opaque
  `Fitter`. The network is an opaque function `Net` from the W x 3 scaled matrix to a flat
  output vector, or `None` when inference throws. Building and fitting the
  network is an opaque `Fitter` that gets the examples and reports the
  resulting network and whether fitting completed.
- **Analysis orchestrator** (`analysis_service.dfy`, module `Analysis`). The class
  `AnalysisService` has the `initialized` flag. `Initialize` trains on the
  cursor's initial slice. `ProcessReading` composes the window, the forecast and
  the alerts into a `TickResult`. It has no `modifies` clause, so it never moves
  the cursor.

Shared definitions: `readings.dfy` holds the `Reading` record, the parsed row and
the row filter. `js_number.dfy` holds JavaScript numbers as exact reals plus
NaN and the two infinities. This is what division by zero in the scaler and
`undefined` output elements produce. `wrappers.dfy` holds `Option`, `Result` and
`Outcome`.

Conventions: a timestamp is the millisecond value of a JavaScript `Date`, so
"+ (i+1) minutes" is `+ (i + 1) * 60000`. A parsed feature value is `Some(x)`
or `None`, and `None` stands for `parseFloat`'s NaN. An unparsable timestamp is
`None` (an Invalid Date). A thrown error becomes a `Failure`, `Fail` or `None`
result.

## Model

| member | source | states |
|---|---|---|
| `DataLoading.DataLoader.constructor` | backend/utils/dataloader.js:8-12 | a new cursor has no data and sits at position 0 |
| `Readings.IsValidReading` | backend/utils/dataloader.js:61-69 | definition: a row passes when its date parsed and none of its three values is NaN; its meaning is stated by `ValidIffComplete` |
| `Readings.ToReading` | backend/utils/dataloader.js:28-36 | definition: the stored reading built from the parsed fields; its inverse is `Complete`, see `ValidIffComplete` |
| `Readings.ValidIffComplete` | backend/utils/dataloader.js:61-69 | a row passes `isValidReading` exactly when it is the parse of a complete reading, i.e. no field failed to parse |
| `DataLoading.ValidReadingsExactly` | backend/utils/dataloader.js:35-37 | a reading survives the filter exactly when some row that passes `isValidReading` (valid date, three non-NaN numbers) produced it |
| `DataLoading.InvalidRowsDropped` | backend/utils/dataloader.js:61-69 | rows that fail `isValidReading` contribute nothing; if all fail, nothing remains |
| `DataLoading.SortByTimestamp` | backend/utils/dataloader.js:49 | the stored order is ascending by timestamp and is a permutation of the filtered readings |
| `DataLoading.Insert` | backend/utils/dataloader.js:49 | inserting into a sorted run keeps it sorted and adds exactly that reading |
| `DataLoading.DataLoader.LoadData` | backend/utils/dataloader.js:14-59 | missing file, stream error and zero valid rows each fail and leave `data` untouched; otherwise `data` is the valid readings sorted by timestamp, a permutation of them, and is also returned; the cursor is not touched |
| `DataLoading.Slice` | backend/utils/dataloader.js:82 | JavaScript `slice` clamps its bounds; within bounds it is the plain subsequence |
| `DataLoading.DataLoader.GetNextReading` | backend/utils/dataloader.js:71-77 | empty data gives null and leaves the cursor alone; otherwise it returns `data[currentIndex]` and sets the cursor to `(currentIndex + 1) mod N`, which is again below N |
| `DataLoading.StepInRange` | backend/utils/dataloader.js:74-75 | from an in-range cursor one call returns the reading under it and moves one place on, back to 0 after the last |
| `DataLoading.Replay` | backend/utils/dataloader.js:71-77 | definition: `k` consecutive calls of `getNextReading`, composed from `Step`; what they return is stated by `ReplayFrom` and `FullCycle` |
| `DataLoading.ReplayFrom` | backend/utils/dataloader.js:75 | call `j` of up to N calls returns the reading at circular position `index + j`, and the cursor ends `k` places on, circularly |
| `DataLoading.FullCycle` | backend/utils/dataloader.js:75 | N calls on N readings return every reading once, in circular order from the cursor, and restore the starting cursor |
| `DataLoading.Rotate` | backend/utils/dataloader.js:75 | the circular reading order is a permutation of the dataset |
| `DataLoading.DataLoader.GetCurrentWindowData` | backend/utils/dataloader.js:79-83 | at most 30 readings; with the cursor in range it is `data[max(0, idx-30) .. idx)`, of length `min(idx, 30)`; empty at position 0, so no wrap-around |
| `DataLoading.DataLoader.GetInitialTrainingData` | backend/utils/dataloader.js:85-87 | the prefix of `data` of length `min(60, N)` |
| `DataLoading.DataLoader.Size` | backend/utils/dataloader.js:89-91 | the number of loaded readings; a `reads this` function, so the call changes nothing |
| `DataLoading.DataLoader.GetCurrentIndex` | backend/utils/dataloader.js:93-95 | the cursor position; a `reads this` function, so the call changes nothing |
| `JsNumber.Div` | backend/model/predictionModel.js:60 | division is finite exactly when the divisor is non-zero, and NaN exactly for 0/0 |
| `JsNumber.MulFin` | backend/model/predictionModel.js:65 | the product is NaN exactly for a NaN operand or an infinity times zero |
| `JsNumber.AddFin` | backend/model/predictionModel.js:65 | adding a finite number keeps a number finite and leaves NaN and the infinities as they are |
| `Prediction.PredictionModel.constructor` | backend/model/predictionModel.js:6-18 | a new model has no network, no scalers and is not initialized |
| `Prediction.MinOf` | backend/model/predictionModel.js:52 | `Math.min` of a non-empty list is a lower bound that the list attains |
| `Prediction.MaxOf` | backend/model/predictionModel.js:53 | `Math.max` of a non-empty list is an upper bound that the list attains |
| `Prediction.Column` | backend/model/predictionModel.js:50 | definition of `data.map(d => d[feature])`; what the fitted bounds mean is stated by `FitScalersBounds` |
| `Prediction.FitScalers` | backend/model/predictionModel.js:48-56 | fitting gives a scaler for every feature |
| `Prediction.FitScalersBounds` | backend/model/predictionModel.js:48-56 | each feature's `min <= d[f] <= max` for every fitted reading `d`, and both bounds are attained |
| `Prediction.PredictionModel.InitializeScalers` | backend/model/predictionModel.js:48-56 | after the call `scalers` holds exactly the fitted min/max of each feature over `data` |
| `Prediction.ScaleFeature` | backend/model/predictionModel.js:58-61 | the result is finite exactly when `max != min`, and then it is the `u` with `u * (max - min) + min == value`; it is NaN exactly for `max == min` and `value == min` |
| `Prediction.InverseScaleFeature` | backend/model/predictionModel.js:63-66 | the result is finite exactly when its argument is, NaN stays NaN, and a degenerate scaler maps every finite value to `min` |
| `Prediction.ScaleRoundTrip` | backend/model/predictionModel.js:58-66 | `inverseScaleFeature(scaleFeature(v)) == v` whenever `max != min` |
| `Prediction.InverseScaleRoundTrip` | backend/model/predictionModel.js:58-66 | `scaleFeature(inverseScaleFeature(u)) == u` for finite `u` whenever `max != min` |
| `Prediction.ScaleDegenerate` | backend/model/predictionModel.js:58-61 | with `max == min`, scaling gives NaN for that value and an infinity for any other |
| `Prediction.ScaleWithinBounds` | backend/model/predictionModel.js:58-61 | a value between `min` and `max` (with `min < max`) scales to a finite number in [0, 1] |
| `Prediction.FittedValueScalesToUnit` | backend/model/predictionModel.js:48-61 | a value drawn from the fitting data scales into [0, 1] when that feature is not constant over the data |
| `Prediction.ScaledPoint` | backend/model/predictionModel.js:75-77 | definition of one scaled timepoint, in the order Nickel, Cobalt, NH3; its use in the examples is stated by `SequencesShape` |
| `Prediction.ScaledRows` | backend/model/predictionModel.js:74-79 | definition of the scaled matrix of a run of readings; its use is stated by `SequencesShape` and `DecodeFlattenedTarget` |
| `Prediction.FlattenLength` | backend/model/predictionModel.js:82-87 | flattening P timepoints gives `3 * P` values |
| `Prediction.FlattenAt` | backend/model/predictionModel.js:83-87 | value `(t, j)` of the flattened target sits at index `t * 3 + j` |
| `Prediction.SequencesCount` | backend/model/predictionModel.js:72 | inputs and targets are equally many: `N - P - W` of them when `N > 40`, and none for 40 readings or fewer |
| `Prediction.SequencesShape` | backend/model/predictionModel.js:72-89 | input `k` is the scaled readings `data[k .. k+W)`; target `k` has `P * 3` entries with `target[t*3 + j] = scale(data[k+W+t][features[j]])` |
| `Prediction.PredictionModel.PrepareSequences` | backend/model/predictionModel.js:68-95 | the nested loops build exactly those inputs and targets |
| `Prediction.PredictionModel.TrainModel` | backend/model/predictionModel.js:97-126 | fewer than W + P = 40 readings fail and change nothing. Otherwise the scalers are refit, the examples go to the fitter and its network is stored. Success exactly when fitting completes. `initialized` becomes true only then and never goes back to false |
| `Prediction.PredictionModel.Predict` | backend/model/predictionModel.js:128-172 | null when not initialized or given fewer than W readings. Otherwise it is the forecast of the last W readings: null if inference throws, else P points, point `i` at the last timestamp plus `i + 1` minutes |
| `Prediction.ForecastUsesLastWindow` | backend/model/predictionModel.js:135-147 | two histories with the same last W readings get the same forecast |
| `Prediction.ForecastShape` | backend/model/predictionModel.js:146-162 | a forecast exists only for an initialized model and at least W readings; it has P points stamped at 1..P minutes after the last reading |
| `Prediction.ForecastPointsShape` | backend/model/predictionModel.js:149-162 | decoded point `i` has feature `j` equal to `inverseScaleFeature(values[i*3 + j])` and timestamp `last + (i+1)` minutes |
| `Prediction.DecodeFlattenedTarget` | backend/model/predictionModel.js:154-158 | the output decoding inverts the target flattening: an output equal to a flattened scaled future decodes back to those readings when no scaler is degenerate |
| `Prediction.AnyExceedsIff` | backend/model/predictionModel.js:177 | `some` is true exactly when some prediction is strictly above the threshold |
| `Prediction.CheckThresholds` | backend/model/predictionModel.js:174-180 | the alerts have one entry per feature, true exactly when some prediction's value for that feature is strictly above its threshold |
| `Prediction.NoForecastNoAlerts` | backend/model/predictionModel.js:174-180 | an empty forecast gives all-false alerts |
| `Prediction.ThresholdIsStrict` | backend/model/predictionModel.js:177 | a value equal to the threshold, or NaN, does not alert |
| `Analysis.AnalysisService.constructor` | backend/services/analysisService.js:5-8 | a new service is not initialized |
| `Analysis.AnalysisService.Initialize` | backend/services/analysisService.js:10-20 | trains on the cursor's initial slice with the outcome `TrainModel` promises: under 40 readings it fails and leaves the model's network, scalers and flag alone; otherwise the scalers are refit, the fitter's network is stored and the model's flag becomes `old || completed`; the service flag becomes true only on success, and the failure is returned; if the service is initialized, so is the model |
| `Analysis.AnalysisService.ProcessReading` | backend/services/analysisService.js:22-53 | fails with NotInitialized exactly when not initialized. Otherwise it echoes the reading's timestamp and values. A window shorter than W gives `predictions = null` and `alerts = {}`. Otherwise `predictions` is the forecast of the window, and alerts are `checkThresholds` of it, or `{}` when it is null |
| `Analysis.ReadyWindowReachesNetwork` | backend/services/analysisService.js:32-33 | an initialized service with a full window hands `predict` exactly 30 readings, and gets null only when the network fails |

## Left out

- Network construction, Adam training, epochs, batch size, validation split, tensor creation and `dispose`. These are TensorFlow calls with float32 numerics. They are the opaque `Net` and `Fitter`, so the model proves nothing about forecast accuracy.
- Floating-point rounding: finite numbers are exact reals, and signed zero is not distinguished. This is why the scaling round trips hold exactly.
- CSV streaming, `fs.existsSync` and `moment` timestamp parsing in `loadData`. Their result is the `CsvSource` value (missing file, stream error, or parsed rows). `parseFloat` returning an infinity (e.g. for `1e999`) is not modelled: a parsed value is a finite number or NaN.
- `async`/Promise structure and `console` logging throughout.
- Prediction.PredictionModel.InitializeScalers: requires non-empty data. `Math.min()` of an empty list (+Infinity, and -Infinity for the max) is not modelled, because its only caller passes at least 40 readings.
- Prediction.PredictionModel.TrainModel: when there are exactly 40 readings there are zero examples. What tensor creation and fitting do then is part of the opaque `Fitter` outcome.
- Prediction.PredictionModel.Predict: the only failure inside `try` that is modelled is the network's. Scaling cannot fail there, because an initialized model has every scaler. The network output is a sequence of numbers; reading past its end gives `undefined`, which arithmetic turns into NaN.
- DataLoading.DataLoader.LoadData: the cursor is not reset. A reload with fewer readings can leave it out of range; `GetNextReading` then returns nothing (JavaScript `undefined`) and the next call brings it back in range. Readings with equal timestamps keep their file order, because `SortByTimestamp` inserts from the front as the stable JavaScript sort does; the contract states only order and permutation, not stability.
- `backend/index.js` (server, socket connect message, `setInterval` tick loop with its counter and metadata, database connection, `process.exit`): timer, network and process plumbing.
- `backend/routes/analysisroutes.js`, `backend/model/reading.js` and the whole frontend: HTTP routing, a database schema and UI.
