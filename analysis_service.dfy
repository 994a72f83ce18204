/**
 * The analysis orchestrator (backend/services/analysisService.js): trains
 * the model once from the cursor's leading readings, then turns each reading
 * into a result record with the forecast from the cursor's window and its
 * alerts.
 */
module Analysis {
  import opened Wrappers
  import opened Readings
  import DL = DataLoading
  import P = Prediction

  /** The raw feature values a result echoes back. */
  datatype RawValues = RawValues(nickel: real, cobalt: real, nh3: real)

  /** One result record; `alerts` is empty (`{}`) when no forecast was made. */
  datatype TickResult = TickResult(
    timestamp: Timestamp,
    readings: RawValues,
    predictions: Option<seq<P.ForecastPoint>>,
    alerts: map<Feature, bool>)

  datatype ServiceError = NotInitialized

  class AnalysisService {
    var initialized: bool
    /** The dataset cursor the service reads its windows from. */
    const loader: DL.DataLoader
    /** The prediction model the service trains and queries. */
    const model: P.PredictionModel

    /** A ready service has a trained model: training sets the model's flag before the service sets its own. */
    ghost predicate Valid()
      reads this, model
    {
      model.Valid() && (initialized ==> model.initialized)
    }

    constructor(loader: DL.DataLoader, model: P.PredictionModel)
      requires model.Valid()
      ensures Valid()
      ensures !initialized && this.loader == loader && this.model == model
    {
      this.loader := loader;
      this.model := model;
      initialized := false;
    }

    /**
     * Trains the model on the cursor's initial training slice; the service
     * becomes initialized only when training succeeds, and a failure is
     * passed back to the caller.
     */
    method Initialize(fit: P.Fitter) returns (r: Outcome<P.TrainError>)
      requires Valid()
      modifies this, model
      ensures Valid()
      ensures initialized == (old(initialized) || r == Pass)
      ensures var data := loader.GetInitialTrainingData();
              && (|data| < P.HistoricalWindow + P.PredictionWindow ==>
                    && r == Fail(P.InsufficientData)
                    && model.initialized == old(model.initialized)
                    && model.model == old(model.model)
                    && model.scalers == old(model.scalers))
              && (|data| >= P.HistoricalWindow + P.PredictionWindow ==>
                    var s := P.FitScalers(data);
                    var outcome := fit(P.SequenceInputs(s, data), P.SequenceTargets(s, data));
                    && model.scalers == s
                    && model.model == Some(outcome.net)
                    && model.initialized == (old(model.initialized) || outcome.completed)
                    && r == (if outcome.completed then Pass else Fail(P.FitFailed)))
    {
      var trainingData := loader.GetInitialTrainingData();
      r := model.TrainModel(trainingData, fit);
      if r == Pass {
        initialized := true;
      }
    }

    /**
     * Fails unless initialized. Otherwise echoes the reading and, when the
     * cursor's window holds at least W readings, attaches the forecast for
     * that window and, if there is one, its alerts. Reads the cursor without
     * moving it.
     */
    method ProcessReading(reading: Reading) returns (r: Result<TickResult, ServiceError>)
      requires Valid()
      ensures !initialized <==> r == Failure(NotInitialized)
      ensures r.Success? ==>
                && r.value.timestamp == reading.timestamp
                && r.value.readings == RawValues(reading.nickel, reading.cobalt, reading.nh3)
      ensures r.Success? && |loader.GetCurrentWindowData()| < P.HistoricalWindow ==>
                r.value.predictions == None && r.value.alerts == map[]
      ensures r.Success? && |loader.GetCurrentWindowData()| >= P.HistoricalWindow ==>
                && r.value.predictions == model.Forecast(loader.GetCurrentWindowData())
                && r.value.alerts == (if r.value.predictions.Some? then P.CheckThresholds(r.value.predictions.value) else map[])
    {
      if !initialized {
        return Failure(NotInitialized);
      }
      var historicalData := loader.GetCurrentWindowData();
      var predictions: Option<seq<P.ForecastPoint>> := None;
      var alerts: map<Feature, bool> := map[];
      if |historicalData| >= P.HistoricalWindow {
        predictions := model.Predict(historicalData);
        if predictions.Some? {
          alerts := P.CheckThresholds(predictions.value);
        }
      }
      r := Success(TickResult(
        reading.timestamp,
        RawValues(reading.nickel, reading.cobalt, reading.nh3),
        predictions,
        alerts));
    }
  }

  /**
   * On the service's path the model's own guards never fire: a ready service
   * with a full window gets no forecast only when the network itself fails,
   * and the network sees exactly that window.
   */
  lemma ReadyWindowReachesNetwork(svc: AnalysisService)
    requires svc.Valid() && svc.initialized
    requires |svc.loader.GetCurrentWindowData()| >= P.HistoricalWindow
    ensures var w := svc.loader.GetCurrentWindowData();
            && |w| == P.HistoricalWindow
            && (svc.model.Forecast(w).None? <==>
                  svc.model.model.value(P.ScaledRows(svc.model.scalers, w)).None?)
  {
    var w := svc.loader.GetCurrentWindowData();
    assert w[|w| - P.HistoricalWindow..] == w;
  }
}
