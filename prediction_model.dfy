/**
 * The bookkeeping around the forecasting network (backend/model/predictionModel.js):
 * min/max scaling, the layout of training examples and network output, the
 * guards of training and prediction, and threshold alerts. The network itself
 * is an opaque function.
 */
module Prediction {
  import opened Wrappers
  import opened JsNumber
  import opened Readings

  /** W: past readings per network input. */
  const HistoricalWindow: nat := 30
  /** P: future points per forecast. */
  const PredictionWindow: nat := 10
  /** The width of every input row and output group. */
  const FeatureCount: nat := 3
  /** One minute in `Date` milliseconds: the spacing of forecast points. */
  const MinuteMs: int := 60000

  /** The static safety limit of each contaminant. */
  function Threshold(f: Feature): real
  {
    match f
    case Nickel => 1.0
    case Cobalt => 0.8
    case NH3 => 25.0
  }

  // ------------------------------------------------------------------ scaling

  datatype Scaler = Scaler(min: real, max: real)

  /** The model's `scalers` object: one entry per feature once fitted, empty before. */
  type Scalers = map<Feature, Scaler>

  predicate Fitted(s: Scalers)
  {
    Nickel in s && Cobalt in s && NH3 in s
  }

  /** `(value - min) / (max - min)`; with `max == min` this is a division by zero. */
  function ScaleFeature(s: Scaler, value: real): (r: Num)
    ensures r.Fin? <==> s.max != s.min
    ensures r.Fin? ==> r.v * (s.max - s.min) + s.min == value
    ensures r.NaN? <==> s.max == s.min && value == s.min
  {
    Div(value - s.min, s.max - s.min)
  }

  /** `value * (max - min) + min`. */
  function InverseScaleFeature(s: Scaler, value: Num): (r: Num)
    ensures r.Fin? <==> value.Fin?
    ensures value.NaN? ==> r.NaN?
    ensures s.max == s.min && value.Fin? ==> r == Fin(s.min)
  {
    AddFin(MulFin(value, s.max - s.min), s.min)
  }

  /** Scaling and then unscaling gives back the value, when the scaler is not degenerate. */
  lemma ScaleRoundTrip(s: Scaler, v: real)
    requires s.max != s.min
    ensures InverseScaleFeature(s, ScaleFeature(s, v)) == Fin(v)
  {
    var d := s.max - s.min;
    assert (v - s.min) / d * d == v - s.min;
  }

  /** Unscaling and then scaling gives back a finite normalized value, when the scaler is not degenerate. */
  lemma InverseScaleRoundTrip(s: Scaler, u: real)
    requires s.max != s.min
    ensures InverseScaleFeature(s, Fin(u)).Fin?
    ensures ScaleFeature(s, InverseScaleFeature(s, Fin(u)).v) == Fin(u)
  {
    var d := s.max - s.min;
    assert (u * d + s.min - s.min) / d == u;
  }

  /** A degenerate scaler (`max == min`) maps its own value to NaN and every other value to an infinity. */
  lemma ScaleDegenerate(s: Scaler, v: real)
    requires s.max == s.min
    ensures ScaleFeature(s, v) == if v > s.min then PosInf else if v < s.min then NegInf else NaN
  {
  }

  /** A value between the bounds of a non-degenerate scaler scales into [0, 1]. */
  lemma ScaleWithinBounds(s: Scaler, v: real)
    requires s.min <= v <= s.max && s.min < s.max
    ensures ScaleFeature(s, v).Fin?
    ensures 0.0 <= ScaleFeature(s, v).v <= 1.0
  {
    var d := s.max - s.min;
    var a := v - s.min;
    assert a / d * d == a;
    assert a / d == a * (1.0 / d);
    assert 1.0 / d > 0.0;
  }

  // ------------------------------------------------------------------ fitting

  /** `Math.min(...xs)` for a non-empty list of numbers. */
  function MinOf(xs: seq<real>): (m: real)
    requires |xs| > 0
    ensures forall i :: 0 <= i < |xs| ==> m <= xs[i]
    ensures exists i :: 0 <= i < |xs| && xs[i] == m
  {
    if |xs| == 1 then xs[0]
    else
      var rest := MinOf(xs[1..]);
      assert forall i :: 1 <= i < |xs| ==> xs[i] == xs[1..][i - 1];
      if xs[0] <= rest then xs[0] else rest
  }

  /** `Math.max(...xs)` for a non-empty list of numbers. */
  function MaxOf(xs: seq<real>): (m: real)
    requires |xs| > 0
    ensures forall i :: 0 <= i < |xs| ==> xs[i] <= m
    ensures exists i :: 0 <= i < |xs| && xs[i] == m
  {
    if |xs| == 1 then xs[0]
    else
      var rest := MaxOf(xs[1..]);
      assert forall i :: 1 <= i < |xs| ==> xs[i] == xs[1..][i - 1];
      if xs[0] >= rest then xs[0] else rest
  }

  /** `data.map(d => d[feature])`. */
  function Column(data: seq<Reading>, f: Feature): (col: seq<real>)
    ensures |col| == |data|
    ensures forall i :: 0 <= i < |data| ==> col[i] == data[i].Get(f)
  {
    seq(|data|, i requires 0 <= i < |data| => data[i].Get(f))
  }

  /** The bounds `initializeScalers` stores for one feature. */
  function FitScaler(data: seq<Reading>, f: Feature): Scaler
    requires |data| > 0
  {
    Scaler(MinOf(Column(data, f)), MaxOf(Column(data, f)))
  }

  /** The whole `scalers` object after `initializeScalers(data)`. */
  function FitScalers(data: seq<Reading>): (s: Scalers)
    requires |data| > 0
    ensures Fitted(s)
  {
    map[Nickel := FitScaler(data, Nickel), Cobalt := FitScaler(data, Cobalt), NH3 := FitScaler(data, NH3)]
  }

  /** Every fitted feature's bounds enclose that feature of every reading, and both bounds are attained. */
  lemma FitScalersBounds(data: seq<Reading>, f: Feature)
    requires |data| > 0
    ensures forall d :: d in data ==> FitScalers(data)[f].min <= d.Get(f) <= FitScalers(data)[f].max
    ensures exists d :: d in data && d.Get(f) == FitScalers(data)[f].min
    ensures exists d :: d in data && d.Get(f) == FitScalers(data)[f].max
  {
    var col := Column(data, f);
    var s := FitScalers(data)[f];
    assert s == FitScaler(data, f);
    forall d | d in data
      ensures s.min <= d.Get(f) <= s.max
    {
      var i :| 0 <= i < |data| && data[i] == d;
      assert col[i] == d.Get(f);
    }
    var i :| 0 <= i < |col| && col[i] == s.min;
    assert data[i] in data;
    var j :| 0 <= j < |col| && col[j] == s.max;
    assert data[j] in data;
  }

  /** A reading of the fitting data scales into [0, 1] when another reading there differs from it in that feature. */
  lemma FittedValueScalesToUnit(data: seq<Reading>, f: Feature, d: Reading, e: Reading)
    requires d in data && e in data && d.Get(f) != e.Get(f)
    ensures ScaleFeature(FitScalers(data)[f], d.Get(f)).Fin?
    ensures 0.0 <= ScaleFeature(FitScalers(data)[f], d.Get(f)).v <= 1.0
  {
    FitScalersBounds(data, f);
    ScaleWithinBounds(FitScalers(data)[f], d.Get(f));
  }

  // ------------------------------------------------------ supervised examples

  /** `features.map(feature => scaleFeature(d[feature], feature))`: one row of a network input. */
  function ScaledPoint(s: Scalers, d: Reading): (p: seq<Num>)
    requires Fitted(s)
    ensures |p| == FeatureCount
    ensures forall j :: 0 <= j < FeatureCount ==> p[j] == ScaleFeature(s[Features[j]], d.Get(Features[j]))
  {
    [ScaleFeature(s[Nickel], d.nickel), ScaleFeature(s[Cobalt], d.cobalt), ScaleFeature(s[NH3], d.nh3)]
  }

  /** The scaled matrix of a run of readings, one row per reading. */
  function ScaledRows(s: Scalers, rows: seq<Reading>): (m: seq<seq<Num>>)
    requires Fitted(s)
    ensures |m| == |rows|
    ensures forall k :: 0 <= k < |rows| ==> m[k] == ScaledPoint(s, rows[k])
  {
    seq(|rows|, k requires 0 <= k < |rows| => ScaledPoint(s, rows[k]))
  }

  /** Row-major flattening: the layout of a training target and of the network output. */
  function Flatten(m: seq<seq<Num>>): seq<Num>
  {
    if m == [] then [] else Flatten(m[..|m| - 1]) + m[|m| - 1]
  }

  /** Cell `(t, j)` of a matrix with rows of width `FeatureCount` sits at `t * FeatureCount + j` of its flattening. */
  lemma {:induction false} FlattenAt(m: seq<seq<Num>>, t: nat, j: nat)
    requires forall k :: 0 <= k < |m| ==> |m[k]| == FeatureCount
    requires t < |m| && j < FeatureCount
    ensures |Flatten(m)| == FeatureCount * |m|
    ensures Flatten(m)[t * FeatureCount + j] == m[t][j]
  {
    FlattenLength(m);
    var init := m[..|m| - 1];
    FlattenLength(init);
    if t < |m| - 1 {
      FlattenAt(init, t, j);
    }
  }

  lemma {:induction false} FlattenLength(m: seq<seq<Num>>)
    requires forall k :: 0 <= k < |m| ==> |m[k]| == FeatureCount
    ensures |Flatten(m)| == FeatureCount * |m|
  {
    if m != [] {
      FlattenLength(m[..|m| - 1]);
    }
  }

  /** Element `(t, j)` of a flat vector laid out as rows of width `FeatureCount`: `values[t * 3 + j]`. */
  function OutputAt(values: seq<Num>, t: nat, j: nat): Num
  {
    At(values, t * FeatureCount + j)
  }

  /** `values[k]` of a flat vector; reading past its end is `undefined`, which arithmetic turns into NaN. */
  function At(values: seq<Num>, k: nat): Num
  {
    if k < |values| then values[k] else NaN
  }

  /** The number of training examples `prepareSequences` builds from `n` readings. */
  function ExampleCount(n: int): nat
  {
    if n - PredictionWindow - HistoricalWindow > 0 then n - PredictionWindow - HistoricalWindow else 0
  }

  /** The network inputs: example `k` is the scaled window `data[k .. k+W)`. */
  function SequenceInputs(s: Scalers, data: seq<Reading>): seq<seq<seq<Num>>>
    requires Fitted(s)
  {
    seq(ExampleCount(|data|), k requires 0 <= k < ExampleCount(|data|) =>
      ScaledRows(s, data[k..k + HistoricalWindow]))
  }

  /** The training targets: example `k` is the flattened scaled run `data[k+W .. k+W+P)`. */
  function SequenceTargets(s: Scalers, data: seq<Reading>): seq<seq<Num>>
    requires Fitted(s)
  {
    seq(ExampleCount(|data|), k requires 0 <= k < ExampleCount(|data|) =>
      Flatten(ScaledRows(s, data[k + HistoricalWindow..k + HistoricalWindow + PredictionWindow])))
  }

  /**
   * The number of supervised examples: one per start position with a full
   * window and a full future, `max(0, N - P - W)` in all, so 40 readings or
   * fewer give none.
   */
  lemma SequencesCount(s: Scalers, data: seq<Reading>)
    requires Fitted(s)
    ensures |SequenceInputs(s, data)| == |SequenceTargets(s, data)|
    ensures |data| > HistoricalWindow + PredictionWindow ==>
              |SequenceInputs(s, data)| == |data| - HistoricalWindow - PredictionWindow
    ensures |data| <= HistoricalWindow + PredictionWindow ==>
              SequenceInputs(s, data) == [] && SequenceTargets(s, data) == []
  {
  }

  /**
   * The shape of supervised example `k`: input `k` is the W scaled readings
   * from `k`, target `k` holds the scaled feature `j` of reading `k + W + t`
   * at position `t * 3 + j`.
   */
  lemma SequencesShape(s: Scalers, data: seq<Reading>, k: nat)
    requires Fitted(s)
    requires k < ExampleCount(|data|)
    ensures |SequenceInputs(s, data)[k]| == HistoricalWindow
    ensures forall r :: 0 <= r < HistoricalWindow ==> SequenceInputs(s, data)[k][r] == ScaledPoint(s, data[k + r])
    ensures |SequenceTargets(s, data)[k]| == PredictionWindow * FeatureCount
    ensures forall t, j :: 0 <= t < PredictionWindow && 0 <= j < FeatureCount ==>
              OutputAt(SequenceTargets(s, data)[k], t, j)
                == ScaleFeature(s[Features[j]], data[k + HistoricalWindow + t].Get(Features[j]))
  {
    assert SequenceInputs(s, data)[k] == ScaledRows(s, data[k..k + HistoricalWindow]);
    var future := ScaledRows(s, data[k + HistoricalWindow..k + HistoricalWindow + PredictionWindow]);
    FlattenLength(future);
    forall t, j | 0 <= t < PredictionWindow && 0 <= j < FeatureCount
      ensures OutputAt(SequenceTargets(s, data)[k], t, j)
                == ScaleFeature(s[Features[j]], data[k + HistoricalWindow + t].Get(Features[j]))
    {
      FlattenAt(future, t, j);
    }
  }

  // ----------------------------------------------------------------- forecast

  /** One forecast point: a timestamp and a value per feature. */
  datatype ForecastPoint = ForecastPoint(timestamp: Timestamp, nickel: Num, cobalt: Num, nh3: Num)
  {
    function Get(f: Feature): Num
    {
      match f
      case Nickel => nickel
      case Cobalt => cobalt
      case NH3 => nh3
    }
  }

  /** The forecast decoded from a network output: point `i` is group `i` of the output, unscaled, `i + 1` minutes after `last`. */
  function ForecastPoints(s: Scalers, values: seq<Num>, last: Timestamp): seq<ForecastPoint>
    requires Fitted(s)
  {
    seq(PredictionWindow, i requires 0 <= i < PredictionWindow =>
      ForecastPoint(
        last + (i + 1) * MinuteMs,
        InverseScaleFeature(s[Nickel], OutputAt(values, i, 0)),
        InverseScaleFeature(s[Cobalt], OutputAt(values, i, 1)),
        InverseScaleFeature(s[NH3], OutputAt(values, i, 2))))
  }

  /** A forecast has P points; point `i` is stamped `i + 1` minutes on and carries feature `j` from output `i * 3 + j`. */
  lemma ForecastPointsShape(s: Scalers, values: seq<Num>, last: Timestamp)
    requires Fitted(s)
    ensures |ForecastPoints(s, values, last)| == PredictionWindow
    ensures forall i :: 0 <= i < PredictionWindow ==>
              ForecastPoints(s, values, last)[i].timestamp == last + (i + 1) * MinuteMs
    ensures forall i, j :: 0 <= i < PredictionWindow && 0 <= j < FeatureCount ==>
              ForecastPoints(s, values, last)[i].Get(Features[j])
                == InverseScaleFeature(s[Features[j]], OutputAt(values, i, j))
  {
  }

  /**
   * The output layout is the target layout: a network output equal to the
   * flattened scaled future readings decodes back to exactly those readings,
   * when no scaler is degenerate.
   */
  lemma DecodeFlattenedTarget(s: Scalers, future: seq<Reading>, last: Timestamp, i: nat, f: Feature)
    requires Fitted(s)
    requires forall g :: g in s ==> s[g].min != s[g].max
    requires |future| == PredictionWindow && i < PredictionWindow
    ensures ForecastPoints(s, Flatten(ScaledRows(s, future)), last)[i].Get(f) == Fin(future[i].Get(f))
  {
    var m := ScaledRows(s, future);
    var j := match f case Nickel => 0 case Cobalt => 1 case NH3 => 2;
    assert Features[j] == f;
    FlattenAt(m, i, j);
    ForecastPointsShape(s, Flatten(m), last);
    ScaleRoundTrip(s[f], future[i].Get(f));
  }

  // --------------------------------------------------------------- thresholds

  predicate Exceeds(p: ForecastPoint, f: Feature)
  {
    Greater(p.Get(f), Threshold(f))
  }

  /** `predictions.some(pred => pred[feature] > threshold)`. */
  function AnyExceeds(preds: seq<ForecastPoint>, f: Feature): bool
  {
    if preds == [] then false else Exceeds(preds[0], f) || AnyExceeds(preds[1..], f)
  }

  lemma {:induction false} AnyExceedsIff(preds: seq<ForecastPoint>, f: Feature)
    ensures AnyExceeds(preds, f) <==> exists i :: 0 <= i < |preds| && Exceeds(preds[i], f)
  {
    if preds != [] {
      AnyExceedsIff(preds[1..], f);
      assert forall i :: 1 <= i < |preds| ==> preds[i] == preds[1..][i - 1];
    }
  }

  /** Per feature, an alert exactly when some forecast point is strictly above that feature's threshold. */
  function CheckThresholds(preds: seq<ForecastPoint>): (alerts: map<Feature, bool>)
    ensures alerts.Keys == {Nickel, Cobalt, NH3}
    ensures forall f :: f in alerts ==>
              (alerts[f] <==> exists i :: 0 <= i < |preds| && Greater(preds[i].Get(f), Threshold(f)))
  {
    AnyExceedsIff(preds, Nickel);
    AnyExceedsIff(preds, Cobalt);
    AnyExceedsIff(preds, NH3);
    map[Nickel := AnyExceeds(preds, Nickel), Cobalt := AnyExceeds(preds, Cobalt), NH3 := AnyExceeds(preds, NH3)]
  }

  /** An empty forecast raises no alert. */
  lemma NoForecastNoAlerts()
    ensures CheckThresholds([]) == map[Nickel := false, Cobalt := false, NH3 := false]
  {
  }

  /** The comparison is strict: a value equal to the threshold, or NaN, does not alert. */
  lemma ThresholdIsStrict(p: ForecastPoint, f: Feature)
    requires p.Get(f) == Fin(Threshold(f)) || p.Get(f) == NaN
    ensures !CheckThresholds([p])[f]
  {
  }

  // -------------------------------------------------------------------- model

  /** The trained network: a W x 3 matrix to a flat output vector, or `None` when inference throws. */
  type Net = seq<seq<Num>> -> Option<seq<Num>>

  /** What building and fitting left behind: the network now held, and whether fitting completed. */
  datatype FitOutcome = FitOutcome(net: Net, completed: bool)

  /** Building the network, creating the tensors and fitting them: opaque, given the inputs and targets. */
  type Fitter = (seq<seq<seq<Num>>>, seq<seq<Num>>) -> FitOutcome

  datatype TrainError = InsufficientData | FitFailed

  class PredictionModel {
    /** The network; `None` until training first builds one. */
    var model: Option<Net>
    var scalers: Scalers
    var initialized: bool

    /** Once trained, the model has a network and a scaler for every feature. */
    ghost predicate Valid()
      reads this
    {
      initialized ==> model.Some? && Fitted(scalers)
    }

    constructor()
      ensures Valid()
      ensures model.None? && scalers == map[] && !initialized
    {
      model := None;
      scalers := map[];
      initialized := false;
    }

    /** Stores, for each feature, the least and the greatest value of that feature in `data`. */
    method InitializeScalers(data: seq<Reading>)
      requires |data| > 0
      modifies this`scalers
      ensures scalers == FitScalers(data)
    {
      for k := 0 to |Features|
        invariant forall kk :: 0 <= kk < k ==> Features[kk] in scalers && scalers[Features[kk]] == FitScaler(data, Features[kk])
      {
        var f := Features[k];
        scalers := scalers[f := FitScaler(data, f)];
      }
      var fitted := FitScalers(data);
      forall g: Feature
        ensures g in scalers && g in fitted && scalers[g] == fitted[g]
      {
        var kk := match g case Nickel => 0 case Cobalt => 1 case NH3 => 2;
        assert Features[kk] == g;
      }
      assert scalers.Keys == fitted.Keys;
    }

    /** Builds the overlapping supervised examples, one for each start index `i` in `[W, N - P)`. */
    method PrepareSequences(data: seq<Reading>) returns (inputs: seq<seq<seq<Num>>>, targets: seq<seq<Num>>)
      requires Fitted(scalers)
      ensures inputs == SequenceInputs(scalers, data)
      ensures targets == SequenceTargets(scalers, data)
    {
      inputs, targets := [], [];
      var i: int := HistoricalWindow;
      while i < |data| - PredictionWindow
        invariant HistoricalWindow <= i <= HistoricalWindow + ExampleCount(|data|)
        invariant inputs == SequenceInputs(scalers, data)[..i - HistoricalWindow]
        invariant targets == SequenceTargets(scalers, data)[..i - HistoricalWindow]
      {
        var sequence: seq<seq<Num>> := [];
        var j := i - HistoricalWindow;
        while j < i
          invariant i - HistoricalWindow <= j <= i
          invariant |sequence| == j - (i - HistoricalWindow)
          invariant forall r :: 0 <= r < |sequence| ==> sequence[r] == ScaledPoint(scalers, data[i - HistoricalWindow + r])
        {
          sequence := sequence + [ScaledPoint(scalers, data[j])];
          j := j + 1;
        }
        assert sequence == ScaledRows(scalers, data[i - HistoricalWindow..i]);
        inputs := inputs + [sequence];

        var target: seq<Num> := [];
        j := i;
        while j < i + PredictionWindow
          invariant i <= j <= i + PredictionWindow
          invariant target == Flatten(ScaledRows(scalers, data[i..j]))
        {
          var before := ScaledRows(scalers, data[i..j]);
          var after := ScaledRows(scalers, data[i..j + 1]);
          assert after[..|after| - 1] == before;
          target := target + ScaledPoint(scalers, data[j]);
          j := j + 1;
        }
        targets := targets + [target];

        assert SequenceInputs(scalers, data)[..i + 1 - HistoricalWindow]
            == SequenceInputs(scalers, data)[..i - HistoricalWindow] + [sequence];
        assert SequenceTargets(scalers, data)[..i + 1 - HistoricalWindow]
            == SequenceTargets(scalers, data)[..i - HistoricalWindow] + [target];
        i := i + 1;
      }
      assert i - HistoricalWindow == ExampleCount(|data|);
    }

    /**
     * Refuses fewer than W + P readings; otherwise refits the scalers, builds
     * the examples and hands them to `fit`. Only a completed fit marks the
     * model initialized (a failed retraining leaves an earlier `true` alone).
     */
    method TrainModel(data: seq<Reading>, fit: Fitter) returns (r: Outcome<TrainError>)
      requires Valid()
      modifies this
      ensures Valid()
      ensures |data| < HistoricalWindow + PredictionWindow ==>
                && r == Fail(InsufficientData)
                && model == old(model) && scalers == old(scalers) && initialized == old(initialized)
      ensures |data| >= HistoricalWindow + PredictionWindow ==>
                var s := FitScalers(data);
                var outcome := fit(SequenceInputs(s, data), SequenceTargets(s, data));
                && scalers == s
                && model == Some(outcome.net)
                && r == (if outcome.completed then Pass else Fail(FitFailed))
                && initialized == (old(initialized) || outcome.completed)
    {
      if |data| < HistoricalWindow + PredictionWindow {
        return Fail(InsufficientData);
      }
      InitializeScalers(data);
      var inputs, targets := PrepareSequences(data);
      var outcome := fit(inputs, targets);
      model := Some(outcome.net);
      if outcome.completed {
        initialized := true;
        r := Pass;
      } else {
        r := Fail(FitFailed);
      }
    }

    /** What `predict(historicalData)` returns, as a function of the model's state. */
    function Forecast(historicalData: seq<Reading>): Option<seq<ForecastPoint>>
      reads this
      requires Valid()
    {
      if !initialized || |historicalData| < HistoricalWindow then None
      else
        var window := historicalData[|historicalData| - HistoricalWindow..];
        match model.value(ScaledRows(scalers, window))
        case None => None
        case Some(values) => Some(ForecastPoints(scalers, values, historicalData[|historicalData| - 1].timestamp))
    }

    /**
     * Null unless the model is initialized and at least W readings are given;
     * otherwise scales the last W of them, runs the network and decodes its
     * output into P points (null when inference throws).
     */
    method Predict(historicalData: seq<Reading>) returns (r: Option<seq<ForecastPoint>>)
      requires Valid()
      ensures r == Forecast(historicalData)
      ensures !initialized || |historicalData| < HistoricalWindow ==> r == None
      ensures r.Some? ==>
                && |r.value| == PredictionWindow
                && forall i :: 0 <= i < PredictionWindow ==>
                     r.value[i].timestamp == historicalData[|historicalData| - 1].timestamp + (i + 1) * MinuteMs
    {
      if !initialized || |historicalData| < HistoricalWindow {
        return None;
      }
      var n := |historicalData|;
      var sequence: seq<seq<Num>> := [];
      for i := n - HistoricalWindow to n
        invariant |sequence| == i - (n - HistoricalWindow)
        invariant forall k :: 0 <= k < |sequence| ==> sequence[k] == ScaledPoint(scalers, historicalData[n - HistoricalWindow + k])
      {
        sequence := sequence + [ScaledPoint(scalers, historicalData[i])];
      }
      assert sequence == ScaledRows(scalers, historicalData[n - HistoricalWindow..]);
      var prediction := model.value(sequence);
      if prediction.None? {
        return None;
      }
      var values := prediction.value;
      var lastTimestamp := historicalData[n - 1].timestamp;
      var predictions: seq<ForecastPoint> := [];
      for i := 0 to PredictionWindow
        invariant |predictions| == i
        invariant forall k :: 0 <= k < i ==> predictions[k] == ForecastPoints(scalers, values, lastTimestamp)[k]
      {
        var point := ForecastPoint(
          lastTimestamp + (i + 1) * MinuteMs,
          InverseScaleFeature(scalers[Nickel], At(values, i * FeatureCount + 0)),
          InverseScaleFeature(scalers[Cobalt], At(values, i * FeatureCount + 1)),
          InverseScaleFeature(scalers[NH3], At(values, i * FeatureCount + 2)));
        predictions := predictions + [point];
      }
      assert predictions == ForecastPoints(scalers, values, lastTimestamp);
      r := Some(predictions);
    }
  }

  /** A forecast depends on the history only through its last W readings. */
  lemma ForecastUsesLastWindow(m: PredictionModel, h1: seq<Reading>, h2: seq<Reading>)
    requires m.Valid()
    requires |h1| >= HistoricalWindow && |h2| >= HistoricalWindow
    requires h1[|h1| - HistoricalWindow..] == h2[|h2| - HistoricalWindow..]
    ensures m.Forecast(h1) == m.Forecast(h2)
  {
    assert h1[|h1| - 1] == h1[|h1| - HistoricalWindow..][HistoricalWindow - 1];
    assert h2[|h2| - 1] == h2[|h2| - HistoricalWindow..][HistoricalWindow - 1];
  }

  /** A successful forecast has P points, point `i` stamped `i + 1` minutes after the last reading given. */
  lemma ForecastShape(m: PredictionModel, h: seq<Reading>)
    requires m.Valid()
    requires m.Forecast(h).Some?
    ensures m.initialized && |h| >= HistoricalWindow
    ensures |m.Forecast(h).value| == PredictionWindow
    ensures forall i :: 0 <= i < PredictionWindow ==>
              m.Forecast(h).value[i].timestamp == h[|h| - 1].timestamp + (i + 1) * MinuteMs
  {
  }
}
