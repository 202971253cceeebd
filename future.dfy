/** Recursive multi-step forecasting: each series is forecast one future
    day at a time, and every clipped prediction is appended to the series'
    unit buffer so that later days' lag and rolling features see it as
    history. The regressor is a parameter (`predict`), and so is the square
    root used by the rolling standard deviation. */
module Future {
  import opened Common
  import Sorting

  /** A row of the future frame, with the calendar and price features that
      `build_future_frame` attaches. */
  datatype FutureRow = FutureRow(
    id: string, itemId: string, deptId: string, catId: string, storeId: string, stateId: string,
    date: int, weekday: int, month: int, year: int, snap: int, isEvent: int,
    sellPriceFilled: Option<real>, priceChangePct: real, priceIsNa: int)

  /** The regressor's input: the future row's features plus the lag and
      rolling features computed from the buffer. */
  datatype Features = Features(
    row: FutureRow, lag7: Option<real>, lag28: Option<real>,
    rollMean7: Option<real>, rollStd7: real, rollMean28: Option<real>, rollStd28: real)

  /** One output row: its features and the clipped prediction. */
  datatype Forecast = Forecast(features: Features, predUnits: real)

  /** A row of the history frame. */
  datatype HistoryRow = HistoryRow(id: string, date: int, units: real)

  /** `safe_lag(k)`: the `k`-th value from the end of the buffer, missing
      (never zero) when the buffer is shorter than `k`. */
  function SafeLag(buffer: seq<real>, k: nat): (lag: Option<real>)
    requires k > 0
    ensures lag.Some? <==> |buffer| >= k
    ensures lag.Some? ==> lag.value == buffer[|buffer| - k]
  {
    if |buffer| >= k then Some(buffer[|buffer| - k]) else None
  }

  /** `units_list[-w:]`: the last `w` values of the buffer, or the whole
      buffer when it is shorter. For `w == 0` Python's `[-0:]` is `[0:]`, so
      the window is again the whole buffer. */
  function Window(buffer: seq<real>, w: nat): (window: seq<real>)
    ensures |window| == if w == 0 then |buffer| else MinInt(w, |buffer|)
    ensures window == buffer[|buffer| - |window|..]
  {
    if w > 0 && |buffer| >= w then buffer[|buffer| - w..] else buffer
  }

  /** Population variance (`np.std` squares to it: `ddof = 0`). */
  function Variance(s: seq<real>): real
    requires |s| > 0
  {
    var m := Mean(s);
    Mean(seq(|s|, i requires 0 <= i < |s| => (s[i] - m) * (s[i] - m)))
  }

  /** `roll_stats(w)`: mean and standard deviation of the window, or
      (missing, 0.0) for an empty buffer. */
  function RollStats(buffer: seq<real>, w: nat, sqrt: real -> real): (stats: (Option<real>, real))
  {
    var window := Window(buffer, w);
    if |window| == 0 then (None, 0.0)
    else (Some(Mean(window)), sqrt(Variance(window)))
  }

  /** The rolling mean is missing exactly for an empty buffer, whatever the
      window size, and then the rolling standard deviation is 0, never
      missing; otherwise both are taken over the window. */
  lemma RollStatsSpec(buffer: seq<real>, w: nat, sqrt: real -> real)
    ensures var (mean, std) := RollStats(buffer, w, sqrt);
      (mean.None? <==> |buffer| == 0) &&
      (mean.None? ==> std == 0.0) &&
      (mean.Some? ==> mean.value == Mean(Window(buffer, w)) && std == sqrt(Variance(Window(buffer, w))))
  {
  }

  /** The features of one future row given the buffer so far. */
  function FeaturesFor(row: FutureRow, buffer: seq<real>, sqrt: real -> real): Features
  {
    var (rm7, rs7) := RollStats(buffer, 7, sqrt);
    var (rm28, rs28) := RollStats(buffer, 28, sqrt);
    Features(row, SafeLag(buffer, 7), SafeLag(buffer, 28), rm7, rs7, rm28, rs28)
  }

  /** The feature computation of `recursive_forecast`, as a function of the
      row and the buffer. */
  function Featurizer(sqrt: real -> real): (FutureRow, seq<real>) -> Features
  {
    (row: FutureRow, buffer: seq<real>) => FeaturesFor(row, buffer, sqrt)
  }

  /** The prediction for one row, clipped at 0. */
  function Predict(features: Features, predict: Features -> real): (y: real)
    ensures y >= 0.0 && y >= predict(features)
    ensures predict(features) >= 0.0 ==> y == predict(features)
  {
    Max(predict(features), 0.0)
  }

  /** The recursive forecast of one series' future rows from the buffer. */
  function Rollout(future: seq<FutureRow>, buffer: seq<real>, featuresOf: (FutureRow, seq<real>) -> Features, predict: Features -> real)
    : (out: seq<Forecast>)
    ensures |out| == |future|
  {
    if |future| == 0 then []
    else
      var f := featuresOf(future[0], buffer);
      var y := Predict(f, predict);
      [Forecast(f, y)] + Rollout(future[1..], buffer + [y], featuresOf, predict)
  }

  /** The predictions of a sequence of output rows. */
  function Preds(out: seq<Forecast>): (ys: seq<real>)
    ensures |ys| == |out|
  {
    if |out| == 0 then [] else Preds(out[..|out| - 1]) + [out[|out| - 1].predUnits]
  }

  lemma PredsAppend(out: seq<Forecast>, o: Forecast)
    ensures Preds(out + [o]) == Preds(out) + [o.predUnits]
  {
    assert (out + [o])[..|out|] == out;
  }

  /** The `i`-th prediction. */
  lemma {:induction false} PredsAt(out: seq<Forecast>)
    ensures forall i :: 0 <= i < |out| ==> Preds(out)[i] == out[i].predUnits
  {
    if |out| > 0 {
      PredsAt(out[..|out| - 1]);
    }
  }

  /** The predictions of a prefix are the prefix of the predictions. */
  lemma {:induction false} PredsPrefix(out: seq<Forecast>, i: nat)
    requires i <= |out|
    ensures Preds(out[..i]) == Preds(out)[..i]
  {
    PredsAt(out);
    PredsAt(out[..i]);
  }

  lemma PredsCons(o: Forecast, out: seq<Forecast>)
    ensures Preds([o] + out) == [o.predUnits] + Preds(out)
  {
    PredsAt([o] + out);
    PredsAt(out);
  }

  /** The first step of a rollout. */
  lemma RolloutCons(future: seq<FutureRow>, buffer: seq<real>, featuresOf: (FutureRow, seq<real>) -> Features, predict: Features -> real)
    requires |future| > 0
    ensures var f := featuresOf(future[0], buffer);
      var y := Predict(f, predict);
      Rollout(future, buffer, featuresOf, predict) == [Forecast(f, y)] + Rollout(future[1..], buffer + [y], featuresOf, predict)
  {
  }

  /** One iteration of the loop of `ForecastSeries` keeps its invariant. */
  lemma ForecastStep(future: seq<FutureRow>, history: seq<real>, featuresOf: (FutureRow, seq<real>) -> Features,
                     predict: Features -> real, i: nat, buffer: seq<real>, out: seq<Forecast>)
    requires i < |future|
    requires out + Rollout(future[i..], buffer, featuresOf, predict) == Rollout(future, history, featuresOf, predict)
    ensures var f := featuresOf(future[i], buffer);
      var o := Forecast(f, Max(predict(f), 0.0));
      (out + [o]) + Rollout(future[i + 1..], buffer + [o.predUnits], featuresOf, predict) == Rollout(future, history, featuresOf, predict)
  {
    assert future[i..][1..] == future[i + 1..] && future[i..][0] == future[i];
    RolloutCons(future[i..], buffer, featuresOf, predict);
  }

  /** The recursive forecast of one series. */
  method ForecastSeries(future: seq<FutureRow>, history: seq<real>, featuresOf: (FutureRow, seq<real>) -> Features, predict: Features -> real)
    returns (out: seq<Forecast>)
    ensures out == Rollout(future, history, featuresOf, predict)
  {
    var buffer := history;
    out := [];
    var i := 0;
    while i < |future|
      invariant 0 <= i <= |future|
      invariant buffer == history + Preds(out)
      invariant out + Rollout(future[i..], buffer, featuresOf, predict) == Rollout(future, history, featuresOf, predict)
    {
      var features := featuresOf(future[i], buffer);
      var yhat := predict(features);
      yhat := Max(yhat, 0.0);
      ForecastStep(future, history, featuresOf, predict, i, buffer, out);
      PredsAppend(out, Forecast(features, yhat));
      out := out + [Forecast(features, yhat)];
      buffer := buffer + [yhat];
      i := i + 1;
    }
    assert future[i..] == [];
  }

  /** Row `i` of a rollout: the features of future row `i` computed from the
      buffer followed by the predictions of rows `0..i-1`, and the clipped
      regressor output at those features. */
  lemma {:induction false} RolloutAt(future: seq<FutureRow>, buffer: seq<real>, featuresOf: (FutureRow, seq<real>) -> Features,
                                     predict: Features -> real, i: nat)
    requires i < |future|
    ensures var out := Rollout(future, buffer, featuresOf, predict);
      out[i].features == featuresOf(future[i], buffer + Preds(out[..i])) &&
      out[i].predUnits == Predict(out[i].features, predict)
    decreases i
  {
    var out := Rollout(future, buffer, featuresOf, predict);
    RolloutCons(future, buffer, featuresOf, predict);
    if i == 0 {
      assert out[..0] == [];
      assert buffer + Preds(out[..0]) == buffer;
    } else {
      var y := out[0].predUnits;
      var rest := Rollout(future[1..], buffer + [y], featuresOf, predict);
      RolloutAt(future[1..], buffer + [y], featuresOf, predict, i - 1);
      assert out[i] == rest[i - 1] && future[i] == future[1..][i - 1];
      assert out[..i] == [out[0]] + rest[..i - 1];
      PredsCons(out[0], rest[..i - 1]);
      assert buffer + Preds(out[..i]) == (buffer + [y]) + Preds(rest[..i - 1]);
    }
  }

  /** What each output row of a series sees, for every row at once. */
  lemma RolloutSpec(future: seq<FutureRow>, buffer: seq<real>, featuresOf: (FutureRow, seq<real>) -> Features, predict: Features -> real)
    ensures var out := Rollout(future, buffer, featuresOf, predict);
      forall i :: 0 <= i < |future| ==>
        out[i].features == featuresOf(future[i], buffer + Preds(out[..i])) &&
        out[i].predUnits == Predict(out[i].features, predict)
  {
    forall i | 0 <= i < |future| {
      RolloutAt(future, buffer, featuresOf, predict, i);
    }
  }

  /** Every prediction of a series is at least 0. */
  lemma RolloutNonNegative(future: seq<FutureRow>, buffer: seq<real>, featuresOf: (FutureRow, seq<real>) -> Features, predict: Features -> real)
    ensures forall o :: o in Rollout(future, buffer, featuresOf, predict) ==> o.predUnits >= 0.0
  {
    RolloutSpec(future, buffer, featuresOf, predict);
  }

  /** A feature computation that keeps the future row it is given. */
  ghost predicate KeepsRow(featuresOf: (FutureRow, seq<real>) -> Features)
  {
    forall row, buffer :: featuresOf(row, buffer).row == row
  }

  /** A feature computation whose lags are `SafeLag` on the buffer. */
  ghost predicate LagsFromBuffer(featuresOf: (FutureRow, seq<real>) -> Features)
  {
    forall row, buffer :: featuresOf(row, buffer).lag7 == SafeLag(buffer, 7) &&
                          featuresOf(row, buffer).lag28 == SafeLag(buffer, 28)
  }

  /** What `Featurizer` computes: the row itself, the lags by `SafeLag` on
      the buffer, and the rolling statistics over the last 7 and 28 values. */
  lemma FeaturizerSpec(sqrt: real -> real)
    ensures KeepsRow(Featurizer(sqrt)) && LagsFromBuffer(Featurizer(sqrt))
    ensures forall row, buffer ::
      (Featurizer(sqrt)(row, buffer).rollMean7, Featurizer(sqrt)(row, buffer).rollStd7) == RollStats(buffer, 7, sqrt) &&
      (Featurizer(sqrt)(row, buffer).rollMean28, Featurizer(sqrt)(row, buffer).rollStd28) == RollStats(buffer, 28, sqrt)
  {
  }

  /** Output row `i` of a series is built from future row `i`. */
  lemma RolloutRows(future: seq<FutureRow>, buffer: seq<real>, featuresOf: (FutureRow, seq<real>) -> Features, predict: Features -> real)
    requires KeepsRow(featuresOf)
    ensures var out := Rollout(future, buffer, featuresOf, predict);
      forall i :: 0 <= i < |future| ==> out[i].features.row == future[i]
  {
    RolloutSpec(future, buffer, featuresOf, predict);
  }

  /** The lags of output row `i` are taken from the history followed by the
      predictions of rows `0..i-1`. */
  lemma RolloutLags(future: seq<FutureRow>, buffer: seq<real>, featuresOf: (FutureRow, seq<real>) -> Features, predict: Features -> real, i: nat)
    requires LagsFromBuffer(featuresOf)
    requires i < |future|
    ensures var out := Rollout(future, buffer, featuresOf, predict);
      out[i].features.lag7 == SafeLag(buffer + Preds(out[..i]), 7) &&
      out[i].features.lag28 == SafeLag(buffer + Preds(out[..i]), 28)
  {
    var out := Rollout(future, buffer, featuresOf, predict);
    RolloutSpec(future, buffer, featuresOf, predict);
    var b := buffer + Preds(out[..i]);
    assert out[i].features == featuresOf(future[i], b);
  }

  /** Predictions feed back: once seven future rows have been forecast, the
      7-day lag of row `i` is the prediction made for row `i - 7`, and the
      28-day lag likewise; before that the lag reaches into the history. */
  lemma RolloutFeedsBack(future: seq<FutureRow>, buffer: seq<real>, featuresOf: (FutureRow, seq<real>) -> Features, predict: Features -> real, i: nat)
    requires LagsFromBuffer(featuresOf)
    requires i < |future|
    ensures var out := Rollout(future, buffer, featuresOf, predict);
      (i >= 7 ==> out[i].features.lag7 == Some(out[i - 7].predUnits)) &&
      (i >= 28 ==> out[i].features.lag28 == Some(out[i - 28].predUnits)) &&
      (i < 7 && |buffer| + i >= 7 ==> out[i].features.lag7 == Some(buffer[|buffer| + i - 7]))
  {
    var out := Rollout(future, buffer, featuresOf, predict);
    RolloutLags(future, buffer, featuresOf, predict, i);
    LagsOfPrefix(buffer, out, i);
  }

  /** The lags of the buffer extended by the predictions of `out[..i]`. */
  lemma LagsOfPrefix(buffer: seq<real>, out: seq<Forecast>, i: nat)
    requires i <= |out|
    ensures var b := buffer + Preds(out[..i]);
      (i >= 7 ==> SafeLag(b, 7) == Some(out[i - 7].predUnits)) &&
      (i >= 28 ==> SafeLag(b, 28) == Some(out[i - 28].predUnits)) &&
      (i < 7 && |buffer| + i >= 7 ==> SafeLag(b, 7) == Some(buffer[|buffer| + i - 7]))
  {
    var prefix := out[..i];
    var p := Preds(prefix);
    PredsAt(prefix);
    LagAfter(buffer, p, 7);
    LagAfter(buffer, p, 28);
    if i >= 7 {
      assert p[i - 7] == prefix[i - 7].predUnits;
    }
    if i >= 28 {
      assert p[i - 28] == prefix[i - 28].predUnits;
    }
  }

  /** A lag of the buffer extended by `p` reaches into `p` once `p` is long
      enough, and into the buffer before that. */
  lemma LagAfter(buffer: seq<real>, p: seq<real>, k: nat)
    requires k > 0
    ensures |p| >= k ==> SafeLag(buffer + p, k) == Some(p[|p| - k])
    ensures |p| < k <= |buffer| + |p| ==> SafeLag(buffer + p, k) == Some(buffer[|buffer| + |p| - k])
  {
  }

  // ---------------------------------------------------------------------
  // All series
  // ---------------------------------------------------------------------

  function HistoryOrder(): (HistoryRow, HistoryRow) -> bool
  {
    Sorting.Lex(Sorting.ByString((r: HistoryRow) => r.id), Sorting.Ascending((r: HistoryRow) => r.date))
  }

  function FutureOrder(): (FutureRow, FutureRow) -> bool
  {
    Sorting.Lex(Sorting.ByString((r: FutureRow) => r.id), Sorting.Ascending((r: FutureRow) => r.date))
  }

  /** The history ids in the order `groupby("id", sort=False)` meets them in the sorted frame. */
  function HistoryIds(sortedHistory: seq<HistoryRow>): seq<string>
  {
    Distinct(Map(sortedHistory, (r: HistoryRow) => r.id))
  }

  function HistoryHasId(id: string): HistoryRow -> bool
  {
    (r: HistoryRow) => r.id == id
  }

  function FutureHasId(id: string): FutureRow -> bool
  {
    (r: FutureRow) => r.id == id
  }

  /** A series' history rows (`h` of the `groupby`), in the frame's order. */
  function HistoryOf(sortedHistory: seq<HistoryRow>, id: string): seq<HistoryRow>
  {
    Filter(sortedHistory, HistoryHasId(id))
  }

  /** A series' history units, `h.sort_values("date")["units"]`. */
  function HistoryUnits(sortedHistory: seq<HistoryRow>, id: string): seq<real>
  {
    Map(HistoryOf(sortedHistory, id), (r: HistoryRow) => r.units)
  }

  /** A series' future rows, `fut[fut["id"] == _id]`. */
  function FutureOf(sortedFuture: seq<FutureRow>, id: string): seq<FutureRow>
  {
    Filter(sortedFuture, FutureHasId(id))
  }

  /** In the (id, date)-sorted history, a series' rows are exactly that
      series' rows of the input history, in non-decreasing date order, so the
      unit buffer starts with the history in date order (the `sort_values("date")`
      of the loop finds them already sorted). */
  lemma HistoryOfSorted(history: seq<HistoryRow>, id: string)
    ensures var h := HistoryOf(Sorting.Sort(history, HistoryOrder()), id);
      multiset(h) == multiset(Filter(history, HistoryHasId(id))) &&
      (forall i, j :: 0 <= i < j < |h| ==> h[i].date <= h[j].date) &&
      HistoryUnits(Sorting.Sort(history, HistoryOrder()), id) == Map(h, (r: HistoryRow) => r.units)
  {
    var sorted := Sorting.Sort(history, HistoryOrder());
    var h := HistoryOf(sorted, id);
    FilterPermutation(sorted, history, HistoryHasId(id));
    Sorting.ByStringIsStrictWeakOrder((r: HistoryRow) => r.id);
    Sorting.AscendingIsStrictWeakOrder((r: HistoryRow) => r.date);
    Sorting.LexIsStrictWeakOrder(Sorting.ByString((r: HistoryRow) => r.id), Sorting.Ascending((r: HistoryRow) => r.date));
    Sorting.SortSorted(history, HistoryOrder());
    Sorting.FilterSortedBy(sorted, HistoryHasId(id), HistoryOrder());
    Sorting.StrLessIrreflexive(id);
    forall i, j | 0 <= i < j < |h| ensures h[i].date <= h[j].date {
      assert h[i] in h && h[j] in h;
      assert !HistoryOrder()(h[j], h[i]);
    }
  }

  /** In the (id, date)-sorted future frame, a series' rows are exactly that
      series' rows of the input frame, in non-decreasing date order. */
  lemma FutureOfSorted(future: seq<FutureRow>, id: string)
    ensures var f := FutureOf(Sorting.Sort(future, FutureOrder()), id);
      multiset(f) == multiset(Filter(future, FutureHasId(id))) &&
      (forall i, j :: 0 <= i < j < |f| ==> f[i].date <= f[j].date)
  {
    var sorted := Sorting.Sort(future, FutureOrder());
    var f := FutureOf(sorted, id);
    FilterPermutation(sorted, future, FutureHasId(id));
    Sorting.ByStringIsStrictWeakOrder((r: FutureRow) => r.id);
    Sorting.AscendingIsStrictWeakOrder((r: FutureRow) => r.date);
    Sorting.LexIsStrictWeakOrder(Sorting.ByString((r: FutureRow) => r.id), Sorting.Ascending((r: FutureRow) => r.date));
    Sorting.SortSorted(future, FutureOrder());
    Sorting.FilterSortedBy(sorted, FutureHasId(id), FutureOrder());
    Sorting.StrLessIrreflexive(id);
    forall i, j | 0 <= i < j < |f| ensures f[i].date <= f[j].date {
      assert f[i] in f && f[j] in f;
      assert !FutureOrder()(f[j], f[i]);
    }
  }

  /** The output for the ids, series after series; a series without future rows adds nothing. */
  function ForecastAll(ids: seq<string>, sortedHistory: seq<HistoryRow>, sortedFuture: seq<FutureRow>,
                       featuresOf: (FutureRow, seq<real>) -> Features, predict: Features -> real): seq<Forecast>
  {
    if |ids| == 0 then []
    else
      var id := ids[|ids| - 1];
      var f := FutureOf(sortedFuture, id);
      ForecastAll(ids[..|ids| - 1], sortedHistory, sortedFuture, featuresOf, predict) +
        (if |f| == 0 then [] else Rollout(f, HistoryUnits(sortedHistory, id), featuresOf, predict))
  }

  /** Extending the ids by one appends that id's series. */
  lemma ForecastAllStep(ids: seq<string>, k: nat, sortedHistory: seq<HistoryRow>, sortedFuture: seq<FutureRow>,
                        featuresOf: (FutureRow, seq<real>) -> Features, predict: Features -> real)
    requires k < |ids|
    ensures var f := FutureOf(sortedFuture, ids[k]);
      ForecastAll(ids[..k + 1], sortedHistory, sortedFuture, featuresOf, predict) ==
        ForecastAll(ids[..k], sortedHistory, sortedFuture, featuresOf, predict) +
        (if |f| == 0 then [] else Rollout(f, HistoryUnits(sortedHistory, ids[k]), featuresOf, predict))
  {
    assert ids[..k + 1][..k] == ids[..k];
  }

  /** `recursive_forecast`. */
  method RecursiveForecast(history: seq<HistoryRow>, future: seq<FutureRow>, predict: Features -> real, sqrt: real -> real)
    returns (out: seq<Forecast>)
    ensures out == ForecastAll(HistoryIds(Sorting.Sort(history, HistoryOrder())), Sorting.Sort(history, HistoryOrder()),
                               Sorting.Sort(future, FutureOrder()), Featurizer(sqrt), predict)
  {
    var hist := Sorting.Sort(history, HistoryOrder());
    var fut := Sorting.Sort(future, FutureOrder());
    var ids := HistoryIds(hist);
    out := [];
    var k := 0;
    while k < |ids|
      invariant 0 <= k <= |ids|
      invariant out == ForecastAll(ids[..k], hist, fut, Featurizer(sqrt), predict)
    {
      ForecastAllStep(ids, k, hist, fut, Featurizer(sqrt), predict);
      var f := FutureOf(fut, ids[k]);
      if |f| > 0 {
        var units := HistoryUnits(hist, ids[k]);
        var series := ForecastSeries(f, units, Featurizer(sqrt), predict);
        out := out + series;
      }
      k := k + 1;
    }
    assert ids[..|ids|] == ids;
  }

  /** Every output row comes from a future row whose id also has history:
      ids found only in the future frame produce nothing. */
  lemma {:induction false} ForecastRowsFromBoth(ids: seq<string>, sortedHistory: seq<HistoryRow>,
                                                sortedFuture: seq<FutureRow>, featuresOf: (FutureRow, seq<real>) -> Features,
                                                predict: Features -> real)
    requires KeepsRow(featuresOf)
    ensures forall o :: o in ForecastAll(ids, sortedHistory, sortedFuture, featuresOf, predict) ==>
      o.features.row in sortedFuture && o.features.row.id in ids
  {
    if |ids| > 0 {
      var id := ids[|ids| - 1];
      var f := FutureOf(sortedFuture, id);
      ForecastRowsFromBoth(ids[..|ids| - 1], sortedHistory, sortedFuture, featuresOf, predict);
      assert forall x :: x in ids[..|ids| - 1] ==> x in ids;
      if |f| > 0 {
        var r := Rollout(f, HistoryUnits(sortedHistory, id), featuresOf, predict);
        RolloutRows(f, HistoryUnits(sortedHistory, id), featuresOf, predict);
        forall o | o in r ensures o.features.row in sortedFuture && o.features.row.id == id {
          var i :| 0 <= i < |r| && r[i] == o;
          assert o.features.row == f[i];
          assert f[i] in f;
        }
      }
    }
  }

  function HasId(id: string): Forecast -> bool
  {
    (o: Forecast) => o.features.row.id == id
  }

  /** Every row of a rollout of one series' future rows carries that series' id. */
  lemma RolloutIds(f: seq<FutureRow>, buffer: seq<real>, featuresOf: (FutureRow, seq<real>) -> Features,
                   predict: Features -> real, id: string)
    requires KeepsRow(featuresOf)
    requires forall r :: r in f ==> r.id == id
    ensures forall o :: o in Rollout(f, buffer, featuresOf, predict) ==> HasId(id)(o)
  {
    var block := Rollout(f, buffer, featuresOf, predict);
    RolloutRows(f, buffer, featuresOf, predict);
    forall o | o in block ensures HasId(id)(o) {
      var i :| 0 <= i < |block| && block[i] == o;
      assert o.features.row == f[i] && f[i] in f;
    }
  }

  /** The output rows of one series are that series' rollout, when the
      series has history, and nothing otherwise. */
  lemma {:induction false} ForecastOfSeries(ids: seq<string>, sortedHistory: seq<HistoryRow>,
                                            sortedFuture: seq<FutureRow>, featuresOf: (FutureRow, seq<real>) -> Features,
                                            predict: Features -> real, id: string)
    requires KeepsRow(featuresOf)
    requires forall i, j :: 0 <= i < j < |ids| ==> ids[i] != ids[j]
    ensures Filter(ForecastAll(ids, sortedHistory, sortedFuture, featuresOf, predict), HasId(id)) ==
            if id in ids then Rollout(FutureOf(sortedFuture, id), HistoryUnits(sortedHistory, id), featuresOf, predict) else []
  {
    if |ids| > 0 {
      var init := ids[..|ids| - 1];
      var last := ids[|ids| - 1];
      var f := FutureOf(sortedFuture, last);
      ForecastOfSeries(init, sortedHistory, sortedFuture, featuresOf, predict, id);
      var prefix := ForecastAll(init, sortedHistory, sortedFuture, featuresOf, predict);
      var block := if |f| == 0 then [] else Rollout(f, HistoryUnits(sortedHistory, last), featuresOf, predict);
      assert ForecastAll(ids, sortedHistory, sortedFuture, featuresOf, predict) == prefix + block;
      FilterConcat(prefix, block, HasId(id));
      assert block == Rollout(f, HistoryUnits(sortedHistory, last), featuresOf, predict);
      RolloutIds(f, HistoryUnits(sortedHistory, last), featuresOf, predict, last);
      assert id in ids <==> id in init || id == last;
      if last == id {
        FilterAll(block, HasId(id));
        assert id !in init;
      } else {
        FilterNone(block, HasId(id));
      }
    }
  }

  /** The forecast frame of one id: the id's rollout over its future rows in
      date order, from its history units in date order (ids without history
      produce nothing), so the id's output dates never decrease. */
  lemma RecursiveForecastSeries(history: seq<HistoryRow>, future: seq<FutureRow>, predict: Features -> real,
                                sqrt: real -> real, id: string)
    ensures var hist := Sorting.Sort(history, HistoryOrder());
      var fut := Sorting.Sort(future, FutureOrder());
      var o := Filter(ForecastAll(HistoryIds(hist), hist, fut, Featurizer(sqrt), predict), HasId(id));
      o == (if id in HistoryIds(hist) then Rollout(FutureOf(fut, id), HistoryUnits(hist, id), Featurizer(sqrt), predict) else []) &&
      (forall i, j :: 0 <= i < j < |o| ==> o[i].features.row.date <= o[j].features.row.date)
  {
    var hist := Sorting.Sort(history, HistoryOrder());
    var fut := Sorting.Sort(future, FutureOrder());
    FeaturizerSpec(sqrt);
    ForecastOfSeries(HistoryIds(hist), hist, fut, Featurizer(sqrt), predict, id);
    FutureOfSorted(future, id);
    RolloutKeepsDateOrder(FutureOf(fut, id), HistoryUnits(hist, id), Featurizer(sqrt), predict);
  }

  /** A rollout over date-ordered future rows is date-ordered. */
  lemma RolloutKeepsDateOrder(f: seq<FutureRow>, buffer: seq<real>, featuresOf: (FutureRow, seq<real>) -> Features,
                              predict: Features -> real)
    requires KeepsRow(featuresOf)
    requires forall i, j :: 0 <= i < j < |f| ==> f[i].date <= f[j].date
    ensures var o := Rollout(f, buffer, featuresOf, predict);
      forall i, j :: 0 <= i < j < |o| ==> o[i].features.row.date <= o[j].features.row.date
  {
    RolloutRows(f, buffer, featuresOf, predict);
  }

  /** A series appears in the output exactly once per future row when it has
      history, and not at all otherwise. */
  lemma {:induction false} ForecastCountPerSeries(ids: seq<string>, sortedHistory: seq<HistoryRow>,
                                                  sortedFuture: seq<FutureRow>, featuresOf: (FutureRow, seq<real>) -> Features,
                                                  predict: Features -> real, id: string)
    requires KeepsRow(featuresOf)
    requires forall i, j :: 0 <= i < j < |ids| ==> ids[i] != ids[j]
    ensures |Filter(ForecastAll(ids, sortedHistory, sortedFuture, featuresOf, predict), HasId(id))| ==
            if id in ids then |FutureOf(sortedFuture, id)| else 0
  {
    ForecastOfSeries(ids, sortedHistory, sortedFuture, featuresOf, predict, id);
  }
}
