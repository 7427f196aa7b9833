/**
 * The inference pipeline around the (opaque) model: loading the local
 * artifacts, building the forecast feature rows, the prediction-tracking ledger
 * (a CSV file rewritten on every run) and the predicted-versus-actual view.
 */
module Inference {
  import opened Wrappers
  import opened Frames
  import opened Disk
  import opened Stats
  import Calendar
  import Sorting
  import Dedup
  import FeatureBackfill
  import Training

  /* ---------------- Loading the local model ---------------- */

  /** The serialised booster and the parsed `feature_names.json` document. */
  datatype LoadedModel = LoadedModel(model: FileContent, featureNames: Json)

  /**
   * `load_model_local`: FileNotFoundError when the experiment directory is
   * absent; the booster and the JSON loader fail when their file is missing or
   * the feature-name file is not a JSON document.
   */
  function LoadModelLocal(dirs: map<string, Directory>, experiment: string): (r: Result<LoadedModel>)
    ensures var dir := Training.ExperimentDir(experiment);
      r.Ok? <==> dir in dirs && Training.ModelFileName in dirs[dir] &&
                 Training.FeatureNamesFile in dirs[dir] && dirs[dir][Training.FeatureNamesFile].JsonFile?
    ensures r.Err? && Training.ExperimentDir(experiment) !in dirs ==> r.error.NotFound?
  {
    var dir := Training.ExperimentDir(experiment);
    if dir !in dirs then Err(NotFound(dir))
    else if Training.ModelFileName !in dirs[dir] then Err(NotFound(Training.ModelFileName))
    else if Training.FeatureNamesFile !in dirs[dir] then Err(NotFound(Training.FeatureNamesFile))
    else match dirs[dir][Training.FeatureNamesFile]
      case JsonFile(doc) => Ok(LoadedModel(dirs[dir][Training.ModelFileName], doc))
      case ModelFile(_) => Err(TypeMismatch("feature_names.json is not a JSON document"))
  }

  /**
   * The directory `save_model_local` writes is the one `load_model_local`
   * reads: the model loads, and the saved feature names come back unchanged.
   */
  lemma SavedModelLoads(dirs: map<string, Directory>, payload: string, featureNames: seq<string>,
                        metrics: map<string, Json>, experiment: string)
    ensures var dir := Training.ExperimentDir(experiment);
      var after := dirs[dir := Training.WithArtifacts(if dir in dirs then dirs[dir] else map[],
                                                      payload, featureNames, metrics)];
      && LoadModelLocal(after, experiment) == Ok(LoadedModel(ModelFile(payload), EncodeNames(featureNames)))
      && DecodeNames(LoadModelLocal(after, experiment).value.featureNames) == Some(featureNames)
  {
    NamesRoundTrip(featureNames);
  }

  /* ---------------- Forecast features ---------------- */

  const Hour := "hour"
  const RecentLimit := 200

  /** Row offsets into the price history: the two lags and the rolling window. */
  datatype Offsets = Offsets(lag1: nat, lag7: nat, window: nat)

  /** The offsets the pipeline uses (hours in a day and in a week). */
  const HourlyOffsets := Offsets(24, 168, 168)

  /** Offsets counted in rows of the daily history. */
  const DailyOffsets := Offsets(1, 7, 7)

  /** The history's price column, missing cells as None. */
  function HistoryPrices(history: DailyFrame): (h: seq<Option<real>>)
    ensures |h| == |history.rows|
    ensures forall i :: 0 <= i < |h| ==> h[i] == NumOf(history.rows[i], FeatureBackfill.Price)
  {
    seq(|history.rows|, i requires 0 <= i < |history.rows| => NumOf(history.rows[i], FeatureBackfill.Price))
  }

  /** `tail(200)`: the last (at most) 200 prices. */
  function Recent(h: seq<Option<real>>): (r: seq<Option<real>>)
    ensures |r| == if |h| < RecentLimit then |h| else RecentLimit
    ensures r == h[|h| - |r|..]
  {
    if |h| <= RecentLimit then h else h[|h| - RecentLimit..]
  }

  /** `recent[-k]` when at least `k` prices exist, else `recent[-1]`. */
  function Pick(recent: seq<Option<real>>, k: nat): Option<real>
    requires |recent| > 0
  {
    if k >= 1 && |recent| >= k then recent[|recent| - k] else recent[|recent| - 1]
  }

  /** `recent[-w:]` when at least `w` prices exist, else all of them. */
  function Tail(recent: seq<Option<real>>, w: nat): seq<Option<real>>
  {
    if |recent| >= w then recent[|recent| - w..] else recent
  }

  /** `np.mean`: NaN as soon as one value is NaN. */
  function NanMean(xs: seq<Option<real>>): (m: Option<real>)
    ensures m.Some? <==> |xs| > 0 && forall i :: 0 <= i < |xs| ==> xs[i].Some?
  {
    if |xs| > 0 && forall i :: 0 <= i < |xs| ==> xs[i].Some? then Some(Mean(Present(xs))) else None
  }

  /** `np.std` (population deviation, supplied as `populationStd`): NaN as soon as one value is NaN. */
  function NanStd(xs: seq<Option<real>>, populationStd: seq<real> -> real): Option<real>
  {
    if |xs| > 0 && forall i :: 0 <= i < |xs| ==> xs[i].Some? then Some(populationStd(Present(xs))) else None
  }

  function Lift(v: Option<real>): Option<Value>
  {
    if v.Some? then Some(Num(v.value)) else None
  }

  /** The columns the forecast frame holds before the default fill, besides its weather columns. */
  function Assigned(dayOfYear: bool): (cs: set<string>)
  {
    {"date", Hour, FeatureBackfill.DayOfWeekColumn, FeatureBackfill.MonthColumn, FeatureBackfill.IsWeekendColumn,
     FeatureBackfill.TempSquared, FeatureBackfill.WindTemp, FeatureBackfill.Lag1, FeatureBackfill.Lag7,
     FeatureBackfill.RollingMeanColumn, FeatureBackfill.RollingStdColumn} +
    (if dayOfYear then {FeatureBackfill.DayOfYearColumn} else {})
  }

  /**
   * The cell in column `c` of forecast row `i`.  Dates are day numbers, so the
   * hour is 0.  A column neither assigned nor among the forecast's columns is the
   * default 0.  `dayOfYear` says whether `day_of_year` is computed.
   */
  function ForecastCell(forecast: DailyFrame, i: nat, c: string, recent: seq<Option<real>>, off: Offsets,
                        dayOfYear: bool, populationStd: seq<real> -> real): Option<Value>
    requires i < |forecast.rows| && |recent| > 0
  {
    var r := forecast.rows[i];
    var dow := Calendar.DayOfWeek(r.date);
    var t := NumOf(r, FeatureBackfill.Temperature);
    if c == "date" then Some(Day(r.date))
    else if c == Hour then Some(Num(0.0))
    else if c == FeatureBackfill.DayOfWeekColumn then Some(Num(dow as real))
    else if c == FeatureBackfill.MonthColumn then Some(Num(Calendar.Month(r.date) as real))
    else if c == FeatureBackfill.IsWeekendColumn then Some(Num(if dow >= 5 then 1.0 else 0.0))
    else if dayOfYear && c == FeatureBackfill.DayOfYearColumn then Some(Num(Calendar.DayOfYear(r.date) as real))
    else if c == FeatureBackfill.TempSquared then Lift(FeatureBackfill.Product(t, t))
    else if c == FeatureBackfill.WindTemp then Lift(FeatureBackfill.Product(NumOf(r, FeatureBackfill.Wind), t))
    else if c == FeatureBackfill.Lag1 then Lift(Pick(recent, off.lag1))
    else if c == FeatureBackfill.Lag7 then Lift(Pick(recent, off.lag7))
    else if c == FeatureBackfill.RollingMeanColumn then Lift(NanMean(Tail(recent, off.window)))
    else if c == FeatureBackfill.RollingStdColumn then Lift(NanStd(Tail(recent, off.window), populationStd))
    else if c in forecast.columns then Lift(NumOf(r, c))
    else Some(Num(0.0))
  }

  /** Forecast row `i` restricted to `featureNames` (`forecast_df[feature_names]`). */
  function ForecastRow(forecast: DailyFrame, i: nat, featureNames: seq<string>, recent: seq<Option<real>>,
                       off: Offsets, dayOfYear: bool, populationStd: seq<real> -> real): (row: Row)
    requires i < |forecast.rows| && |recent| > 0
    ensures forall c :: c in featureNames ==> Cell(row, c) == ForecastCell(forecast, i, c, recent, off, dayOfYear, populationStd)
    ensures forall c :: c in row ==> c in featureNames
  {
    map c | c in featureNames && ForecastCell(forecast, i, c, recent, off, dayOfYear, populationStd).Some? ::
      ForecastCell(forecast, i, c, recent, off, dayOfYear, populationStd).value
  }

  /**
   * The forecast feature frame for given offsets.  KeyError when the forecast
   * lacks temperature or wind or the history lacks the price column; IndexError
   * (`recent_prices[-1]`) when the history has no rows: no default is used.
   */
  function PrepareWith(forecast: DailyFrame, history: DailyFrame, featureNames: seq<string>, off: Offsets,
                       dayOfYear: bool, populationStd: seq<real> -> real): (r: Result<Frame>)
    ensures r.Err? <==> FeatureBackfill.Temperature !in forecast.columns || FeatureBackfill.Wind !in forecast.columns ||
                        FeatureBackfill.Price !in history.columns || |history.rows| == 0
    ensures r.Ok? ==> r.value.columns == featureNames && |r.value.rows| == |forecast.rows|
  {
    if FeatureBackfill.Temperature !in forecast.columns then Err(MissingColumn(FeatureBackfill.Temperature))
    else if FeatureBackfill.Wind !in forecast.columns then Err(MissingColumn(FeatureBackfill.Wind))
    else if FeatureBackfill.Price !in history.columns then Err(MissingColumn(FeatureBackfill.Price))
    else if |history.rows| == 0 then Err(InvalidValue("index -1 is out of bounds"))
    else
      var recent := Recent(HistoryPrices(history));
      Ok(Frame(featureNames, seq(|forecast.rows|, i requires 0 <= i < |forecast.rows| =>
        ForecastRow(forecast, i, featureNames, recent, off, dayOfYear, populationStd))))
  }

  /** `prepare_forecast_features` as written: hourly offsets, no `day_of_year`. */
  function PrepareForecastFeatures(forecast: DailyFrame, history: DailyFrame, featureNames: seq<string>,
                                   populationStd: seq<real> -> real): (r: Result<Frame>)
    ensures r.Err? <==> FeatureBackfill.Temperature !in forecast.columns || FeatureBackfill.Wind !in forecast.columns ||
                        FeatureBackfill.Price !in history.columns || |history.rows| == 0
    ensures r.Ok? ==> r.value.columns == featureNames && |r.value.rows| == |forecast.rows|
  {
    PrepareWith(forecast, history, featureNames, HourlyOffsets, false, populationStd)
  }

  /** The forecast features with daily offsets and `day_of_year` computed. */
  function PrepareForecastFeaturesDaily(forecast: DailyFrame, history: DailyFrame, featureNames: seq<string>,
                                        populationStd: seq<real> -> real): (r: Result<Frame>)
    ensures r.Err? <==> FeatureBackfill.Temperature !in forecast.columns || FeatureBackfill.Wind !in forecast.columns ||
                        FeatureBackfill.Price !in history.columns || |history.rows| == 0
    ensures r.Ok? ==> r.value.columns == featureNames && |r.value.rows| == |forecast.rows|
  {
    PrepareWith(forecast, history, featureNames, DailyOffsets, true, populationStd)
  }

  /** A requested cell of forecast row `i`. */
  function Out(r: Result<Frame>, i: nat, c: string): Option<Value>
    requires r.Ok? && i < |r.value.rows|
  {
    Cell(r.value.rows[i], c)
  }

  /** The recent prices every forecast row draws on. */
  function RecentOf(history: DailyFrame): seq<Option<real>>
  {
    Recent(HistoryPrices(history))
  }

  /** A requested cell of an output row is the forecast cell for that column. */
  lemma PreparedCell(forecast: DailyFrame, history: DailyFrame, featureNames: seq<string>, off: Offsets,
                     dayOfYear: bool, populationStd: seq<real> -> real, i: nat, c: string)
    requires PrepareWith(forecast, history, featureNames, off, dayOfYear, populationStd).Ok?
    requires i < |forecast.rows| && c in featureNames
    ensures |RecentOf(history)| > 0
    ensures Out(PrepareWith(forecast, history, featureNames, off, dayOfYear, populationStd), i, c) ==
            ForecastCell(forecast, i, c, RecentOf(history), off, dayOfYear, populationStd)
  {
    var r := PrepareWith(forecast, history, featureNames, off, dayOfYear, populationStd);
    assert r.value.rows[i] == ForecastRow(forecast, i, featureNames, RecentOf(history), off, dayOfYear, populationStd);
  }

  /** The history cells of a forecast row, for any offsets. */
  lemma HistoryCells(forecast: DailyFrame, i: nat, recent: seq<Option<real>>, off: Offsets, dayOfYear: bool,
                     populationStd: seq<real> -> real)
    requires i < |forecast.rows| && |recent| > 0
    ensures ForecastCell(forecast, i, FeatureBackfill.Lag1, recent, off, dayOfYear, populationStd) == Lift(Pick(recent, off.lag1))
    ensures ForecastCell(forecast, i, FeatureBackfill.Lag7, recent, off, dayOfYear, populationStd) == Lift(Pick(recent, off.lag7))
    ensures ForecastCell(forecast, i, FeatureBackfill.RollingMeanColumn, recent, off, dayOfYear, populationStd) ==
            Lift(NanMean(Tail(recent, off.window)))
  {
  }

  /** Within the `tail(200)` cut, `recent[-k]` is the history's `h[-k]`, and the last price when fewer exist. */
  lemma RecentLag(history: DailyFrame, k: nat)
    requires |history.rows| > 0 && 1 <= k <= RecentLimit
    ensures var h := HistoryPrices(history);
      |RecentOf(history)| > 0 && Pick(RecentOf(history), k) == if |h| >= k then h[|h| - k] else h[|h| - 1]
  {
  }

  /** Within the `tail(200)` cut, `recent[-w:]` is the history's `h[-w:]`, and all of it when shorter. */
  lemma RecentWindow(history: DailyFrame, w: nat)
    requires w <= RecentLimit
    ensures var h := HistoryPrices(history);
      Tail(RecentOf(history), w) == if |h| >= w then h[|h| - w..] else h
  {
  }

  /**
   * The lags every forecast row shares: `price_lag_1d` is the price 24 rows
   * from the end of the history (the last one when fewer exist) and
   * `price_lag_7d` the one 168 rows from the end.  The `tail(200)` cut never
   * matters for these.
   */
  lemma ForecastLags(forecast: DailyFrame, history: DailyFrame, featureNames: seq<string>,
                     populationStd: seq<real> -> real, i: nat)
    requires PrepareForecastFeatures(forecast, history, featureNames, populationStd).Ok?
    requires i < |forecast.rows|
    ensures var r := PrepareForecastFeatures(forecast, history, featureNames, populationStd);
      var h := HistoryPrices(history);
      && (FeatureBackfill.Lag1 in featureNames ==>
            Out(r, i, FeatureBackfill.Lag1) == Lift(if |h| >= 24 then h[|h| - 24] else h[|h| - 1]))
      && (FeatureBackfill.Lag7 in featureNames ==>
            Out(r, i, FeatureBackfill.Lag7) == Lift(if |h| >= 168 then h[|h| - 168] else h[|h| - 1]))
  {
    RecentLag(history, 24);
    RecentLag(history, 168);
    HistoryCells(forecast, i, RecentOf(history), HourlyOffsets, false, populationStd);
    if FeatureBackfill.Lag1 in featureNames {
      PreparedCell(forecast, history, featureNames, HourlyOffsets, false, populationStd, i, FeatureBackfill.Lag1);
    }
    if FeatureBackfill.Lag7 in featureNames {
      PreparedCell(forecast, history, featureNames, HourlyOffsets, false, populationStd, i, FeatureBackfill.Lag7);
    }
  }

  /**
   * The rolling mean every forecast row shares: the NaN-propagating mean of
   * the last 168 prices, or of all of them when fewer exist.
   */
  lemma ForecastRollingMean(forecast: DailyFrame, history: DailyFrame, featureNames: seq<string>,
                            populationStd: seq<real> -> real, i: nat)
    requires PrepareForecastFeatures(forecast, history, featureNames, populationStd).Ok?
    requires i < |forecast.rows| && FeatureBackfill.RollingMeanColumn in featureNames
    ensures var r := PrepareForecastFeatures(forecast, history, featureNames, populationStd);
      var h := HistoryPrices(history);
      Out(r, i, FeatureBackfill.RollingMeanColumn) == Lift(NanMean(if |h| >= 168 then h[|h| - 168..] else h))
  {
    PreparedCell(forecast, history, featureNames, HourlyOffsets, false, populationStd, i, FeatureBackfill.RollingMeanColumn);
    HistoryCells(forecast, i, RecentOf(history), HourlyOffsets, false, populationStd);
    RecentWindow(history, 168);
  }

  /**
   * Every requested feature the forecast frame does not have is 0 in every row,
   * and the output's columns are exactly the requested names in their order.
   */
  lemma ForecastDefaults(forecast: DailyFrame, history: DailyFrame, featureNames: seq<string>,
                         populationStd: seq<real> -> real, i: nat, c: string)
    requires PrepareForecastFeatures(forecast, history, featureNames, populationStd).Ok?
    requires i < |forecast.rows|
    requires c in featureNames && c !in Assigned(false) && c !in forecast.columns
    ensures var r := PrepareForecastFeatures(forecast, history, featureNames, populationStd);
      r.value.columns == featureNames && Out(r, i, c) == Some(Num(0.0))
  {
    PreparedCell(forecast, history, featureNames, HourlyOffsets, false, populationStd, i, c);
    DefaultCell(forecast, i, c, RecentOf(history), HourlyOffsets, false, populationStd);
  }

  /** A column neither assigned nor in the forecast frame is filled with 0. */
  lemma DefaultCell(forecast: DailyFrame, i: nat, c: string, recent: seq<Option<real>>, off: Offsets,
                    dayOfYear: bool, populationStd: seq<real> -> real)
    requires i < |forecast.rows| && |recent| > 0
    requires c !in Assigned(dayOfYear) && c !in forecast.columns
    ensures ForecastCell(forecast, i, c, recent, off, dayOfYear, populationStd) == Some(Num(0.0))
  {
    assert c != "date" && c != Hour && c != FeatureBackfill.DayOfWeekColumn && c != FeatureBackfill.MonthColumn;
    assert c != FeatureBackfill.IsWeekendColumn && c != FeatureBackfill.TempSquared && c != FeatureBackfill.WindTemp;
    assert c != FeatureBackfill.Lag1 && c != FeatureBackfill.Lag7;
    assert c != FeatureBackfill.RollingMeanColumn && c != FeatureBackfill.RollingStdColumn;
    assert !(dayOfYear && c == FeatureBackfill.DayOfYearColumn);
  }

  /** The calendar cells come from the row's date; the hour of a day is 0. */
  lemma ForecastCalendar(forecast: DailyFrame, history: DailyFrame, featureNames: seq<string>,
                         populationStd: seq<real> -> real, i: nat)
    requires PrepareForecastFeatures(forecast, history, featureNames, populationStd).Ok?
    requires i < |forecast.rows|
    ensures var r := PrepareForecastFeatures(forecast, history, featureNames, populationStd);
      var d := forecast.rows[i].date;
      && (Hour in featureNames ==> Out(r, i, Hour) == Some(Num(0.0)))
      && (FeatureBackfill.DayOfWeekColumn in featureNames ==>
            Out(r, i, FeatureBackfill.DayOfWeekColumn) == Some(Num(Calendar.DayOfWeek(d) as real)))
      && (FeatureBackfill.MonthColumn in featureNames ==>
            Out(r, i, FeatureBackfill.MonthColumn) == Some(Num(Calendar.Month(d) as real)))
      && (FeatureBackfill.IsWeekendColumn in featureNames ==>
            && (Out(r, i, FeatureBackfill.IsWeekendColumn) == Some(Num(1.0)) <==> Calendar.DayOfWeek(d) >= 5)
            && (Out(r, i, FeatureBackfill.IsWeekendColumn) == Some(Num(0.0)) <==> Calendar.DayOfWeek(d) < 5))
  {
  }

  /**
   * As written, `day_of_year` is never computed for a forecast: unless the
   * weather forecast happens to carry that column, it is 0, whereas every
   * training row carries the row's day of the year (at least 1).
   */
  lemma ForecastDayOfYearIsZero(forecast: DailyFrame, history: DailyFrame, featureNames: seq<string>,
                                populationStd: seq<real> -> real, i: nat)
    requires PrepareForecastFeatures(forecast, history, featureNames, populationStd).Ok?
    requires i < |forecast.rows|
    requires FeatureBackfill.DayOfYearColumn in featureNames && FeatureBackfill.DayOfYearColumn !in forecast.columns
    ensures var r := PrepareForecastFeatures(forecast, history, featureNames, populationStd);
      Out(r, i, FeatureBackfill.DayOfYearColumn) == Some(Num(0.0)) &&
      Calendar.DayOfYear(forecast.rows[i].date) >= 1
  {
  }

  /**
   * As written, on a daily history of 24 prices 0, 1, ..., 23 the forecast's
   * `price_lag_1d` is 0.0 (the price 24 days back), not the last day's 23.0.
   */
  lemma ForecastLagCountsHours(forecast: DailyFrame, featureNames: seq<string>, populationStd: seq<real> -> real)
    requires FeatureBackfill.Temperature in forecast.columns && FeatureBackfill.Wind in forecast.columns
    requires |forecast.rows| > 0 && FeatureBackfill.Lag1 in featureNames
    ensures var history := DailyFrame([FeatureBackfill.Price],
                                      seq(24, k requires 0 <= k < 24 => DailyRow(k, map[FeatureBackfill.Price := k as real])));
      var r := PrepareForecastFeatures(forecast, history, featureNames, populationStd);
      r.Ok? && Out(r, 0, FeatureBackfill.Lag1) == Some(Num(0.0)) &&
      NumOf(history.rows[23], FeatureBackfill.Price) == Some(23.0)
  {
    var history := DailyFrame([FeatureBackfill.Price],
                              seq(24, k requires 0 <= k < 24 => DailyRow(k, map[FeatureBackfill.Price := k as real])));
    var h := HistoryPrices(history);
    assert h[0] == Some(0.0);
    ForecastLags(forecast, history, featureNames, populationStd, 0);
  }

  /**
   * With daily offsets the forecast's lags are the ones the backfill transform
   * computes for the day after the history (position n of the history extended
   * by the forecast day): the last price and the price seven rows back.
   */
  lemma DailyForecastLags(forecast: DailyFrame, history: DailyFrame, featureNames: seq<string>,
                          populationStd: seq<real> -> real, i: nat, sampleStd: seq<real> -> real)
    requires PrepareForecastFeaturesDaily(forecast, history, featureNames, populationStd).Ok?
    requires i < |forecast.rows| && |history.rows| >= 7
    ensures var r := PrepareForecastFeaturesDaily(forecast, history, featureNames, populationStd);
      var n := |history.rows|;
      var f := FeatureBackfill.Features(history.rows + [forecast.rows[i]], sampleStd)[n];
      && (FeatureBackfill.Lag1 in featureNames ==> Out(r, i, FeatureBackfill.Lag1) == Lift(NumOf(f, FeatureBackfill.Lag1)))
      && (FeatureBackfill.Lag7 in featureNames ==> Out(r, i, FeatureBackfill.Lag7) == Lift(NumOf(f, FeatureBackfill.Lag7)))
  {
    var h := HistoryPrices(history);
    assert |h| == |history.rows|;
    ExtendedLags(history, forecast.rows[i], sampleStd);
    DailyOutLags(forecast, history, featureNames, populationStd, i);
  }

  /** The backfill lags at the day after the history: the last price and the one seven rows back. */
  lemma ExtendedLags(history: DailyFrame, next: DailyRow, sampleStd: seq<real> -> real)
    requires |history.rows| >= 7
    ensures var n := |history.rows|;
      var h := HistoryPrices(history);
      var f := FeatureBackfill.Features(history.rows + [next], sampleStd)[n];
      NumOf(f, FeatureBackfill.Lag1) == h[n - 1] && NumOf(f, FeatureBackfill.Lag7) == h[n - 7]
  {
    var n := |history.rows|;
    var ext := history.rows + [next];
    FeatureBackfill.LagCells(ext, n, sampleStd);
    assert ext[n - 1] == history.rows[n - 1] && ext[n - 7] == history.rows[n - 7];
  }

  /** With daily offsets the forecast's lags are the last price and the one seven rows back. */
  lemma DailyOutLags(forecast: DailyFrame, history: DailyFrame, featureNames: seq<string>,
                     populationStd: seq<real> -> real, i: nat)
    requires PrepareForecastFeaturesDaily(forecast, history, featureNames, populationStd).Ok?
    requires i < |forecast.rows| && |history.rows| >= 7
    ensures var r := PrepareForecastFeaturesDaily(forecast, history, featureNames, populationStd);
      var h := HistoryPrices(history);
      && (FeatureBackfill.Lag1 in featureNames ==> Out(r, i, FeatureBackfill.Lag1) == Lift(h[|h| - 1]))
      && (FeatureBackfill.Lag7 in featureNames ==> Out(r, i, FeatureBackfill.Lag7) == Lift(h[|h| - 7]))
  {
    RecentLag(history, 1);
    RecentLag(history, 7);
    HistoryCells(forecast, i, RecentOf(history), DailyOffsets, true, populationStd);
    if FeatureBackfill.Lag1 in featureNames {
      PreparedCell(forecast, history, featureNames, DailyOffsets, true, populationStd, i, FeatureBackfill.Lag1);
    }
    if FeatureBackfill.Lag7 in featureNames {
      PreparedCell(forecast, history, featureNames, DailyOffsets, true, populationStd, i, FeatureBackfill.Lag7);
    }
  }

  /** With `day_of_year` computed, a forecast row carries the same day of the year a training row would. */
  lemma DailyForecastDayOfYear(forecast: DailyFrame, history: DailyFrame, featureNames: seq<string>,
                               populationStd: seq<real> -> real, i: nat, sampleStd: seq<real> -> real)
    requires PrepareForecastFeaturesDaily(forecast, history, featureNames, populationStd).Ok?
    requires i < |forecast.rows| && FeatureBackfill.DayOfYearColumn in featureNames
    ensures var r := PrepareForecastFeaturesDaily(forecast, history, featureNames, populationStd);
      var n := |history.rows|;
      var f := FeatureBackfill.Features(history.rows + [forecast.rows[i]], sampleStd)[n];
      Out(r, i, FeatureBackfill.DayOfYearColumn) == Lift(NumOf(f, FeatureBackfill.DayOfYearColumn))
  {
    var n := |history.rows|;
    var ext := history.rows + [forecast.rows[i]];
    FeatureBackfill.CalendarCells(ext, n, sampleStd);
    PreparedCell(forecast, history, featureNames, DailyOffsets, true, populationStd, i, FeatureBackfill.DayOfYearColumn);
  }

  /** With daily offsets the rolling mean covers the last seven prices of the history. */
  lemma DailyForecastRollingMean(forecast: DailyFrame, history: DailyFrame, featureNames: seq<string>,
                                 populationStd: seq<real> -> real, i: nat)
    requires PrepareForecastFeaturesDaily(forecast, history, featureNames, populationStd).Ok?
    requires i < |forecast.rows| && |history.rows| >= 7 && FeatureBackfill.RollingMeanColumn in featureNames
    ensures var r := PrepareForecastFeaturesDaily(forecast, history, featureNames, populationStd);
      var h := HistoryPrices(history);
      Out(r, i, FeatureBackfill.RollingMeanColumn) == Lift(NanMean(h[|h| - 7..]))
  {
    PreparedCell(forecast, history, featureNames, DailyOffsets, true, populationStd, i, FeatureBackfill.RollingMeanColumn);
    HistoryCells(forecast, i, RecentOf(history), DailyOffsets, true, populationStd);
    RecentWindow(history, 7);
  }

  /* ---------------- Prediction tracking ledger ---------------- */

  /** A ledger row: `target_date`, `prediction_date`, `predicted_price`. */
  datatype Prediction = Prediction(target: int, made: int, price: real)

  /** A forecast row: its `date` and `predicted_price`. */
  datatype Forecast = Forecast(date: int, predicted: real)

  function TargetOf(p: Prediction): int
  {
    p.target
  }

  /** `sort_values(['target_date', 'prediction_date'])`. */
  predicate PredictionLe(a: Prediction, b: Prediction)
  {
    a.target < b.target || (a.target == b.target && a.made <= b.made)
  }

  /** The new rows: one per forecast row, all carrying the one prediction date. */
  function Batch(forecast: seq<Forecast>, made: int): (b: seq<Prediction>)
    ensures |b| == |forecast|
    ensures forall i :: 0 <= i < |b| ==> b[i].made == made && b[i].target == forecast[i].date &&
                                         b[i].price == forecast[i].predicted
  {
    seq(|forecast|, i requires 0 <= i < |forecast| => Prediction(forecast[i].date, made, forecast[i].predicted))
  }

  /**
   * The ledger after a save: with no file, the batch as given; otherwise the
   * existing rows whose target date the batch does not hold, then the batch,
   * sorted by (target date, prediction date).
   */
  function Tracked(existing: Option<seq<Prediction>>, batch: seq<Prediction>): seq<Prediction>
  {
    if existing.None? then batch
    else Sorting.SortBy(Dedup.WithoutKeys(existing.value, Dedup.Keys(batch, TargetOf), TargetOf) + batch, PredictionLe)
  }

  /** The tracking CSV file; `None` while it does not exist. */
  class TrackingFile {
    var content: Option<seq<Prediction>>

    constructor (content: Option<seq<Prediction>>)
      ensures this.content == content
    {
      this.content := content;
    }
  }

  /** `save_predictions_for_tracking`. */
  method SavePredictionsForTracking(file: TrackingFile, forecast: seq<Forecast>, predictionDate: int)
    modifies file
    ensures file.content == Some(Tracked(old(file.content), Batch(forecast, predictionDate)))
  {
    var batch := Batch(forecast, predictionDate);
    if file.content.Some? {
      var existing := file.content.value;
      var kept := Dedup.WithoutKeys(existing, Dedup.Keys(batch, TargetOf), TargetOf);
      var combined := kept + batch;
      file.content := Some(Sorting.SortBy(combined, PredictionLe));
    } else {
      file.content := Some(batch);
    }
  }

  lemma PredictionLeIsTotalPreorder()
    ensures Sorting.TotalPreorder(PredictionLe)
  {
  }

  /**
   * Saving into an existing ledger: the result is sorted by (target date,
   * prediction date); it is a permutation of the batch plus the existing rows
   * whose target date is not in the batch, so a row is in it iff it is a batch
   * row or an existing row with a target date the batch does not hold.
   */
  lemma TrackedReplacesByTarget(existing: seq<Prediction>, batch: seq<Prediction>)
    ensures var t := Tracked(Some(existing), batch);
      var kept := Dedup.WithoutKeys(existing, Dedup.Keys(batch, TargetOf), TargetOf);
      && Sorting.Sorted(t, PredictionLe)
      && multiset(t) == multiset(kept) + multiset(batch)
      && (forall p :: p in t <==> p in batch || (p in existing && p.target !in Dedup.Keys(batch, TargetOf)))
  {
    var kept := Dedup.WithoutKeys(existing, Dedup.Keys(batch, TargetOf), TargetOf);
    PredictionLeIsTotalPreorder();
    Sorting.SortBySorted(kept + batch, PredictionLe);
    var t := Tracked(Some(existing), batch);
    forall p ensures p in t <==> p in batch || (p in existing && p.target !in Dedup.Keys(batch, TargetOf)) {
      assert p in t <==> p in multiset(t);
      assert p in kept + batch <==> p in multiset(kept + batch);
      Dedup.WithoutKeysMember(existing, Dedup.Keys(batch, TargetOf), TargetOf, p);
    }
  }

  /**
   * Rows are replaced by target date, not by prediction date: after a save every
   * row for a target date of the batch carries the batch's prediction date, even
   * where an existing row had a later one.
   */
  lemma TrackedTargetsCarryNewDate(existing: Option<seq<Prediction>>, forecast: seq<Forecast>, predictionDate: int)
    ensures var batch := Batch(forecast, predictionDate);
      forall p :: p in Tracked(existing, batch) && p.target in Dedup.Keys(batch, TargetOf) ==> p.made == predictionDate
  {
    var batch := Batch(forecast, predictionDate);
    if existing.Some? {
      TrackedReplacesByTarget(existing.value, batch);
    }
  }

  /* ---------------- Predicted versus actual ---------------- */

  /** A ledger row joined with an actual price for its target date (NaN allowed). */
  datatype Matched = Matched(target: int, made: int, predicted: real, actual: Option<real>)

  /** A comparison row with `error` and `abs_error`. */
  datatype Compared = Compared(target: int, made: int, predicted: real, actual: Option<real>,
                               error: Option<real>, absError: Option<real>)

  datatype Comparison = Comparison(rows: seq<Compared>, mae: Option<real>)

  function MatchOne(p: Prediction, history: seq<DailyRow>): (r: seq<Matched>)
    ensures forall i :: 0 <= i < |r| ==> r[i].target == p.target && r[i].made == p.made && r[i].predicted == p.price
  {
    if history == [] then []
    else
      var rest := MatchOne(p, history[1..]);
      if history[0].date == p.target
      then [Matched(p.target, p.made, p.price, NumOf(history[0], FeatureBackfill.Price))] + rest
      else rest
  }

  /** `tracking.merge(actuals, on='target_date', how='inner')`: ledger order, then history order. */
  function MatchAll(tracking: seq<Prediction>, history: seq<DailyRow>): (r: seq<Matched>)
  {
    if tracking == [] then [] else MatchOne(tracking[0], history) + MatchAll(tracking[1..], history)
  }

  lemma {:induction false} MatchOneMember(p: Prediction, history: seq<DailyRow>, x: Matched)
    ensures x in MatchOne(p, history) <==>
      exists a :: a in history && a.date == p.target && x == Matched(p.target, p.made, p.price, NumOf(a, FeatureBackfill.Price))
  {
    if history != [] {
      MatchOneMember(p, history[1..], x);
      assert history == [history[0]] + history[1..];
    }
  }

  /** A joined row pairs a ledger row with a history row of its target date, and every such pair is joined. */
  lemma {:induction false} MatchAllMember(tracking: seq<Prediction>, history: seq<DailyRow>, x: Matched)
    ensures x in MatchAll(tracking, history) <==>
      exists p, a :: p in tracking && a in history && a.date == p.target &&
                     x == Matched(p.target, p.made, p.price, NumOf(a, FeatureBackfill.Price))
  {
    if tracking != [] {
      MatchOneMember(tracking[0], history, x);
      MatchAllMember(tracking[1..], history, x);
      assert tracking == [tracking[0]] + tracking[1..];
    }
  }

  function MatchedTarget(m: Matched): int
  {
    m.target
  }

  predicate MatchedLe(a: Matched, b: Matched)
  {
    a.target < b.target || (a.target == b.target && a.made <= b.made)
  }

  predicate TargetLe(a: Matched, b: Matched)
  {
    a.target <= b.target
  }

  /** `drop_duplicates('target_date', keep='last')` after sorting by (target, prediction date). */
  function Newest(matched: seq<Matched>): seq<Matched>
  {
    Dedup.DedupLast(Sorting.SortBy(matched, MatchedLe), MatchedTarget)
  }

  /** The reconciled view: the newest row per target date, sorted by target date. */
  function Latest(matched: seq<Matched>): seq<Matched>
  {
    Sorting.SortBy(Newest(matched), TargetLe)
  }

  lemma MatchedOrders()
    ensures Sorting.TotalPreorder(MatchedLe) && Sorting.TotalPreorder(TargetLe)
  {
  }

  /** The reconciled view holds exactly the rows of `Newest`. */
  lemma LatestMembers(m: seq<Matched>, x: Matched)
    ensures x in Latest(m) <==> x in Newest(m)
  {
    assert x in Latest(m) <==> x in multiset(Latest(m));
    assert x in Newest(m) <==> x in multiset(Newest(m));
  }

  /** Target dates strictly ascend: one row per target date. */
  lemma LatestAscending(m: seq<Matched>)
    ensures var l := Latest(m);
      forall i, j :: 0 <= i < j < |l| ==> l[i].target < l[j].target
  {
    var l := Latest(m);
    MatchedOrders();
    Sorting.SortBySorted(Newest(m), TargetLe);
    Dedup.DedupUnique(Sorting.SortBy(m, MatchedLe), MatchedTarget);
    Dedup.UniqueKeysPermutation(l, Newest(m), MatchedTarget);
    forall i, j | 0 <= i < j < |l| ensures l[i].target < l[j].target {
      assert TargetLe(l[i], l[j]);
      assert MatchedTarget(l[i]) != MatchedTarget(l[j]);
    }
  }

  /** Every row comes from the input, and every target date of the input keeps a row. */
  lemma LatestCovers(m: seq<Matched>)
    ensures var l := Latest(m);
      && (forall i :: 0 <= i < |l| ==> l[i] in m)
      && (forall x :: x in m ==> exists i :: 0 <= i < |l| && l[i].target == x.target)
  {
    LatestFromInput(m);
    LatestHasEveryTarget(m);
  }

  lemma LatestFromInput(m: seq<Matched>)
    ensures var l := Latest(m);
      forall i :: 0 <= i < |l| ==> l[i] in m
  {
    var l := Latest(m);
    var s := Sorting.SortBy(m, MatchedLe);
    var d := Newest(m);
    Dedup.DedupKeepsLast(s, MatchedTarget);
    forall i | 0 <= i < |l| ensures l[i] in m {
      LatestMembers(m, l[i]);
      var e :| 0 <= e < |d| && d[e] == l[i];
      assert l[i] in s;
      assert l[i] in multiset(m);
    }
  }

  lemma LatestHasEveryTarget(m: seq<Matched>)
    ensures var l := Latest(m);
      forall x :: x in m ==> exists i :: 0 <= i < |l| && l[i].target == x.target
  {
    var l := Latest(m);
    var s := Sorting.SortBy(m, MatchedLe);
    var d := Newest(m);
    Dedup.DedupKeys(s, MatchedTarget);
    forall x | x in m ensures exists i :: 0 <= i < |l| && l[i].target == x.target {
      assert x in multiset(s);
      var k :| 0 <= k < |s| && s[k] == x;
      Dedup.KeysMember(s, MatchedTarget, x.target);
      Dedup.KeysMember(d, MatchedTarget, x.target);
      var e :| 0 <= e < |d| && MatchedTarget(d[e]) == x.target;
      LatestMembers(m, d[e]);
      var i :| 0 <= i < |l| && l[i] == d[e];
    }
  }

  /** Each row has the largest prediction date among the input rows for its target date. */
  lemma LatestIsNewest(m: seq<Matched>)
    ensures var l := Latest(m);
      forall i, x :: 0 <= i < |l| && x in m && x.target == l[i].target ==> x.made <= l[i].made
  {
    var l := Latest(m);
    var s := Sorting.SortBy(m, MatchedLe);
    var d := Newest(m);
    MatchedOrders();
    Sorting.SortBySorted(m, MatchedLe);
    Dedup.DedupKeepsLast(s, MatchedTarget);
    forall i, x | 0 <= i < |l| && x in m && x.target == l[i].target ensures x.made <= l[i].made {
      var t := l[i].target;
      LatestMembers(m, l[i]);
      var e :| 0 <= e < |d| && d[e] == l[i];
      Dedup.LastWithKeyIsLast(s, t, MatchedTarget);
      var k :| 0 <= k < |s| && s[k] == Dedup.LastWithKey(s, t, MatchedTarget) &&
               forall j :: k < j < |s| ==> MatchedTarget(s[j]) != t;
      assert x in multiset(s);
      var q :| 0 <= q < |s| && s[q] == x;
      assert q <= k;
      if q < k {
        assert MatchedLe(s[q], s[k]);
      }
    }
  }

  /** On the joined ledger, every reconciled row is a ledger row paired with an actual price for its target date. */
  lemma LatestFromLedger(tracking: seq<Prediction>, history: seq<DailyRow>)
    ensures var l := Latest(MatchAll(tracking, history));
      forall i :: 0 <= i < |l| ==>
        && Prediction(l[i].target, l[i].made, l[i].predicted) in tracking
        && exists a :: a in history && a.date == l[i].target && l[i].actual == NumOf(a, FeatureBackfill.Price)
  {
    var m := MatchAll(tracking, history);
    var l := Latest(m);
    LatestCovers(m);
    forall i | 0 <= i < |l|
      ensures Prediction(l[i].target, l[i].made, l[i].predicted) in tracking
      ensures exists a :: a in history && a.date == l[i].target && l[i].actual == NumOf(a, FeatureBackfill.Price)
    {
      MatchAllMember(tracking, history, l[i]);
      var p, a :| p in tracking && a in history && a.date == p.target &&
                  l[i] == Matched(p.target, p.made, p.price, NumOf(a, FeatureBackfill.Price));
      assert Prediction(l[i].target, l[i].made, l[i].predicted) == p;
    }
  }

  /** Some row of `l` is for target date `t`. */
  predicate HasTarget(l: seq<Matched>, t: int)
  {
    exists i :: 0 <= i < |l| && l[i].target == t
  }

  /** On the joined ledger, every ledger row with an actual price keeps its target date in the view. */
  lemma LatestKeepsTargets(tracking: seq<Prediction>, history: seq<DailyRow>)
    ensures forall p, a :: p in tracking && a in history && a.date == p.target ==>
      HasTarget(Latest(MatchAll(tracking, history)), p.target)
  {
    var m := MatchAll(tracking, history);
    var l := Latest(m);
    LatestCovers(m);
    forall p, a | p in tracking && a in history && a.date == p.target
      ensures HasTarget(l, p.target)
    {
      var x := Matched(p.target, p.made, p.price, NumOf(a, FeatureBackfill.Price));
      MatchAllMember(tracking, history, x);
      assert x in m;
      var i :| 0 <= i < |l| && l[i].target == x.target;
      assert l[i].target == p.target;
    }
  }

  /** On the joined ledger, each row's prediction date is the largest the ledger holds for its target date. */
  lemma LatestNewestInLedger(tracking: seq<Prediction>, history: seq<DailyRow>)
    ensures var l := Latest(MatchAll(tracking, history));
      forall i, p :: 0 <= i < |l| && p in tracking && p.target == l[i].target ==> p.made <= l[i].made
  {
    var m := MatchAll(tracking, history);
    var l := Latest(m);
    LatestCovers(m);
    LatestIsNewest(m);
    forall i, p | 0 <= i < |l| && p in tracking && p.target == l[i].target ensures p.made <= l[i].made {
      assert l[i] in m;
      MatchAllMember(tracking, history, l[i]);
      var p0, a0 :| p0 in tracking && a0 in history && a0.date == p0.target &&
                    l[i] == Matched(p0.target, p0.made, p0.price, NumOf(a0, FeatureBackfill.Price));
      var x := Matched(p.target, p.made, p.price, NumOf(a0, FeatureBackfill.Price));
      MatchAllMember(tracking, history, x);
      assert x in m;
      assert x.target == l[i].target;
    }
  }

  /** Reconciling an already reconciled view changes nothing. */
  lemma LatestIdempotent(m: seq<Matched>)
    ensures Latest(Latest(m)) == Latest(m)
  {
    var l := Latest(m);
    LatestAscending(m);
    assert Sorting.Sorted(l, MatchedLe);
    Sorting.SortBySortedIsIdentity(l, MatchedLe);
    assert Dedup.UniqueKeys(l, MatchedTarget);
    Dedup.DedupOfUnique(l, MatchedTarget);
    assert Sorting.Sorted(l, TargetLe);
    Sorting.SortBySortedIsIdentity(l, TargetLe);
  }

  function Abs(x: real): (y: real)
    ensures y >= 0.0 && (y == x || y == -x)
  {
    if x >= 0.0 then x else -x
  }

  /** `error` = predicted − actual and `abs_error` = |error|, NaN when the actual is. */
  function WithError(m: Matched): (c: Compared)
    ensures c.target == m.target && c.made == m.made && c.predicted == m.predicted && c.actual == m.actual
    ensures c.error.Some? <==> m.actual.Some?
    ensures m.actual.Some? ==> c.error.value + m.actual.value == m.predicted && c.absError == Some(Abs(c.error.value))
    ensures m.actual.None? ==> c.absError.None?
  {
    if m.actual.Some? then
      var e := m.predicted - m.actual.value;
      Compared(m.target, m.made, m.predicted, m.actual, Some(e), Some(Abs(e)))
    else Compared(m.target, m.made, m.predicted, m.actual, None, None)
  }

  function AbsErrors(rows: seq<Compared>): (xs: seq<Option<real>>)
    ensures |xs| == |rows| && forall i :: 0 <= i < |rows| ==> xs[i] == rows[i].absError
  {
    seq(|rows|, i requires 0 <= i < |rows| => rows[i].absError)
  }

  /** `abs_error.mean()`: the mean of the non-missing absolute errors, NaN when there is none. */
  function Mae(rows: seq<Compared>): Option<real>
  {
    var xs := Present(AbsErrors(rows));
    if |xs| > 0 then Some(Mean(xs)) else None
  }

  /** The MAE exists iff some row has an actual price, and is never negative. */
  lemma MaeSpec(rows: seq<Compared>)
    requires forall i :: 0 <= i < |rows| ==> (rows[i].absError.Some? <==> rows[i].actual.Some?)
    requires forall i :: 0 <= i < |rows| && rows[i].absError.Some? ==> rows[i].absError.value >= 0.0
    ensures Mae(rows).Some? <==> exists i :: 0 <= i < |rows| && rows[i].actual.Some?
    ensures Mae(rows).Some? ==> Mae(rows).value >= 0.0
  {
    var xs := Present(AbsErrors(rows));
    if exists i :: 0 <= i < |rows| && rows[i].actual.Some? {
      var i :| 0 <= i < |rows| && rows[i].actual.Some?;
      assert AbsErrors(rows)[i].Some?;
    }
    if |xs| > 0 {
      forall k | 0 <= k < |xs| ensures 0.0 <= xs[k] {
        assert Some(xs[k]) in AbsErrors(rows);
      }
      MeanNonNegative(xs);
      assert Some(xs[0]) in AbsErrors(rows);
    }
  }

  /**
   * The comparison part of `create_comparison_visualization`: no result when
   * the ledger file does not exist or no ledger row has an actual price;
   * KeyError when the history lacks the price column.
   */
  function Compare(tracking: Option<seq<Prediction>>, history: DailyFrame): (r: Result<Option<Comparison>>)
    ensures r.Err? <==> tracking.Some? && FeatureBackfill.Price !in history.columns
    ensures r.Ok? ==> (r.value.None? <==> tracking.None? || MatchAll(tracking.value, history.rows) == [])
  {
    if tracking.None? then Ok(None)
    else if FeatureBackfill.Price !in history.columns then Err(MissingColumn(FeatureBackfill.Price))
    else
      var matched := MatchAll(tracking.value, history.rows);
      if matched == [] then Ok(None)
      else
        var latest := Latest(matched);
        var rows := seq(|latest|, i requires 0 <= i < |latest| => WithError(latest[i]));
        Ok(Some(Comparison(rows, Mae(rows))))
  }

  /**
   * The comparison rows are the reconciled view row for row with their errors;
   * the MAE is the mean of the present absolute errors: it exists iff some
   * reconciled row has an actual price, and is then non-negative.
   */
  lemma CompareSpec(tracking: seq<Prediction>, history: DailyFrame)
    requires Compare(Some(tracking), history).Ok? && Compare(Some(tracking), history).value.Some?
    ensures var c := Compare(Some(tracking), history).value.value;
      var l := Latest(MatchAll(tracking, history.rows));
      && |c.rows| == |l|
      && (forall i :: 0 <= i < |l| ==> c.rows[i] == WithError(l[i]))
      && c.mae == Mae(c.rows)
      && (c.mae.Some? ==> c.mae.value == Mean(Present(AbsErrors(c.rows))))
      && (c.mae.Some? <==> exists i :: 0 <= i < |l| && l[i].actual.Some?)
      && (c.mae.Some? ==> c.mae.value >= 0.0)
  {
    MaeOfReconciled(Latest(MatchAll(tracking, history.rows)));
  }

  /**
   * When every reconciled row has an actual price, the absolute errors the MAE
   * averages are exactly |predicted − actual| of each row, in order.
   */
  lemma MaeAllActual(l: seq<Matched>)
    requires |l| > 0
    requires forall i :: 0 <= i < |l| ==> l[i].actual.Some?
    ensures var rows := seq(|l|, i requires 0 <= i < |l| => WithError(l[i]));
      var errs := seq(|l|, i requires 0 <= i < |l| && l[i].actual.Some? => Abs(l[i].predicted - l[i].actual.value));
      && Present(AbsErrors(rows)) == errs
      && Mae(rows) == Some(Mean(errs))
  {
    var rows := seq(|l|, i requires 0 <= i < |l| => WithError(l[i]));
    var errs := seq(|l|, i requires 0 <= i < |l| && l[i].actual.Some? => Abs(l[i].predicted - l[i].actual.value));
    PresentAll(AbsErrors(rows), errs);
  }

  /** The MAE over reconciled rows exists iff one of them has an actual price, and is non-negative. */
  lemma MaeOfReconciled(l: seq<Matched>)
    ensures var rows := seq(|l|, i requires 0 <= i < |l| => WithError(l[i]));
      && (Mae(rows).Some? <==> exists i :: 0 <= i < |l| && l[i].actual.Some?)
      && (Mae(rows).Some? ==> Mae(rows).value >= 0.0)
  {
    var rows := seq(|l|, i requires 0 <= i < |l| => WithError(l[i]));
    MaeSpec(rows);
    if exists i :: 0 <= i < |l| && l[i].actual.Some? {
      var i :| 0 <= i < |l| && l[i].actual.Some?;
      assert rows[i].actual.Some?;
    }
    if exists i :: 0 <= i < |rows| && rows[i].actual.Some? {
      var i :| 0 <= i < |rows| && rows[i].actual.Some?;
      assert l[i].actual.Some?;
    }
  }
}
