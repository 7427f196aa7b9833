/**
 * The feature engineering transform of the backfill pipeline: an inner join of
 * daily weather and daily prices on the date, a sort by date, calendar,
 * weather-interaction, lag and rolling columns, a drop of rows missing critical
 * cells and a forward fill.  Every numeric cell is a real; a cell absent from a
 * row's map is NaN.
 */
module FeatureBackfill {
  import opened Wrappers
  import opened Frames
  import opened Stats
  import Calendar

  const Temperature := "temperature_2m_mean"
  const Wind := "wind_speed_10m_max"
  const Price := "price_sek_kwh_mean"
  const DayOfWeekColumn := "day_of_week"
  const MonthColumn := "month"
  const IsWeekendColumn := "is_weekend"
  const DayOfYearColumn := "day_of_year"
  const TempSquared := "temp_squared"
  const WindTemp := "wind_temp_interaction"
  const Lag1 := "price_lag_1d"
  const Lag7 := "price_lag_7d"
  const RollingMeanColumn := "price_rolling_mean_7d"
  const RollingStdColumn := "price_rolling_std_7d"

  /** The columns the transform adds, in the order it adds them. */
  const DerivedColumns: seq<string> := [DayOfWeekColumn, MonthColumn, IsWeekendColumn, DayOfYearColumn,
    TempSquared, WindTemp, Lag1, Lag7, RollingMeanColumn, RollingStdColumn]

  /* ---------------- Inner join on date ---------------- */

  function Joined1(w: DailyRow, p: DailyRow): DailyRow
  {
    DailyRow(w.date, w.vals + p.vals)
  }

  /** The joined rows one weather row contributes, in price-row order. */
  function Matches(w: DailyRow, ps: seq<DailyRow>): (r: seq<DailyRow>)
    ensures forall x :: x in r <==> exists p :: p in ps && p.date == w.date && x == Joined1(w, p)
  {
    if ps == [] then []
    else
      var rest := Matches(w, ps[1..]);
      assert ps == [ps[0]] + ps[1..];
      if ps[0].date == w.date then [Joined1(w, ps[0])] + rest else rest
  }

  /** `pd.merge(weather, price, on='date', how='inner')`: weather order, then price order. */
  function Merge(ws: seq<DailyRow>, ps: seq<DailyRow>): (r: seq<DailyRow>)
    ensures forall x :: x in r <==>
      exists w, p :: w in ws && p in ps && w.date == p.date && x == Joined1(w, p)
  {
    if ws == [] then []
    else
      assert ws == [ws[0]] + ws[1..];
      Matches(ws[0], ps) + Merge(ws[1..], ps)
  }

  /** The joined rows sorted by date. */
  function Joined(weather: DailyFrame, price: DailyFrame): seq<DailyRow>
  {
    SortDailyByDate(Merge(weather.rows, price.rows))
  }

  /** The sorted join holds exactly the matching pairs, in ascending date order. */
  lemma JoinedSpec(weather: DailyFrame, price: DailyFrame)
    ensures var j := Joined(weather, price);
      && (forall x :: x in j <==>
            exists w, p :: w in weather.rows && p in price.rows && w.date == p.date && x == Joined1(w, p))
      && (forall a, b :: 0 <= a < b < |j| ==> j[a].date <= j[b].date)
  {
    var m := Merge(weather.rows, price.rows);
    var j := Joined(weather, price);
    forall x ensures x in j <==> x in m {
      assert x in j <==> x in multiset(j);
      assert x in m <==> x in multiset(m);
    }
    SortDailyByDateSorted(m);
  }

  /** A date appears in the join iff both inputs have a row for it. */
  lemma JoinedDates(weather: DailyFrame, price: DailyFrame, d: int)
    ensures (exists x :: x in Joined(weather, price) && x.date == d) <==>
      (exists w :: w in weather.rows && w.date == d) && (exists p :: p in price.rows && p.date == d)
  {
    JoinedSpec(weather, price);
    if (exists w :: w in weather.rows && w.date == d) && (exists p :: p in price.rows && p.date == d) {
      var w :| w in weather.rows && w.date == d;
      var p :| p in price.rows && p.date == d;
      assert Joined1(w, p) in Joined(weather, price);
    }
  }

  /* ---------------- Derived columns ---------------- */

  /** The price at a position of the joined sequence; NaN outside it. */
  function PriceAt(rows: seq<DailyRow>, i: int): Option<real>
  {
    if 0 <= i < |rows| then NumOf(rows[i], Price) else None
  }

  /** The trailing window `rolling(window=7)` sees at position `i`. */
  function Window(rows: seq<DailyRow>, i: nat): (xs: seq<Option<real>>)
    requires i < |rows|
    ensures |xs| == if i < 6 then i + 1 else 7
    ensures forall j :: 0 <= j < |xs| ==> xs[j] == PriceAt(rows, i - |xs| + 1 + j)
  {
    var lo := if i < 6 then 0 else i - 6;
    seq(i - lo + 1, j requires 0 <= j < i - lo + 1 => PriceAt(rows, lo + j))
  }

  /** `rolling(window=7, min_periods=1).mean()`: the mean of the non-missing prices in the window. */
  function RollingMean(rows: seq<DailyRow>, i: nat): Option<real>
    requires i < |rows|
  {
    var xs := Present(Window(rows, i));
    if |xs| >= 1 then Some(Mean(xs)) else None
  }

  /** `rolling(window=7, min_periods=1).std()`: a sample deviation, NaN below two observations. */
  function RollingStd(rows: seq<DailyRow>, i: nat, sampleStd: seq<real> -> real): Option<real>
    requires i < |rows|
  {
    var xs := Present(Window(rows, i));
    if |xs| >= 2 then Some(sampleStd(xs)) else None
  }

  /** NaN-propagating product. */
  function Product(a: Option<real>, b: Option<real>): (r: Option<real>)
    ensures r.Some? <==> a.Some? && b.Some?
    ensures r.Some? ==> r.value == a.value * b.value
  {
    if a.Some? && b.Some? then Some(a.value * b.value) else None
  }

  /** The cell in column `c` at sorted position `i` once every derived column is assigned. */
  function FeatureCell(rows: seq<DailyRow>, i: nat, c: string, sampleStd: seq<real> -> real): Option<real>
    requires i < |rows|
  {
    var r := rows[i];
    var dow := Calendar.DayOfWeek(r.date);
    var t := NumOf(r, Temperature);
    if c == DayOfWeekColumn then Some(dow as real)
    else if c == MonthColumn then Some(Calendar.Month(r.date) as real)
    else if c == IsWeekendColumn then Some(if dow >= 5 then 1.0 else 0.0)
    else if c == DayOfYearColumn then Some(Calendar.DayOfYear(r.date) as real)
    else if c == TempSquared then Product(t, t)
    else if c == WindTemp then Product(NumOf(r, Wind), t)
    else if c == Lag1 then PriceAt(rows, i - 1)
    else if c == Lag7 then PriceAt(rows, i - 7)
    else if c == RollingMeanColumn then RollingMean(rows, i)
    else if c == RollingStdColumn then RollingStd(rows, i, sampleStd)
    else NumOf(r, c)
  }

  function FeatureRow(rows: seq<DailyRow>, i: nat, sampleStd: seq<real> -> real): (f: DailyRow)
    requires i < |rows|
    ensures f.date == rows[i].date
    ensures forall c :: NumOf(f, c) == FeatureCell(rows, i, c, sampleStd)
  {
    var keys := rows[i].vals.Keys + set c | c in DerivedColumns;
    DailyRow(rows[i].date, map c | c in keys && FeatureCell(rows, i, c, sampleStd).Some? ::
      FeatureCell(rows, i, c, sampleStd).value)
  }

  function Features(rows: seq<DailyRow>, sampleStd: seq<real> -> real): (f: seq<DailyRow>)
    ensures |f| == |rows|
    ensures forall i :: 0 <= i < |rows| ==> f[i] == FeatureRow(rows, i, sampleStd)
  {
    seq(|rows|, i requires 0 <= i < |rows| => FeatureRow(rows, i, sampleStd))
  }

  /**
   * The calendar cells at sorted position i depend only on that row's date, and
   * `is_weekend` is 1 iff `day_of_week` >= 5 (0 otherwise).
   */
  lemma CalendarCells(rows: seq<DailyRow>, i: nat, sampleStd: seq<real> -> real)
    requires i < |rows|
    ensures var f := Features(rows, sampleStd)[i];
      && f.date == rows[i].date
      && NumOf(f, DayOfWeekColumn) == Some(Calendar.DayOfWeek(f.date) as real)
      && NumOf(f, MonthColumn) == Some(Calendar.Month(f.date) as real)
      && NumOf(f, DayOfYearColumn) == Some(Calendar.DayOfYear(f.date) as real)
      && (NumOf(f, IsWeekendColumn) == Some(1.0) <==> Calendar.DayOfWeek(f.date) >= 5)
      && (NumOf(f, IsWeekendColumn) == Some(0.0) <==> Calendar.DayOfWeek(f.date) < 5)
  {
    var f := Features(rows, sampleStd)[i];
    assert NumOf(f, IsWeekendColumn) == FeatureCell(rows, i, IsWeekendColumn, sampleStd);
  }

  /** `temp_squared` and `wind_temp_interaction` are products of the same row's cells. */
  lemma WeatherCells(rows: seq<DailyRow>, i: nat, sampleStd: seq<real> -> real)
    requires i < |rows|
    ensures var f := Features(rows, sampleStd)[i];
      && NumOf(f, TempSquared) == Product(NumOf(rows[i], Temperature), NumOf(rows[i], Temperature))
      && NumOf(f, WindTemp) == Product(NumOf(rows[i], Wind), NumOf(rows[i], Temperature))
  {
    var f := Features(rows, sampleStd)[i];
    assert NumOf(f, TempSquared) == FeatureCell(rows, i, TempSquared, sampleStd);
    assert NumOf(f, WindTemp) == FeatureCell(rows, i, WindTemp, sampleStd);
  }

  /**
   * The lags count positions in the sorted join, not calendar days: the price one
   * and seven positions earlier, missing before the start.
   */
  lemma LagCells(rows: seq<DailyRow>, i: nat, sampleStd: seq<real> -> real)
    requires i < |rows|
    ensures var f := Features(rows, sampleStd)[i];
      && NumOf(f, Lag1) == (if i >= 1 then NumOf(rows[i - 1], Price) else None)
      && NumOf(f, Lag7) == (if i >= 7 then NumOf(rows[i - 7], Price) else None)
  {
    var f := Features(rows, sampleStd)[i];
    assert NumOf(f, Lag1) == FeatureCell(rows, i, Lag1, sampleStd);
    assert NumOf(f, Lag7) == FeatureCell(rows, i, Lag7, sampleStd);
  }

  /** Columns the transform does not assign keep the joined row's cells. */
  lemma OtherCells(rows: seq<DailyRow>, i: nat, sampleStd: seq<real> -> real, c: string)
    requires i < |rows|
    requires c !in DerivedColumns
    ensures NumOf(Features(rows, sampleStd)[i], c) == NumOf(rows[i], c)
  {
    assert NumOf(Features(rows, sampleStd)[i], c) == FeatureCell(rows, i, c, sampleStd);
  }

  /** The rolling mean is present iff some price in the trailing window is. */
  lemma RollingMeanPresent(rows: seq<DailyRow>, i: nat, sampleStd: seq<real> -> real)
    requires i < |rows|
    ensures NumOf(Features(rows, sampleStd)[i], RollingMeanColumn) == RollingMean(rows, i)
    ensures RollingMean(rows, i).Some? <==>
      exists j :: (if i < 6 then 0 else i - 6) <= j <= i && NumOf(rows[j], Price).Some?
  {
    var w := Window(rows, i);
    var lo := if i < 6 then 0 else i - 6;
    if exists j :: lo <= j <= i && NumOf(rows[j], Price).Some? {
      var j :| lo <= j <= i && NumOf(rows[j], Price).Some?;
      assert w[j - lo] == NumOf(rows[j], Price);
    } else {
      assert forall k :: 0 <= k < |w| ==> w[k] == NumOf(rows[lo + k], Price);
      PresentNone(w);
    }
  }

  /** The rolling mean lies between the smallest and largest price in its window. */
  lemma RollingMeanBounds(rows: seq<DailyRow>, i: nat, lo: real, hi: real)
    requires i < |rows|
    requires forall j :: (if i < 6 then 0 else i - 6) <= j <= i && NumOf(rows[j], Price).Some? ==>
      lo <= NumOf(rows[j], Price).value <= hi
    requires RollingMean(rows, i).Some?
    ensures lo <= RollingMean(rows, i).value <= hi
  {
    var w := Window(rows, i);
    var xs := Present(w);
    forall k | 0 <= k < |xs| ensures lo <= xs[k] <= hi {
      assert Some(xs[k]) in w;
      var m :| 0 <= m < |w| && w[m] == Some(xs[k]);
      assert w[m] == PriceAt(rows, i - |w| + 1 + m);
    }
    MeanBetween(xs, lo, hi);
  }

  /** With seven present prices, the rolling mean is the mean of exactly those seven. */
  lemma RollingMeanFullWindow(rows: seq<DailyRow>, i: nat)
    requires 6 <= i < |rows|
    requires forall j :: i - 6 <= j <= i ==> Price in rows[j].vals
    ensures RollingMean(rows, i) ==
      Some(Mean(seq(7, k requires 0 <= k < 7 => rows[i - 6 + k].vals[Price])))
  {
    FullWindow(rows, i, seq(7, k requires 0 <= k < 7 => rows[i - 6 + k].vals[Price]));
  }

  /** The full window's present prices are the seven prices in order. */
  lemma FullWindow(rows: seq<DailyRow>, i: nat, prices: seq<real>)
    requires 6 <= i < |rows|
    requires forall j :: i - 6 <= j <= i ==> Price in rows[j].vals
    requires prices == seq(7, k requires 0 <= k < 7 => rows[i - 6 + k].vals[Price])
    ensures Present(Window(rows, i)) == prices
  {
    var w := Window(rows, i);
    forall k | 0 <= k < 7 ensures w[k] == Some(prices[k]) {
      assert w[k] == PriceAt(rows, i - 6 + k);
    }
    assert |w| == 7;
    PresentAll(w, prices);
  }

  /* ---------------- Drop and forward fill ---------------- */

  predicate Critical(r: DailyRow)
  {
    Price in r.vals && Temperature in r.vals && Lag1 in r.vals
  }

  /** `dropna(subset=[price, temperature, price_lag_1d])`. */
  function DropCritical(rows: seq<DailyRow>): (r: seq<DailyRow>)
    ensures |r| <= |rows|
    ensures forall x :: x in r <==> x in rows && Critical(x)
  {
    if rows == [] then []
    else
      assert rows == [rows[0]] + rows[1..];
      var rest := DropCritical(rows[1..]);
      if Critical(rows[0]) then [rows[0]] + rest else rest
  }

  lemma {:induction false} DropCriticalAppend(a: seq<DailyRow>, b: seq<DailyRow>)
    ensures DropCritical(a + b) == DropCritical(a) + DropCritical(b)
  {
    if a != [] {
      assert (a + b)[1..] == a[1..] + b;
      DropCriticalAppend(a[1..], b);
    } else {
      assert a + b == b;
    }
  }

  /** The row at position `i` after `ffill()`: missing cells take the previous filled row's cells. */
  function Filled(rows: seq<DailyRow>, i: nat): (f: DailyRow)
    requires i < |rows|
    ensures f.date == rows[i].date
  {
    if i == 0 then rows[0]
    else DailyRow(rows[i].date, Filled(rows, i - 1).vals + rows[i].vals)
  }

  function ForwardFill(rows: seq<DailyRow>): (f: seq<DailyRow>)
    ensures |f| == |rows|
    ensures forall i :: 0 <= i < |rows| ==> f[i] == Filled(rows, i)
  {
    seq(|rows|, i requires 0 <= i < |rows| => Filled(rows, i))
  }

  /** The largest position at or before `i` whose cell in column `c` is present. */
  function LastWith(rows: seq<DailyRow>, i: nat, c: string): (j: nat)
    requires i < |rows|
    requires exists k :: 0 <= k <= i && c in rows[k].vals
    ensures j <= i && c in rows[j].vals
    ensures forall k :: j < k <= i ==> c !in rows[k].vals
  {
    if c in rows[i].vals then i else LastWith(rows, i - 1, c)
  }

  /** A filled row depends only on the rows up to it. */
  lemma {:induction false} FilledPrefix(rows: seq<DailyRow>, n: nat, i: nat)
    requires i < n <= |rows|
    ensures Filled(rows[..n], i) == Filled(rows, i)
  {
    assert rows[..n][i] == rows[i];
    if i > 0 {
      FilledPrefix(rows, n, i - 1);
    }
  }

  lemma ForwardFillPrefix(rows: seq<DailyRow>, n: nat)
    requires n <= |rows|
    ensures ForwardFill(rows)[..n] == ForwardFill(rows[..n])
  {
    forall i | 0 <= i < n ensures ForwardFill(rows)[i] == ForwardFill(rows[..n])[i] {
      FilledPrefix(rows, n, i);
    }
  }

  /**
   * After the forward fill a cell is present iff the column had a value at that
   * row or some earlier row, and its value is the one at the nearest such row:
   * present cells are unchanged and a missing cell takes the last earlier value.
   */
  lemma {:induction false} ForwardFillNearest(rows: seq<DailyRow>, i: nat, c: string)
    requires i < |rows|
    ensures c in ForwardFill(rows)[i].vals <==> exists k :: 0 <= k <= i && c in rows[k].vals
    ensures c in ForwardFill(rows)[i].vals ==> ForwardFill(rows)[i].vals[c] == rows[LastWith(rows, i, c)].vals[c]
  {
    FilledNearest(rows, i, c);
  }

  lemma {:induction false} FilledNearest(rows: seq<DailyRow>, i: nat, c: string)
    requires i < |rows|
    ensures c in Filled(rows, i).vals <==> exists k :: 0 <= k <= i && c in rows[k].vals
    ensures c in Filled(rows, i).vals ==> Filled(rows, i).vals[c] == rows[LastWith(rows, i, c)].vals[c]
  {
    if i > 0 && c !in rows[i].vals {
      FilledNearest(rows, i - 1, c);
      if c !in Filled(rows, i - 1).vals {
        forall k | 0 <= k <= i ensures c !in rows[k].vals {
        }
      }
    }
  }

  /* ---------------- The transform ---------------- */

  /** `engineer_features`: KeyError when a column the formulas read is absent from the join. */
  function EngineerFeatures(weather: DailyFrame, price: DailyFrame, sampleStd: seq<real> -> real): (r: Result<DailyFrame>)
    ensures var cols := UnionColumns(weather.columns, price.columns);
      r.Err? <==> Temperature !in cols || Wind !in cols || Price !in cols
    ensures r.Ok? ==>
      r.value.rows == ForwardFill(DropCritical(Features(Joined(weather, price), sampleStd)))
  {
    var cols := UnionColumns(weather.columns, price.columns);
    if Temperature !in cols then Err(MissingColumn(Temperature))
    else if Wind !in cols then Err(MissingColumn(Wind))
    else if Price !in cols then Err(MissingColumn(Price))
    else Ok(DailyFrame(UnionColumns(cols, DerivedColumns),
                       ForwardFill(DropCritical(Features(Joined(weather, price), sampleStd)))))
  }

  /** The position in the feature rows that the `a`-th kept row came from. */
  function DropOrigin(rows: seq<DailyRow>, a: nat): (k: nat)
    requires a < |DropCritical(rows)|
    ensures k < |rows| && rows[k] == DropCritical(rows)[a]
    decreases |rows|
  {
    if Critical(rows[0]) then (if a == 0 then 0 else 1 + DropOrigin(rows[1..], a - 1))
    else 1 + DropOrigin(rows[1..], a)
  }

  /** Kept rows keep their relative order. */
  lemma {:induction false} DropCriticalOrder(rows: seq<DailyRow>, a: nat, b: nat)
    requires a < b < |DropCritical(rows)|
    ensures DropOrigin(rows, a) < DropOrigin(rows, b)
    decreases |rows|
  {
    var rest := DropCritical(rows[1..]);
    if Critical(rows[0]) {
      assert |DropCritical(rows)| == 1 + |rest|;
      assert DropOrigin(rows, b) == 1 + DropOrigin(rows[1..], b - 1);
      if a > 0 {
        assert DropOrigin(rows, a) == 1 + DropOrigin(rows[1..], a - 1);
        DropCriticalOrder(rows[1..], a - 1, b - 1);
      }
    } else {
      assert |DropCritical(rows)| == |rest|;
      assert DropOrigin(rows, a) == 1 + DropOrigin(rows[1..], a);
      assert DropOrigin(rows, b) == 1 + DropOrigin(rows[1..], b);
      DropCriticalOrder(rows[1..], a, b);
    }
  }

  /** The sorted-join position the `i`-th output row comes from. */
  function Origin(weather: DailyFrame, price: DailyFrame, sampleStd: seq<real> -> real, i: nat): (k: nat)
    requires EngineerFeatures(weather, price, sampleStd).Ok?
    requires i < |EngineerFeatures(weather, price, sampleStd).value.rows|
    ensures k < |Joined(weather, price)|
  {
    DropOrigin(Features(Joined(weather, price), sampleStd), i)
  }

  /**
   * Output row i is the joined row at position `Origin(i)` with its derived
   * cells: same date, and every cell that row had after the derived columns were
   * assigned is unchanged by the fill; in particular price, temperature and
   * `price_lag_1d` are present.
   */
  lemma OutputRow(weather: DailyFrame, price: DailyFrame, sampleStd: seq<real> -> real, i: nat)
    requires EngineerFeatures(weather, price, sampleStd).Ok?
    requires i < |EngineerFeatures(weather, price, sampleStd).value.rows|
    ensures var out := EngineerFeatures(weather, price, sampleStd).value.rows;
      var f := Features(Joined(weather, price), sampleStd)[Origin(weather, price, sampleStd, i)];
      && out[i].date == f.date
      && Critical(f) && Critical(out[i])
      && (forall c :: c in f.vals ==> NumOf(out[i], c) == NumOf(f, c))
  {
    var fs := Features(Joined(weather, price), sampleStd);
    var d := DropCritical(fs);
    var k := Origin(weather, price, sampleStd, i);
    assert d[i] == fs[k];
    assert d[i] in d;
    forall c | c in fs[k].vals ensures NumOf(ForwardFill(d)[i], c) == NumOf(fs[k], c) {
      FilledNearest(d, i, c);
    }
  }

  /** Output dates ascend. */
  lemma EngineerFeaturesSorted(weather: DailyFrame, price: DailyFrame, sampleStd: seq<real> -> real)
    requires EngineerFeatures(weather, price, sampleStd).Ok?
    ensures var out := EngineerFeatures(weather, price, sampleStd).value.rows;
      forall a, b :: 0 <= a < b < |out| ==> out[a].date <= out[b].date
  {
    var j := Joined(weather, price);
    var out := EngineerFeatures(weather, price, sampleStd).value.rows;
    JoinedSpec(weather, price);
    forall a, b | 0 <= a < b < |out| ensures out[a].date <= out[b].date {
      DropCriticalOrder(Features(j, sampleStd), a, b);
      OutputRow(weather, price, sampleStd, a);
      OutputRow(weather, price, sampleStd, b);
    }
  }

  /** Every output date has a row in both inputs. */
  lemma EngineerFeaturesDates(weather: DailyFrame, price: DailyFrame, sampleStd: seq<real> -> real)
    requires EngineerFeatures(weather, price, sampleStd).Ok?
    ensures var out := EngineerFeatures(weather, price, sampleStd).value.rows;
      forall i :: 0 <= i < |out| ==>
        (exists w :: w in weather.rows && w.date == out[i].date) &&
        (exists p :: p in price.rows && p.date == out[i].date)
  {
    var j := Joined(weather, price);
    var out := EngineerFeatures(weather, price, sampleStd).value.rows;
    forall i | 0 <= i < |out|
      ensures exists w :: w in weather.rows && w.date == out[i].date
      ensures exists p :: p in price.rows && p.date == out[i].date
    {
      var k := Origin(weather, price, sampleStd, i);
      OutputRow(weather, price, sampleStd, i);
      JoinedDates(weather, price, out[i].date);
      assert j[k] in j;
    }
  }

  /**
   * In every output row price, temperature and `price_lag_1d` are present, and
   * `temp_squared` is the row's temperature squared.
   */
  lemma EngineerFeaturesWeather(weather: DailyFrame, price: DailyFrame, sampleStd: seq<real> -> real, i: nat)
    requires EngineerFeatures(weather, price, sampleStd).Ok?
    requires i < |EngineerFeatures(weather, price, sampleStd).value.rows|
    ensures var r := EngineerFeatures(weather, price, sampleStd).value.rows[i];
      && Critical(r)
      && NumOf(r, TempSquared) == Product(NumOf(r, Temperature), NumOf(r, Temperature))
  {
    var j := Joined(weather, price);
    var k := Origin(weather, price, sampleStd, i);
    var f := Features(j, sampleStd)[k];
    var r := EngineerFeatures(weather, price, sampleStd).value.rows[i];
    OutputRow(weather, price, sampleStd, i);
    FeatureSquared(j, k, sampleStd);
    SquareKept(r, f);
  }

  /** `temp_squared` is the square of the row's own temperature. */
  predicate Squared(r: DailyRow)
  {
    NumOf(r, TempSquared) == Product(NumOf(r, Temperature), NumOf(r, Temperature))
  }

  lemma FeatureSquared(rows: seq<DailyRow>, k: nat, sampleStd: seq<real> -> real)
    requires k < |rows|
    ensures Squared(Features(rows, sampleStd)[k])
  {
    WeatherCells(rows, k, sampleStd);
    OtherCells(rows, k, sampleStd, Temperature);
  }

  /** A filled row that agrees with a critical feature row on its cells keeps its squared temperature. */
  lemma SquareKept(r: DailyRow, f: DailyRow)
    requires Critical(f) && Squared(f)
    requires forall c :: c in f.vals ==> NumOf(r, c) == NumOf(f, c)
    ensures Critical(r) && Squared(r)
  {
    assert NumOf(r, Price) == NumOf(f, Price) && NumOf(r, Lag1) == NumOf(f, Lag1);
    assert NumOf(r, Temperature) == NumOf(f, Temperature);
    assert TempSquared in f.vals by {
      assert NumOf(f, TempSquared).Some?;
    }
    assert NumOf(r, TempSquared) == NumOf(f, TempSquared);
  }

  /** The calendar cells of every output row are those of its date. */
  lemma EngineerFeaturesCalendar(weather: DailyFrame, price: DailyFrame, sampleStd: seq<real> -> real, i: nat)
    requires EngineerFeatures(weather, price, sampleStd).Ok?
    requires i < |EngineerFeatures(weather, price, sampleStd).value.rows|
    ensures var r := EngineerFeatures(weather, price, sampleStd).value.rows[i];
      && NumOf(r, DayOfWeekColumn) == Some(Calendar.DayOfWeek(r.date) as real)
      && NumOf(r, MonthColumn) == Some(Calendar.Month(r.date) as real)
      && NumOf(r, DayOfYearColumn) == Some(Calendar.DayOfYear(r.date) as real)
      && (NumOf(r, IsWeekendColumn) == Some(1.0) <==> Calendar.DayOfWeek(r.date) >= 5)
      && (NumOf(r, IsWeekendColumn) == Some(0.0) <==> Calendar.DayOfWeek(r.date) < 5)
  {
    var j := Joined(weather, price);
    var k := Origin(weather, price, sampleStd, i);
    OutputRow(weather, price, sampleStd, i);
    CalendarCells(j, k, sampleStd);
  }

  /** The first joined row lacks `price_lag_1d`, so it never survives the drop. */
  lemma FirstRowDropped(rows: seq<DailyRow>, sampleStd: seq<real> -> real)
    requires |rows| > 0
    ensures Features(rows, sampleStd)[0] !in DropCritical(Features(rows, sampleStd))
    ensures |DropCritical(Features(rows, sampleStd))| < |rows|
  {
    var f := Features(rows, sampleStd);
    LagCells(rows, 0, sampleStd);
    assert f == [f[0]] + f[1..];
    DropCriticalAppend([f[0]], f[1..]);
    assert DropCritical([f[0]]) == [];
  }

  /**
   * The forward fill cannot reach the leading `price_lag_7d` gaps: the kept rows
   * that come from the first seven joined positions all stay without it.
   */
  lemma LeadingLag7StaysMissing(weather: DailyFrame, price: DailyFrame, sampleStd: seq<real> -> real)
    requires EngineerFeatures(weather, price, sampleStd).Ok?
    ensures var j := Joined(weather, price);
      var head := DropCritical(Features(j, sampleStd)[..if |j| < 7 then |j| else 7]);
      var out := EngineerFeatures(weather, price, sampleStd).value.rows;
      |head| <= |out| && forall i :: 0 <= i < |head| ==> Lag7 !in out[i].vals
  {
    var j := Joined(weather, price);
    var f := Features(j, sampleStd);
    var n := if |j| < 7 then |j| else 7;
    var head := DropCritical(f[..n]);
    var d := DropCritical(f);
    assert f == f[..n] + f[n..];
    DropCriticalAppend(f[..n], f[n..]);
    assert d[..|head|] == head;
    ForwardFillPrefix(d, |head|);
    forall i | 0 <= i < |head| ensures Lag7 !in ForwardFill(d)[i].vals {
      forall k | 0 <= k <= i ensures Lag7 !in head[k].vals {
        assert head[k] in f[..n];
        var m :| 0 <= m < n && f[m] == head[k];
        LagCells(j, m, sampleStd);
      }
      ForwardFillNearest(head, i, Lag7);
      assert ForwardFill(d)[i] == ForwardFill(head)[i];
    }
  }
}
