/**
 * Reading rows back for the dashboard: boolean-mask filters by date, date
 * range, city and cutoff, each followed by a sort on the date.  Every failure
 * inside (a missing column, an unconvertible date, an unparsable date
 * argument, a failing read or prediction) is caught and yields an empty frame.
 */
module Retrieval {
  import opened Wrappers
  import opened Frames
  import Calendar
  import Sorting
  import LocalStorage

  const DefaultCity := "Stockholm"
  const PredictionsGroup := "electricity_price_predictions"
  const DefaultDays := 7
  const PredictedPrice := "predicted_price"

  /** `df[mask]`: the rows `keep` accepts, in their order. */
  function Filter(rows: seq<Row>, keep: Row -> bool): (r: seq<Row>)
    ensures |r| <= |rows|
    ensures forall x :: x in r <==> x in rows && keep(x)
    ensures forall x :: multiset(r)[x] == if keep(x) then multiset(rows)[x] else 0
  {
    if rows == [] then []
    else
      assert rows == [rows[0]] + rows[1..];
      if keep(rows[0]) then [rows[0]] + Filter(rows[1..], keep) else Filter(rows[1..], keep)
  }

  /** Masking a concatenation masks each part: the kept rows stay in their order. */
  lemma {:induction false} FilterAppend(a: seq<Row>, b: seq<Row>, keep: Row -> bool)
    ensures Filter(a + b, keep) == Filter(a, keep) + Filter(b, keep)
  {
    if a == [] {
      assert a + b == b;
    } else {
      assert (a + b)[1..] == a[1..] + b;
      FilterAppend(a[1..], b, keep);
    }
  }

  /** One row is kept exactly when the mask accepts it. */
  lemma FilterOne(x: Row, keep: Row -> bool)
    ensures Filter([x], keep) == if keep(x) then [x] else []
  {
    assert [x][1..] == [];
  }

  /** Two masks that agree on every row select the same rows. */
  lemma {:induction false} FilterSameMask(rows: seq<Row>, k1: Row -> bool, k2: Row -> bool)
    requires forall x :: x in rows ==> k1(x) == k2(x)
    ensures Filter(rows, k1) == Filter(rows, k2)
  {
    if rows != [] {
      FilterSameMask(rows[1..], k1, k2);
    }
  }

  predicate OnDate(r: Row, d: int)
  {
    DateOf(r) == Some(d)
  }

  predicate InRange(r: Row, start: int, end: int)
  {
    DateOf(r).Some? && start <= DateOf(r).value <= end
  }

  predicate InCity(r: Row, city: string)
  {
    Cell(r, "city") == Some(Text(city))
  }

  /** The filters can run: the batch was read, both columns exist and the dates convert. */
  predicate Usable(batch: Result<Frame>)
  {
    batch.Ok? && "date" in batch.value.columns && "city" in batch.value.columns && DatesConvertible(batch.value.rows)
  }

  /** `astype(str)` on the date cell: the day as YYYY-MM-DD text. */
  function Render(r: Row): (s: Row)
    ensures forall c :: c != "date" ==> Cell(s, c) == Cell(r, c)
    ensures DateOf(r).Some? ==> Cell(s, "date") == Some(Text(Calendar.IsoDate(DateOf(r).value)))
    ensures DateOf(r).None? ==> Cell(s, "date") == Cell(r, "date")
  {
    map c | c in r :: if c == "date" && r[c].Day? then Text(Calendar.IsoDate(r[c].d)) else r[c]
  }

  function RenderAll(rows: seq<Row>): (s: seq<Row>)
    ensures |s| == |rows| && forall i :: 0 <= i < |rows| ==> s[i] == Render(rows[i])
  {
    seq(|rows|, i requires 0 <= i < |rows| => Render(rows[i]))
  }

  /**
   * `get_historical_data_for_date`: the rows of the day and city, sorted by
   * date; `date` is None when the date argument does not parse.
   */
  function HistoricalForDate(batch: Result<Frame>, date: Option<int>, city: string): (r: Frame)
    ensures !Usable(batch) || date.None? ==> r == EmptyFrame()
    ensures Usable(batch) && date.Some? ==>
      && r.columns == batch.value.columns
      && (forall x :: x in r.rows <==> x in batch.value.rows && OnDate(x, date.value) && InCity(x, city))
      && (forall x :: multiset(r.rows)[x] ==
            if OnDate(x, date.value) && InCity(x, city) then multiset(batch.value.rows)[x] else 0)
      && Sorting.Sorted(r.rows, DateLe)
  {
    if !Usable(batch) || date.None? then EmptyFrame()
    else
      var d := date.value;
      var rows := Filter(batch.value.rows, x => OnDate(x, d) && InCity(x, city));
      SortByDateSorted(rows);
      SortByDateMembers(rows);
      Frame(batch.value.columns, SortByDate(rows))
  }

  /** The rows of the range and city, sorted by date, before the dates become text. */
  function RangeRows(rows: seq<Row>, start: int, end: int, city: string): (r: seq<Row>)
    ensures forall x :: x in r <==> x in rows && InRange(x, start, end) && InCity(x, city)
    ensures forall x :: multiset(r)[x] == if InRange(x, start, end) && InCity(x, city) then multiset(rows)[x] else 0
    ensures Sorting.Sorted(r, DateLe)
  {
    var selected := Filter(rows, x => InRange(x, start, end) && InCity(x, city));
    SortByDateSorted(selected);
    SortByDateMembers(selected);
    SortByDate(selected)
  }

  /** `get_historical_data_in_date_range`: the range's rows, sorted, dates rendered as text. */
  function HistoricalInRange(batch: Result<Frame>, start: Option<int>, end: Option<int>, city: string): (r: Frame)
    ensures !Usable(batch) || start.None? || end.None? ==> r == EmptyFrame()
    ensures Usable(batch) && start.Some? && end.Some? ==>
      && r.columns == batch.value.columns
      && exists s :: && r.rows == RenderAll(s)
                     && Sorting.Sorted(s, DateLe)
                     && (forall x :: multiset(s)[x] ==
                           if InRange(x, start.value, end.value) && InCity(x, city) then multiset(batch.value.rows)[x] else 0)
  {
    if !Usable(batch) || start.None? || end.None? then EmptyFrame()
    else
      var s := RangeRows(batch.value.rows, start.value, end.value, city);
      Frame(batch.value.columns, RenderAll(s))
  }

  /**
   * The rows of a range are in ascending date order with every date in the
   * range, and they are exactly the input rows of the range and city.
   */
  lemma RangeRowsSpec(rows: seq<Row>, start: int, end: int, city: string)
    ensures var r := RangeRows(rows, start, end, city);
      && (forall i :: 0 <= i < |r| ==> InRange(r[i], start, end) && InCity(r[i], city))
      && (forall i, j :: 0 <= i < j < |r| ==>
            DateOf(r[i]).Some? && DateOf(r[j]).Some? && DateOf(r[i]).value <= DateOf(r[j]).value)
  {
    var r := RangeRows(rows, start, end, city);
    forall i | 0 <= i < |r| ensures InRange(r[i], start, end) && InCity(r[i], city) {
      assert r[i] in r;
    }
    forall i, j | 0 <= i < j < |r|
      ensures DateOf(r[i]).Some? && DateOf(r[j]).Some? && DateOf(r[i]).value <= DateOf(r[j]).value
    {
      assert InRange(r[i], start, end) && InRange(r[j], start, end);
      assert DateLe(r[i], r[j]);
    }
  }

  /** A one-day range selects the rows of that day; only the date cells differ (rendered as text). */
  lemma RangeOfOneDay(batch: Result<Frame>, d: int, city: string)
    requires Usable(batch)
    ensures HistoricalInRange(batch, Some(d), Some(d), city).rows ==
            RenderAll(HistoricalForDate(batch, Some(d), city).rows)
  {
    var rows := batch.value.rows;
    FilterSameMask(rows, x => InRange(x, d, d) && InCity(x, city), x => OnDate(x, d) && InCity(x, city));
  }

  /** The model's input: every column but `date` and `city`, in order. */
  function FeatureColumns(columns: seq<string>): (r: seq<string>)
    ensures forall c :: c in r <==> c in columns && c != "date" && c != "city"
  {
    Without(columns, {"date", "city"})
  }

  /** The model input built from the selected rows. */
  function ModelInput(columns: seq<string>, rows: seq<Row>): (x: Frame)
    ensures x.columns == FeatureColumns(columns) && |x.rows| == |rows|
    ensures forall i :: 0 <= i < |rows| ==> x.rows[i] == Project(rows[i], FeatureColumns(columns))
  {
    Frame(FeatureColumns(columns), ProjectAll(rows, FeatureColumns(columns)))
  }

  /** One output row: the date as text and the predicted price. */
  function PredictionRow(d: int, price: real): Row
  {
    map["date" := Text(Calendar.IsoDate(d)), PredictedPrice := Num(price)]
  }

  /** The rows of day `d` and the city. */
  function DayRows(f: Frame, d: int, city: string): (rows: seq<Row>)
    ensures forall x :: x in rows <==> x in f.rows && OnDate(x, d) && InCity(x, city)
    ensures forall x :: multiset(rows)[x] == if OnDate(x, d) && InCity(x, city) then multiset(f.rows)[x] else 0
  {
    Filter(f.rows, x => OnDate(x, d) && InCity(x, city))
  }

  /**
   * `get_future_data_for_date`.  `predict` stands for `model.predict` (None when
   * it raises).  The result frame is built from the one-element date list and
   * the predictions, so any number of predictions other than one raises and
   * yields an empty frame.
   */
  function FutureForDate(batch: Result<Frame>, predict: Frame -> Option<seq<real>>, date: Option<int>, city: string): (r: Frame)
    ensures |r.rows| <= 1
    ensures |r.rows| == 1 ==>
      && Usable(batch) && date.Some? && |DayRows(batch.value, date.value, city)| > 0
      && var p := predict(ModelInput(batch.value.columns, DayRows(batch.value, date.value, city)));
         p.Some? && |p.value| == 1 && r.rows == [PredictionRow(date.value, p.value[0])]
  {
    if !Usable(batch) || date.None? then EmptyFrame()
    else
      var d := date.value;
      var rows := DayRows(batch.value, d, city);
      if |rows| == 0 then EmptyFrame()
      else
        var p := predict(ModelInput(batch.value.columns, rows));
        if p.None? || |p.value| != 1 then EmptyFrame()
        else Frame(["date", PredictedPrice], [PredictionRow(d, p.value[0])])
  }

  /**
   * With a usable batch, a parsed date, a matching row and a model that
   * returns one prediction, the result is that one row.
   */
  lemma FutureForDateOne(batch: Result<Frame>, predict: Frame -> Option<seq<real>>, d: int, city: string, x: Row)
    requires Usable(batch) && x in batch.value.rows && OnDate(x, d) && InCity(x, city)
    requires var p := predict(ModelInput(batch.value.columns, DayRows(batch.value, d, city)));
      p.Some? && |p.value| == 1
    ensures |FutureForDate(batch, predict, Some(d), city).rows| == 1
  {
    assert x in DayRows(batch.value, d, city);
  }

  /** With no matching row the result is empty and the model is not consulted: any `predict` gives it. */
  lemma FutureForDateNoRows(batch: Result<Frame>, predict: Frame -> Option<seq<real>>, other: Frame -> Option<seq<real>>,
                            d: int, city: string)
    requires Usable(batch)
    requires forall x :: x in batch.value.rows ==> !(OnDate(x, d) && InCity(x, city))
    ensures FutureForDate(batch, predict, Some(d), city) == EmptyFrame()
    ensures FutureForDate(batch, other, Some(d), city) == EmptyFrame()
  {
    var rows := DayRows(batch.value, d, city);
    if |rows| > 0 {
      assert rows[0] in rows;
    }
  }

  /** The (date, prediction) pairs of the selected rows, in their order. */
  function Paired(rows: seq<Row>, preds: seq<real>): (r: seq<Row>)
    requires |preds| == |rows|
    requires forall i :: 0 <= i < |rows| ==> DateOf(rows[i]).Some?
    ensures |r| == |rows|
    ensures forall i :: 0 <= i < |rows| ==>
      r[i] == map["date" := Day(DateOf(rows[i]).value), PredictedPrice := Num(preds[i])]
  {
    seq(|rows|, i requires 0 <= i < |rows| => map["date" := Day(DateOf(rows[i]).value), PredictedPrice := Num(preds[i])])
  }

  /** The rows of the range and the city, in stored order. */
  function RangeSelection(f: Frame, start: int, end: int, city: string): (rows: seq<Row>)
    ensures forall x :: x in rows <==> x in f.rows && InRange(x, start, end) && InCity(x, city)
    ensures forall x :: multiset(rows)[x] == if InRange(x, start, end) && InCity(x, city) then multiset(f.rows)[x] else 0
    ensures forall i :: 0 <= i < |rows| ==> DateOf(rows[i]).Some? && start <= DateOf(rows[i]).value <= end
  {
    var rows := Filter(f.rows, x => InRange(x, start, end) && InCity(x, city));
    assert forall i :: 0 <= i < |rows| ==> rows[i] in rows;
    rows
  }

  /**
   * `get_future_data_in_date_range`: the range's rows in their stored order go
   * to the model; the predictions, which must be one per row, are paired with
   * the rows' dates, sorted by date and the dates rendered as text.
   */
  function FutureInRange(batch: Result<Frame>, predict: Frame -> Option<seq<real>>, start: Option<int>, end: Option<int>,
                         city: string): (r: Frame)
    ensures |r.rows| > 0 <==>
      && Usable(batch) && start.Some? && end.Some?
      && var rows := RangeSelection(batch.value, start.value, end.value, city);
         var p := predict(ModelInput(batch.value.columns, rows));
         |rows| > 0 && p.Some? && |p.value| == |rows|
    ensures |r.rows| > 0 ==>
      var rows := RangeSelection(batch.value, start.value, end.value, city);
      r.rows == RenderAll(SortByDate(Paired(rows, predict(ModelInput(batch.value.columns, rows)).value)))
  {
    if !Usable(batch) || start.None? || end.None? then EmptyFrame()
    else
      var rows := RangeSelection(batch.value, start.value, end.value, city);
      if |rows| == 0 then EmptyFrame()
      else
        var p := predict(ModelInput(batch.value.columns, rows));
        if p.None? || |p.value| != |rows| then EmptyFrame()
        else Frame(["date", PredictedPrice], RenderAll(SortByDate(Paired(rows, p.value))))
  }

  /**
   * The rows a range prediction renders: a permutation of the (date,
   * prediction) pairs, each pairing a selected row's date with the prediction
   * at that row's position, in ascending date order, every date in the range.
   */
  lemma PairedSorted(rows: seq<Row>, preds: seq<real>, start: int, end: int)
    requires |preds| == |rows|
    requires forall i :: 0 <= i < |rows| ==> DateOf(rows[i]).Some? && start <= DateOf(rows[i]).value <= end
    ensures var s := SortByDate(Paired(rows, preds));
      && multiset(s) == multiset(Paired(rows, preds))
      && (forall i :: 0 <= i < |s| ==>
            exists k :: 0 <= k < |rows| &&
                        s[i] == map["date" := Day(DateOf(rows[k]).value), PredictedPrice := Num(preds[k])])
      && (forall i :: 0 <= i < |s| ==> InRange(s[i], start, end))
      && Sorting.Sorted(s, DateLe)
  {
    var q := Paired(rows, preds);
    var s := SortByDate(q);
    SortByDateSorted(q);
    SortByDateMembers(q);
    forall i | 0 <= i < |s|
      ensures exists k :: 0 <= k < |rows| && s[i] == map["date" := Day(DateOf(rows[k]).value), PredictedPrice := Num(preds[k])]
      ensures InRange(s[i], start, end)
    {
      assert s[i] in q;
      var k :| 0 <= k < |q| && q[k] == s[i];
      assert DateOf(q[k]) == DateOf(rows[k]);
    }
  }

  /**
   * `get_predictions_from_feature_group`: `table` is the read of the named group
   * (Err when the group cannot be fetched), `now` the current time in seconds.
   * Dates are midnights, so a row stays when its day starts at or after the
   * cutoff `now − days`.
   */
  function PredictionsSince(table: Result<Frame>, city: string, days: int, now: int): (r: Frame)
    ensures !Usable(table) ==> r == EmptyFrame()
    ensures Usable(table) ==>
      && r.columns == table.value.columns
      && (forall x :: x in r.rows <==> x in table.value.rows && InCity(x, city) && DateOf(x).Some? &&
                                       DateOf(x).value * Calendar.SecondsPerDay >= now - days * Calendar.SecondsPerDay)
      && (forall x :: multiset(r.rows)[x] ==
            if InCity(x, city) && DateOf(x).Some? &&
               DateOf(x).value * Calendar.SecondsPerDay >= now - days * Calendar.SecondsPerDay
            then multiset(table.value.rows)[x] else 0)
      && Sorting.Sorted(r.rows, DateLe)
  {
    if !Usable(table) then EmptyFrame()
    else
      var keep := x => InCity(x, city) && DateOf(x).Some? &&
                       DateOf(x).value * Calendar.SecondsPerDay >= now - days * Calendar.SecondsPerDay;
      var rows := Filter(table.value.rows, keep);
      SortByDateSorted(rows);
      SortByDateMembers(rows);
      Frame(table.value.columns, SortByDate(rows))
  }

  /** The read of a local feature group, version 1 (`get_feature_group` then `read`). */
  function LocalGroupTable(tables: map<string, Frame>, store: LocalStorage.FeatureStore, name: string): (r: Result<Frame>)
    ensures r.Ok? <==> LocalStorage.GetFeatureGroup(tables, store, name, 1).Ok?
  {
    match LocalStorage.GetFeatureGroup(tables, store, name, 1)
    case Ok(fg) => Ok(LocalStorage.Read(tables, fg))
    case Err(e) => Err(e)
  }

  /**
   * Against the local store, a missing predictions group gives an empty
   * frame, and a present one gives the stored rows of the city since the cutoff.
   */
  lemma LocalPredictions(tables: map<string, Frame>, store: LocalStorage.FeatureStore, city: string, days: int, now: int)
    ensures var fg := LocalStorage.FeatureGroup(PredictionsGroup, 1, store.basePath);
      var r := PredictionsSince(LocalGroupTable(tables, store, PredictionsGroup), city, days, now);
      && (LocalStorage.TableFile(fg) !in tables ==> r == EmptyFrame())
      && (LocalStorage.TableFile(fg) in tables && Usable(Ok(tables[LocalStorage.TableFile(fg)])) ==>
            forall x :: x in r.rows <==> (x in tables[LocalStorage.TableFile(fg)].rows && InCity(x, city) &&
                                          DateOf(x).Some? &&
                                          DateOf(x).value * Calendar.SecondsPerDay >= now - days * Calendar.SecondsPerDay))
  {
  }

  /** The historical filters read a local feature view's whole table. */
  lemma LocalHistoricalForDate(tables: map<string, Frame>, fv: LocalStorage.FeatureView, d: int, city: string)
    requires Usable(Ok(LocalStorage.GetBatchData(tables, fv)))
    ensures var t := LocalStorage.TableFile(fv.group);
      t in tables &&
      forall x :: x in HistoricalForDate(Ok(LocalStorage.GetBatchData(tables, fv)), Some(d), city).rows <==>
        x in tables[t].rows && OnDate(x, d) && InCity(x, city)
  {
  }
}
