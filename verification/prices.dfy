/**
 * Fetching spot prices: one request per calendar day from start to end
 * inclusive, the hourly entries of every successful response collected in
 * order, then grouped by UTC day into daily mean, min, max and standard
 * deviation.
 */
module Prices {
  import opened Wrappers
  import opened Frames
  import opened Stats
  import Calendar
  import Sorting
  import Dedup

  const ApiBase := "https://www.elprisetjustnu.se/api/v1/prices/"
  const DefaultRegion := "SE3"
  const MeanColumn := "price_sek_kwh_mean"
  const MinColumn := "price_sek_kwh_min"
  const MaxColumn := "price_sek_kwh_max"
  const StdColumn := "price_sek_kwh_std"

  /** An hourly entry: `time_start` as seconds since the epoch (UTC) and `SEK_per_kWh`. */
  datatype Entry = Entry(start: int, price: real)

  /**
   * A response: its status and, for a JSON list, its entries in order; `None`
   * marks an entry with a missing field or an unparsable `time_start`.
   */
  datatype Response = Response(status: int, entries: seq<Option<Entry>>)

  /** The request URL for a civil date: `{YYYY/MM-DD}_{region}.json` under the API base. */
  function CivilUrl(c: Calendar.Civil, region: string): string
    requires Calendar.ValidCivil(c)
  {
    ApiBase + Calendar.CivilPath(c) + "_" + region + ".json"
  }

  /** The request URL for day `d`. */
  function PriceUrl(d: int, region: string): string
  {
    CivilUrl(Calendar.CivilFromDays(d), region)
  }

  /**
   * The date in the URL is the ISO date `YYYY-MM-DD` with the separator after
   * the year written as '/'.
   */
  lemma CivilUrlNamesDay(c: Calendar.Civil, region: string)
    requires Calendar.ValidCivil(c)
    ensures var iso := Calendar.CivilIso(c);
      var k := |iso| - 6;
      && 0 <= k
      && CivilUrl(c, region) == ApiBase + iso[..k] + "/" + iso[k + 1..] + "_" + region + ".json"
  {
    Calendar.CivilPathIsIso(c);
    Reseparated(Calendar.CivilPath(c), Calendar.CivilIso(c), |Calendar.CivilIso(c)| - 6, region);
  }

  /** A text equal to another but for a '/' at `k`. */
  lemma Reseparated(path: string, iso: string, k: int, region: string)
    requires 0 <= k < |path| == |iso|
    requires path[k] == '/' && path[..k] == iso[..k] && path[k + 1..] == iso[k + 1..]
    ensures ApiBase + path + "_" + region + ".json" == ApiBase + iso[..k] + "/" + iso[k + 1..] + "_" + region + ".json"
  {
    assert path == iso[..k] + "/" + iso[k + 1..] by {
      assert path == path[..k] + [path[k]] + path[k + 1..];
    }
  }

  /** The entries appended before the first malformed one raises. */
  function ValidPrefix(es: seq<Option<Entry>>): seq<Entry>
  {
    if es == [] || es[0].None? then [] else [es[0].value] + ValidPrefix(es[1..])
  }

  /**
   * The kept entries are the well-formed ones up to the first malformed entry,
   * in order: all of them when none is malformed.
   */
  lemma {:induction false} ValidPrefixSpec(es: seq<Option<Entry>>)
    ensures var r := ValidPrefix(es);
      && |r| <= |es|
      && (forall i :: 0 <= i < |r| ==> es[i] == Some(r[i]))
      && (|r| < |es| ==> es[|r|].None?)
  {
    if es != [] && es[0].Some? {
      ValidPrefixSpec(es[1..]);
    }
  }

  /**
   * What one day contributes: nothing on an exception or a status other than
   * 200, else its entries up to the first malformed one (the exception is
   * caught, but the entries already appended stay).
   */
  function DayEntries(r: Result<Response>): seq<Entry>
  {
    if r.Err? || r.value.status != 200 then [] else ValidPrefix(r.value.entries)
  }

  /**
   * The requests for the days `start .. stop - 1`, in day order; `url` names
   * the request for a day (`PriceUrl` with the region fixed).
   */
  function Urls(start: int, stop: int, url: int -> string): (urls: seq<string>)
    ensures |urls| == if stop <= start then 0 else stop - start
    decreases stop - start
  {
    if stop <= start then [] else [url(start)] + Urls(start + 1, stop, url)
  }

  /** The `k`-th request is for day `start + k`. */
  lemma {:induction false} UrlsDays(start: int, stop: int, url: int -> string, k: int)
    requires 0 <= k < stop - start
    ensures Urls(start, stop, url)[k] == url(start + k)
    decreases stop - start
  {
    if k > 0 {
      UrlsDays(start + 1, stop, url, k - 1);
    }
  }

  /** One more day adds its request at the end. */
  lemma {:induction false} UrlsAppend(start: int, stop: int, url: int -> string)
    requires start <= stop
    ensures Urls(start, stop + 1, url) == Urls(start, stop, url) + [url(stop)]
    decreases stop - start
  {
    if start < stop {
      UrlsAppend(start + 1, stop, url);
    }
  }

  /** The entries collected from the responses to `urls`, in request order. */
  function Gathered(urls: seq<string>, fetch: string -> Result<Response>): seq<Entry>
  {
    if urls == [] then [] else DayEntries(fetch(urls[0])) + Gathered(urls[1..], fetch)
  }

  /** The entries gathered from consecutive batches of requests concatenate. */
  lemma {:induction false} GatheredAppend(a: seq<string>, b: seq<string>, fetch: string -> Result<Response>)
    ensures Gathered(a + b, fetch) == Gathered(a, fetch) + Gathered(b, fetch)
  {
    if a == [] {
      assert a + b == b;
    } else {
      assert (a + b)[1..] == a[1..] + b;
      GatheredAppend(a[1..], b, fetch);
    }
  }

  lemma AppendAssoc<T>(a: seq<T>, b: seq<T>, c: seq<T>)
    ensures a + b + c == a + (b + c)
  {
  }

  /** One request contributes its day's entries. */
  lemma GatheredOne(url: string, fetch: string -> Result<Response>)
    ensures Gathered([url], fetch) == DayEntries(fetch(url))
  {
    assert [url][1..] == [];
  }

  /** A request that fails or answers other than 200 contributes nothing, and the others still count. */
  lemma FailedDaySkipped(a: seq<string>, url: string, b: seq<string>, fetch: string -> Result<Response>)
    requires fetch(url).Err? || fetch(url).value.status != 200
    ensures Gathered(a + [url] + b, fetch) == Gathered(a, fetch) + Gathered(b, fetch)
  {
    var rest := [url] + b;
    GatheredAppend(a, rest, fetch);
    GatheredAppend([url], b, fetch);
    GatheredOne(url, fetch);
    assert Gathered(rest, fetch) == [] + Gathered(b, fetch);
    assert [] + Gathered(b, fetch) == Gathered(b, fetch);
    AppendAssoc(a, [url], b);
  }

  /** One aggregated day. */
  datatype DailyPrice = DailyPrice(date: int, mean: real, min: real, max: real, std: Option<real>)

  function DayOf(e: Entry): int
  {
    Calendar.DayOfTimestamp(e.start)
  }

  function DaysOf(es: seq<Entry>): (ds: seq<int>)
    ensures |ds| == |es| && forall i :: 0 <= i < |es| ==> ds[i] == DayOf(es[i])
  {
    seq(|es|, i requires 0 <= i < |es| => DayOf(es[i]))
  }

  function Id(d: int): int
  {
    d
  }

  predicate IntLe(a: int, b: int)
  {
    a <= b
  }

  /** The group keys: the distinct UTC days of the entries, ascending. */
  function GroupDays(es: seq<Entry>): seq<int>
  {
    Sorting.SortBy(Dedup.DedupLast(DaysOf(es), Id), IntLe)
  }

  /** The prices of the entries that fall on day `d`, in order. */
  function PricesOn(es: seq<Entry>, d: int): (ps: seq<real>)
    ensures |ps| <= |es|
    ensures forall p :: p in ps <==> exists e :: e in es && DayOf(e) == d && e.price == p
  {
    if es == [] then []
    else
      assert es == [es[0]] + es[1..];
      var rest := PricesOn(es[1..], d);
      if DayOf(es[0]) == d then [es[0].price] + rest else rest
  }

  /** The prices of a concatenation: each part's prices of the day, in order. */
  lemma {:induction false} PricesOnAppend(a: seq<Entry>, b: seq<Entry>, d: int)
    ensures PricesOn(a + b, d) == PricesOn(a, d) + PricesOn(b, d)
  {
    if a == [] {
      assert a + b == b;
    } else {
      assert (a + b)[1..] == a[1..] + b;
      PricesOnAppend(a[1..], b, d);
    }
  }

  /** One entry contributes its price exactly when it falls on the day. */
  lemma PricesOnOne(e: Entry, d: int)
    ensures PricesOn([e], d) == if DayOf(e) == d then [e.price] else []
  {
    assert [e][1..] == [];
  }

  /** `agg(['mean', 'min', 'max', 'std'])` on one group; `sampleStd` is the (ddof 1) deviation, NaN below two values. */
  function Aggregate(d: int, ps: seq<real>, sampleStd: seq<real> -> real): DailyPrice
    requires |ps| > 0
  {
    DailyPrice(d, Mean(ps), Min(ps), Max(ps), if |ps| >= 2 then Some(sampleStd(ps)) else None)
  }

  /** The grouped rows, one per day, ascending. */
  function DailyPrices(es: seq<Entry>, sampleStd: seq<real> -> real): (rows: seq<DailyPrice>)
    ensures |rows| == |GroupDays(es)|
  {
    var days := GroupDays(es);
    seq(|days|, i requires 0 <= i < |days| =>
      var ps := PricesOn(es, days[i]);
      if |ps| > 0 then Aggregate(days[i], ps, sampleStd) else DailyPrice(days[i], 0.0, 0.0, 0.0, None))
  }

  /** A day is a group key iff some entry falls on it. */
  lemma GroupDaysMembers(es: seq<Entry>, d: int)
    ensures d in GroupDays(es) <==> exists e :: e in es && DayOf(e) == d
  {
    var ds := DaysOf(es);
    var u := Dedup.DedupLast(ds, Id);
    assert d in GroupDays(es) <==> d in multiset(GroupDays(es));
    assert d in u <==> d in multiset(u);
    Dedup.DedupKeys(ds, Id);
    Dedup.KeysMember(ds, Id, d);
    Dedup.KeysMember(u, Id, d);
    if exists e :: e in es && DayOf(e) == d {
      var e :| e in es && DayOf(e) == d;
      var i :| 0 <= i < |es| && es[i] == e;
      assert Id(ds[i]) == d;
    }
    if d in u {
      var i :| 0 <= i < |u| && u[i] == d;
      assert Id(u[i]) == d;
      var j :| 0 <= j < |ds| && Id(ds[j]) == d;
      assert es[j] in es;
    }
  }

  /** The group keys strictly ascend. */
  lemma GroupDaysAscending(es: seq<Entry>)
    ensures var g := GroupDays(es);
      forall i, j :: 0 <= i < j < |g| ==> g[i] < g[j]
  {
    var u := Dedup.DedupLast(DaysOf(es), Id);
    var g := GroupDays(es);
    assert Sorting.TotalPreorder(IntLe);
    Sorting.SortBySorted(u, IntLe);
    Dedup.DedupUnique(DaysOf(es), Id);
    Dedup.UniqueKeysPermutation(g, u, Id);
    forall i, j | 0 <= i < j < |g| ensures g[i] < g[j] {
      assert IntLe(g[i], g[j]);
      assert Id(g[i]) != Id(g[j]);
    }
  }

  /**
   * One row per distinct UTC day, ascending.  Each row aggregates exactly the
   * prices of its day (at least one): its min and max are prices of that day,
   * bounding every one of them, and min ≤ mean ≤ max; the deviation is
   * missing only for a day with a single price.
   */
  lemma DailyPricesSpec(es: seq<Entry>, sampleStd: seq<real> -> real, i: nat)
    requires i < |DailyPrices(es, sampleStd)|
    ensures var r := DailyPrices(es, sampleStd)[i];
      var ps := PricesOn(es, r.date);
      && r.date == GroupDays(es)[i]
      && |ps| > 0
      && r == Aggregate(r.date, ps, sampleStd)
      && r.min in ps && r.max in ps
      && (forall p :: p in ps ==> r.min <= p <= r.max)
      && r.min <= r.mean <= r.max
      && (r.std.None? <==> |ps| == 1)
  {
    var d := GroupDays(es)[i];
    GroupDaysMembers(es, d);
    var e :| e in es && DayOf(e) == d;
    assert e.price in PricesOn(es, d);
    var ps := PricesOn(es, d);
    MinMeanMax(ps);
    forall p | p in ps ensures Min(ps) <= p <= Max(ps) {
      var k :| 0 <= k < |ps| && ps[k] == p;
    }
  }

  /** The returned table: the daily rows, or `pd.DataFrame()` when nothing was collected. */
  function PriceFrame(es: seq<Entry>, sampleStd: seq<real> -> real): (f: DailyFrame)
    ensures |es| == 0 <==> f == DailyFrame([], [])
    ensures |f.rows| == |DailyPrices(es, sampleStd)|
  {
    if |es| == 0 then DailyFrame([], [])
    else
      var rows := DailyPrices(es, sampleStd);
      assert es[0] in es;
      GroupDaysMembers(es, DayOf(es[0]));
      DailyFrame([MeanColumn, MinColumn, MaxColumn, StdColumn],
        seq(|rows|, i requires 0 <= i < |rows| =>
          DailyRow(rows[i].date,
                   map[MeanColumn := rows[i].mean, MinColumn := rows[i].min, MaxColumn := rows[i].max] +
                   (if rows[i].std.Some? then map[StdColumn := rows[i].std.value] else map[]))))
  }

  /**
   * Every row of the returned table is a day some entry falls on, later rows
   * are later days, the mean column lies between the min and max columns,
   * and the std column is present iff the day has at least two prices.
   */
  lemma PriceFrameRows(es: seq<Entry>, sampleStd: seq<real> -> real, i: nat)
    requires i < |PriceFrame(es, sampleStd).rows|
    ensures var f := PriceFrame(es, sampleStd);
      var r := f.rows[i];
      && (exists e :: e in es && DayOf(e) == r.date)
      && MeanColumn in r.vals && MinColumn in r.vals && MaxColumn in r.vals
      && r.vals[MinColumn] <= r.vals[MeanColumn] <= r.vals[MaxColumn]
      && (StdColumn in r.vals <==> |PricesOn(es, r.date)| >= 2)
      && (forall j :: i < j < |f.rows| ==> r.date < f.rows[j].date)
  {
    var f := PriceFrame(es, sampleStd);
    var rows := DailyPrices(es, sampleStd);
    DailyPricesSpec(es, sampleStd, i);
    GroupDaysMembers(es, rows[i].date);
    GroupDaysAscending(es);
    assert f.rows[i].date == rows[i].date;
    forall j | i < j < |f.rows| ensures f.rows[i].date < f.rows[j].date {
      DailyPricesSpec(es, sampleStd, j);
    }
  }

  /** Every day some entry falls on has its row. */
  lemma PriceFrameCoversDays(es: seq<Entry>, sampleStd: seq<real> -> real, e: Entry)
    requires e in es
    ensures var f := PriceFrame(es, sampleStd);
      exists j :: 0 <= j < |f.rows| && f.rows[j].date == DayOf(e)
  {
    var f := PriceFrame(es, sampleStd);
    GroupDaysMembers(es, DayOf(e));
    var g := GroupDays(es);
    var j :| 0 <= j < |g| && g[j] == DayOf(e);
    DailyPricesSpec(es, sampleStd, j);
    assert f.rows[j].date == DayOf(e);
  }

  /**
   * The day loop of `get_electricity_prices`: request every day from `start`
   * through `end` (none when `start > end`) with `url`, keeping the entries of
   * every successful response and going on past failures.  `fetch` stands for
   * the HTTP request and its JSON decoding.
   */
  method FetchDays(start: int, end: int, url: int -> string, fetch: string -> Result<Response>)
    returns (urls: seq<string>, collected: seq<Entry>)
    ensures urls == Urls(start, end + 1, url)
    ensures collected == Gathered(urls, fetch)
  {
    collected := [];
    urls := [];
    var current := start;
    while current <= end
      invariant start <= current && (current <= end + 1 || current == start)
      invariant urls == Urls(start, current, url)
      invariant collected == Gathered(urls, fetch)
      decreases end - current
    {
      var u := url(current);
      var response := fetch(u);
      if response.Ok? && response.value.status == 200 {
        var day := ValidPrefix(response.value.entries);
        collected := collected + day;
      }
      UrlsAppend(start, current, url);
      GatheredAppend(urls, [u], fetch);
      assert [u][1..] == [];
      urls := urls + [u];
      current := current + 1;
    }
  }

  /** `get_electricity_prices` on parsed dates: the day loop, then the daily aggregation. */
  method GetElectricityPrices(start: int, end: int, region: string, fetch: string -> Result<Response>,
                              sampleStd: seq<real> -> real) returns (urls: seq<string>, prices: DailyFrame)
    ensures urls == Urls(start, end + 1, d => PriceUrl(d, region))
    ensures prices == PriceFrame(Gathered(urls, fetch), sampleStd)
  {
    var collected;
    urls, collected := FetchDays(start, end, d => PriceUrl(d, region), fetch);
    prices := PriceFrame(collected, sampleStd);
  }

  /** A start after the end requests nothing and gives the empty frame. */
  lemma EmptyRange(start: int, end: int, url: int -> string, fetch: string -> Result<Response>, sampleStd: seq<real> -> real)
    requires start > end
    ensures Urls(start, end + 1, url) == []
    ensures PriceFrame(Gathered(Urls(start, end + 1, url), fetch), sampleStd) == DailyFrame([], [])
  {
  }
}
