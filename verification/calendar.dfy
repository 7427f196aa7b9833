/**
 * Dates as day numbers: day 0 is 1970-01-01, as in pandas' datetime64 columns.
 * Civil (proleptic Gregorian) dates are recovered by counting whole years from
 * 1970 and then months, and formatted the way `strftime` and `str(date)` do.
 */
module Calendar {
  import opened Strings

  datatype Civil = Civil(year: int, month: int, day: int)

  const SecondsPerDay: int := 86400

  predicate IsLeap(y: int)
  {
    y % 4 == 0 && (y % 100 != 0 || y % 400 == 0)
  }

  function YearLength(y: int): int
  {
    if IsLeap(y) then 366 else 365
  }

  /** Leap years from year 1 up to, not including, `y`; negative before year 1, so that differences count. */
  function LeapsBefore(y: int): int
  {
    (y - 1) / 4 - (y - 1) / 100 + (y - 1) / 400
  }

  /** Days from 1 January 1970 to 1 January of year `y`, in closed form (negative before 1970). */
  function DaysBeforeYear(y: int): int
  {
    365 * (y - 1970) + LeapsBefore(y) - LeapsBefore(1970)
  }

  /** The day number of a civil date, in closed form. */
  function DaysFromCivil(c: Civil): int
    requires 1 <= c.month <= 12
  {
    DaysBeforeYear(c.year) + DaysBeforeMonth(c.month, IsLeap(c.year)) + c.day - 1
  }

  /** Days in month `m` of year `y`. */
  function DaysInMonth(y: int, m: int): (n: int)
    requires 1 <= m <= 12
    ensures 28 <= n <= 31
  {
    if m == 12 then 31 else DaysBeforeMonth(m + 1, IsLeap(y)) - DaysBeforeMonth(m, IsLeap(y))
  }

  /** For the leap-year divisors, `k` divides `y` exactly when the quotient steps up from `y - 1` to `y`. */
  lemma QuotientStep(y: int, k: int)
    requires k == 4 || k == 100 || k == 400
    ensures y / k - (y - 1) / k == if y % k == 0 then 1 else 0
  {
    if k == 4 {
    } else if k == 100 {
    } else {
    }
  }

  /** The leap count steps up by one exactly over a leap year. */
  lemma LeapsBeforeStep(y: int)
    ensures LeapsBefore(y + 1) - LeapsBefore(y) == if IsLeap(y) then 1 else 0
  {
    QuotientStep(y, 4);
    QuotientStep(y, 100);
    QuotientStep(y, 400);
    DivisorsNest(y);
  }

  /** Every multiple of 400 is one of 100, and every multiple of 100 one of 4. */
  lemma DivisorsNest(y: int)
    ensures y % 400 == 0 ==> y % 100 == 0
    ensures y % 100 == 0 ==> y % 4 == 0
  {
  }

  /** A year moves the count on by its length. */
  lemma DaysBeforeYearStep(y: int)
    ensures DaysBeforeYear(y + 1) == DaysBeforeYear(y) + YearLength(y)
  {
    LeapsBeforeStep(y);
  }

  /** The civil date of day number `z`: the day it counts back to, and a day within its month. */
  function CivilFromDays(z: int): (c: Civil)
    ensures ValidCivil(c) && c.day <= DaysInMonth(c.year, c.month)
    ensures DaysFromCivil(c) == z
    ensures DaysBeforeYear(c.year) <= z < DaysBeforeYear(c.year + 1)
  {
    CivilFromCounts(1970, z);
    var c := CivilFrom(1970, z);
    DaysBeforeYearStep(c.year);
    c
  }

  /** The date `doy` days after 1 January of `y` counts back to that many days after the year's start. */
  lemma {:induction false} CivilFromCounts(y: int, doy: int)
    ensures DaysFromCivil(CivilFrom(y, doy)) == DaysBeforeYear(y) + doy
    decreases if doy < 0 then 1000 - doy else doy
  {
    if doy < 0 {
      CivilFromCounts(y - 1, doy + YearLength(y - 1));
      DaysBeforeYearStep(y - 1);
    } else if doy >= YearLength(y) {
      CivilFromCounts(y + 1, doy - YearLength(y));
      DaysBeforeYearStep(y);
    }
  }

  /**
   * The civil date `doy` days after 1 January of year `y` (`doy` of either
   * sign): whole years are moved into the year, then the month is found.
   */
  function CivilFrom(y: int, doy: int): (c: Civil)
    ensures ValidCivil(c) && c.day <= DaysInMonth(c.year, c.month)
    ensures 1 <= DaysBeforeMonth(c.month, IsLeap(c.year)) + c.day <= YearLength(c.year)
    decreases if doy < 0 then 1000 - doy else doy
  {
    if doy < 0 then CivilFrom(y - 1, doy + YearLength(y - 1))
    else if doy >= YearLength(y) then CivilFrom(y + 1, doy - YearLength(y))
    else
      var m := MonthOf(doy, IsLeap(y), 12);
      MonthSpan(m, IsLeap(y));
      Civil(y, m, doy - DaysBeforeMonth(m, IsLeap(y)) + 1)
  }

  /** No month is longer than 31 days; December ends with the year. */
  lemma MonthSpan(m: int, leap: bool)
    requires 1 <= m <= 12
    ensures DaysBeforeMonth(1, leap) == 0
    ensures m < 12 ==> DaysBeforeMonth(m + 1, leap) - DaysBeforeMonth(m, leap) <= 31
    ensures m == 12 ==> DaysBeforeMonth(m, leap) == (if leap then 335 else 334)
  {
  }

  /** The last month among 1 .. `m` that starts on or before day `doy` of the year. */
  function MonthOf(doy: int, leap: bool, m: int): (r: int)
    requires 1 <= m <= 12
    ensures 1 <= r <= m
    ensures r == 1 || DaysBeforeMonth(r, leap) <= doy
    ensures r < m ==> doy < DaysBeforeMonth(r + 1, leap)
    decreases m
  {
    if m == 1 || DaysBeforeMonth(m, leap) <= doy then m else MonthOf(doy, leap, m - 1)
  }

  /** pandas `dt.dayofweek`: Monday is 0; day 0 (1970-01-01) was a Thursday. */
  function DayOfWeek(z: int): (w: int)
    ensures 0 <= w <= 6
    ensures z == 0 ==> w == 3
  {
    (z + 3) % 7
  }

  /** Each day moves the weekday on by one, Sunday (6) wrapping to Monday (0). */
  lemma DayOfWeekNext(z: int)
    ensures DayOfWeek(z + 1) == (DayOfWeek(z) + 1) % 7
  {
  }

  /** pandas `dt.month`: the month of its year that day `z` falls in. */
  function Month(z: int): (m: int)
    ensures 1 <= m <= 12
    ensures var y := CivilFromDays(z).year;
      var first := DaysBeforeYear(y) + DaysBeforeMonth(m, IsLeap(y));
      first <= z < first + DaysInMonth(y, m)
  {
    CivilFromDays(z).month
  }

  /** Days in the months before month `m` of a year. */
  function DaysBeforeMonth(m: int, leap: bool): (n: int)
    requires 1 <= m <= 12
    ensures 0 <= n <= 335
  {
    var table := [0, 31, 59, 90, 120, 151, 181, 212, 243, 273, 304, 334];
    table[m - 1] + (if leap && m > 2 then 1 else 0)
  }

  /** pandas `dt.dayofyear`: 1 for the first of January. */
  function DayOfYear(z: int): (n: int)
    ensures 1 <= n <= YearLength(CivilFromDays(z).year)
    ensures n == z - DaysBeforeYear(CivilFromDays(z).year) + 1
  {
    var c := CivilFromDays(z);
    DaysBeforeMonth(c.month, IsLeap(c.year)) + c.day
  }

  /** The UTC calendar day of a timestamp in seconds since the epoch. */
  function DayOfTimestamp(t: int): (z: int)
    ensures z * SecondsPerDay <= t < (z + 1) * SecondsPerDay
  {
    t / SecondsPerDay
  }

  /** A month or a day of month as two digits. */
  function TwoDigits(n: int): (s: string)
    requires 1 <= n <= 31
    ensures |s| == 2
  {
    ZeroPad(Digits(n), 2)
  }

  /** A year as `%Y` and `str(date)` write it: at least four digits. */
  function YearText(y: int): string
  {
    if y < 0 then IntToString(y) else ZeroPad(Digits(y), 4)
  }

  predicate ValidCivil(c: Civil)
  {
    1 <= c.month <= 12 && 1 <= c.day <= 31
  }

  /** A civil date as YYYY-MM-DD. */
  function CivilIso(c: Civil): string
    requires ValidCivil(c)
  {
    YearText(c.year) + "-" + TwoDigits(c.month) + "-" + TwoDigits(c.day)
  }

  /** A civil date as YYYY/MM-DD. */
  function CivilPath(c: Civil): string
    requires ValidCivil(c)
  {
    YearText(c.year) + "/" + TwoDigits(c.month) + "-" + TwoDigits(c.day)
  }

  /** `str(date)` / `astype(str)` on a date: YYYY-MM-DD. */
  function IsoDate(z: int): string
  {
    CivilIso(CivilFromDays(z))
  }

  /** `strftime('%Y/%m-%d')`: YYYY/MM-DD. */
  function DatePath(z: int): string
  {
    CivilPath(CivilFromDays(z))
  }

  /** Two date texts that differ only in the separator after the year. */
  lemma SeparatorAfterYear(y: string, m: string, d: string)
    ensures var s1, s2 := y + "/" + m + "-" + d, y + "-" + m + "-" + d;
      && |s1| == |s2| == |y| + 2 + |m| + |d|
      && s1[|y|] == '/' && s2[|y|] == '-'
      && s1[..|y|] == s2[..|y|] == y && s1[|y| + 1..] == s2[|y| + 1..] == m + "-" + d
  {
    var s1, s2 := y + "/" + m + "-" + d, y + "-" + m + "-" + d;
    assert s1 == y + ("/" + (m + "-" + d));
    assert s2 == y + ("-" + (m + "-" + d));
    assert s1[..|y|] == y;
    assert s2[..|y|] == y;
    assert s1[|y| + 1..] == m + "-" + d;
    assert s2[|y| + 1..] == m + "-" + d;
  }

  /** The path form of a civil date is its ISO form with the separator after the year turned into '/'. */
  lemma CivilPathIsIso(c: Civil)
    requires ValidCivil(c)
    ensures var k := |YearText(c.year)|;
      && |CivilPath(c)| == |CivilIso(c)| == k + 6
      && CivilPath(c)[k] == '/' && CivilIso(c)[k] == '-'
      && CivilPath(c)[..k] == CivilIso(c)[..k] && CivilPath(c)[k + 1..] == CivilIso(c)[k + 1..]
  {
    SeparatorAfterYear(YearText(c.year), TwoDigits(c.month), TwoDigits(c.day));
  }

  /** The same for a day number. */
  lemma DatePathIsIsoDate(z: int)
    ensures var k := |YearText(CivilFromDays(z).year)|;
      && |DatePath(z)| == |IsoDate(z)| == k + 6
      && DatePath(z)[k] == '/' && IsoDate(z)[k] == '-'
      && DatePath(z)[..k] == IsoDate(z)[..k] && DatePath(z)[k + 1..] == IsoDate(z)[k + 1..]
  {
    CivilPathIsIso(CivilFromDays(z));
  }
}
