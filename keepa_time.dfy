/**
 * Keepa's time encoding and the calendar arithmetic the pipeline needs.
 * Keepa stamps events in minutes since 2011-01-01 00:00 UTC; the model keeps
 * every table index as a Unix minute (minutes since 1970-01-01 00:00 UTC).
 */
module KeepaTime {

  /** Minutes between the Unix epoch and the Keepa epoch. */
  const KeepaOffset: int := 21564000
  const MillisPerMinute: int := 60000
  const MinutesPerDay: int := 1440

  /** A decoded timestamp: the sentinel "unknown" or a Unix-millisecond instant. */
  datatype Stamp = Unknown | Instant(ms: int)

  /** The Unix minute of a Keepa minute. */
  function UnixMinute(keepaTime: int): int {
    keepaTime + KeepaOffset
  }

  /** convert_time: 0 is Keepa's "no time" marker; anything else is shifted and scaled to milliseconds. */
  function ConvertTime(keepaTime: int): (s: Stamp)
    ensures keepaTime == 0 <==> s == Unknown
    ensures keepaTime != 0 ==> s == Instant(UnixMinute(keepaTime) * MillisPerMinute)
  {
    if keepaTime == 0 then Unknown
    else Instant((keepaTime + KeepaOffset) * MillisPerMinute)
  }

  /** Decoding is strictly increasing: a later Keepa minute is a later instant. */
  lemma ConvertTimeStrictlyIncreasing(a: int, b: int)
    requires a != 0 && b != 0 && a < b
    ensures ConvertTime(a).Instant? && ConvertTime(b).Instant?
    ensures ConvertTime(a).ms < ConvertTime(b).ms
    ensures ConvertTime(b).ms - ConvertTime(a).ms == (b - a) * MillisPerMinute
  {
  }

  /** Decoding is injective on real times, so a decoded time determines the Keepa minute. */
  lemma ConvertTimeInjective(a: int, b: int)
    requires a != 0 && b != 0 && ConvertTime(a) == ConvertTime(b)
    ensures a == b
  {
    if a < b {
      ConvertTimeStrictlyIncreasing(a, b);
    } else if b < a {
      ConvertTimeStrictlyIncreasing(b, a);
    }
  }

  /** The calendar day (days since 1970-01-01) of a Unix minute; `/` floors for a positive divisor. */
  function DayOf(minute: int): (d: int)
    ensures d * MinutesPerDay <= minute < (d + 1) * MinutesPerDay
  {
    minute / MinutesPerDay
  }

  /**
   * The first minute of the grid: midnight of the day `days` days before `today`
   * (pandas: `(to_datetime("today") - Timedelta(days=days)).date()`).
   */
  function WindowStart(today: int, days: int): (m: int)
    ensures m % MinutesPerDay == 0
    ensures m <= today - days * MinutesPerDay < m + MinutesPerDay
  {
    DayOf(today - days * MinutesPerDay) * MinutesPerDay
  }

  // ---------------------------------------------------------------------------
  // Gregorian calendar, for the "YYYY-MM" month keys.

  predicate IsLeap(y: int) {
    y % 4 == 0 && (y % 100 != 0 || y % 400 == 0)
  }

  function YearDays(y: int): int {
    if IsLeap(y) then 366 else 365
  }

  function MonthDays(y: int, m: int): (n: int)
    requires 1 <= m <= 12
    ensures 28 <= n <= 31
  {
    if m == 2 then (if IsLeap(y) then 29 else 28)
    else if m == 4 || m == 6 || m == 9 || m == 11 then 30
    else 31
  }

  /** Days of year `y` from the first of month `m` to the end of the year. */
  function DaysFromMonth(y: int, m: int): (n: int)
    requires 1 <= m <= 12
    decreases 12 - m
    ensures n >= MonthDays(y, m)
  {
    if m == 12 then MonthDays(y, 12) else MonthDays(y, m) + DaysFromMonth(y, m + 1)
  }

  lemma DaysFromJanuary(y: int)
    ensures DaysFromMonth(y, 1) == YearDays(y)
  {
  }

  datatype Date = Date(year: int, month: int, day: int)

  predicate ValidDate(d: Date) {
    1 <= d.month <= 12 && 1 <= d.day <= MonthDays(d.year, d.month)
  }

  /** Month and day of the `d`-th day (0-based) counted from the first of month `m` of year `y`. */
  function MonthOf(y: int, m: int, d: int): (r: Date)
    requires 1 <= m <= 12 && 0 <= d < DaysFromMonth(y, m)
    decreases 12 - m
    ensures ValidDate(r) && r.year == y && m <= r.month
  {
    if d < MonthDays(y, m) then Date(y, m, d + 1)
    else MonthOf(y, m + 1, d - MonthDays(y, m))
  }

  /** The date `d` days after January 1st of year `y`. */
  function CivilFrom(y: int, d: nat): (r: Date)
    decreases d
    ensures ValidDate(r) && r.year >= y
  {
    DaysFromJanuary(y);
    if d < YearDays(y) then MonthOf(y, 1, d)
    else CivilFrom(y + 1, d - YearDays(y))
  }

  /** The calendar date of a day number (days since 1970-01-01): the date whose day number it is. */
  function Civil(day: nat): (r: Date)
    ensures ValidDate(r) && r.year >= 1970
    ensures DayNumber(r) == day
  {
    CivilFromOffset(1970, day);
    CivilFrom(1970, day)
  }

  /** Days from January 1st of year `a` to January 1st of year `b`. */
  function DaysBetween(a: int, b: int): nat
    decreases b - a
  {
    if a >= b then 0 else YearDays(a) + DaysBetween(a + 1, b)
  }

  /** Days of year `y` before the first of month `m`. */
  function DaysBeforeMonth(y: int, m: int): nat
    requires 1 <= m <= 12
  {
    if m == 1 then 0 else DaysBeforeMonth(y, m - 1) + MonthDays(y, m - 1)
  }

  /** The day number (days since 1970-01-01) of a date from 1970 on. */
  function DayNumber(d: Date): nat
    requires ValidDate(d) && d.year >= 1970
  {
    DaysBetween(1970, d.year) + DaysBeforeMonth(d.year, d.month) + d.day - 1
  }

  lemma {:induction false} MonthOfOffset(y: int, m: int, d: int)
    requires 1 <= m <= 12 && 0 <= d < DaysFromMonth(y, m)
    ensures var r := MonthOf(y, m, d);
      DaysBeforeMonth(y, r.month) + r.day - 1 == DaysBeforeMonth(y, m) + d
    decreases 12 - m
  {
    if d >= MonthDays(y, m) {
      MonthOfOffset(y, m + 1, d - MonthDays(y, m));
    }
  }

  /** Counting the days back from the date `n` days after January 1st of `y` gives `n`. */
  lemma {:induction false} CivilFromOffset(y: int, n: nat)
    ensures var r := CivilFrom(y, n);
      DaysBetween(y, r.year) + DaysBeforeMonth(r.year, r.month) + r.day - 1 == n
    decreases n
  {
    DaysFromJanuary(y);
    if n < YearDays(y) {
      MonthOfOffset(y, 1, n);
    } else {
      CivilFromOffset(y + 1, n - YearDays(y));
    }
  }

  lemma {:induction false} MonthOfDate(y: int, k: int, m: int, day: int)
    requires 1 <= k <= m <= 12 && 1 <= day <= MonthDays(y, m)
    ensures 0 <= DaysBeforeMonth(y, m) - DaysBeforeMonth(y, k) + day - 1 < DaysFromMonth(y, k)
    ensures MonthOf(y, k, DaysBeforeMonth(y, m) - DaysBeforeMonth(y, k) + day - 1) == Date(y, m, day)
    decreases m - k
  {
    if k < m {
      MonthOfDate(y, k + 1, m, day);
      MonthStep(y, k, DaysBeforeMonth(y, m) - DaysBeforeMonth(y, k + 1) + day - 1);
    }
  }

  /** One month further on: the day `d` after the first of month `k + 1` is the day `MonthDays + d` after the first of `k`. */
  lemma MonthStep(y: int, k: int, d: int)
    requires 1 <= k < 12 && 0 <= d < DaysFromMonth(y, k + 1)
    ensures DaysBeforeMonth(y, k + 1) == DaysBeforeMonth(y, k) + MonthDays(y, k)
    ensures MonthDays(y, k) + d < DaysFromMonth(y, k)
    ensures MonthOf(y, k, MonthDays(y, k) + d) == MonthOf(y, k + 1, d)
  {
  }

  /** The date `d` is the date so many days after January 1st of `y` as its day count says. */
  lemma {:induction false} CivilFromDate(y: int, d: Date)
    requires ValidDate(d) && y <= d.year
    ensures CivilFrom(y, DaysBetween(y, d.year) + DaysBeforeMonth(d.year, d.month) + d.day - 1) == d
    decreases d.year - y
  {
    DaysFromJanuary(y);
    if y == d.year {
      MonthOfDate(y, 1, d.month, d.day);
    } else {
      CivilFromDate(y + 1, d);
    }
  }

  /** `Civil` undoes `DayNumber`: every date from 1970 on is the date of its day number. */
  lemma CivilOfDayNumber(d: Date)
    requires ValidDate(d) && d.year >= 1970
    ensures Civil(DayNumber(d)) == d
  {
    CivilFromDate(1970, d);
  }

  lemma {:induction false} DaysBetweenSplit(a: int, b: int, c: int)
    requires a <= b <= c
    ensures DaysBetween(a, c) == DaysBetween(a, b) + DaysBetween(b, c)
    decreases b - a
  {
    if a < b {
      DaysBetweenSplit(a + 1, b, c);
    }
  }

  /** Fifty years, twelve of them leap years. */
  lemma DaysTo2020()
    ensures DaysBetween(1970, 2020) == 18262
  {
    DaysBetweenSplit(1970, 1980, 2020);
    DaysBetweenSplit(1980, 1990, 2020);
    DaysBetweenSplit(1990, 2000, 2020);
    DaysBetweenSplit(2000, 2010, 2020);
    Days1970s();
    Days1980s();
    Days1990s();
    Days2000s();
    Days2010s();
  }

  lemma Days1970s()
    ensures DaysBetween(1970, 1980) == 3652
  {
  }

  lemma Days1980s()
    ensures DaysBetween(1980, 1990) == 3653
  {
  }

  lemma Days1990s()
    ensures DaysBetween(1990, 2000) == 3652
  {
  }

  lemma Days2000s()
    ensures DaysBetween(2000, 2010) == 3653
  {
  }

  lemma Days2010s()
    ensures DaysBetween(2010, 2020) == 3652
  {
  }

  /** `Day2020` is the day number of 2020-01-01, and the day before it is 2019-12-31. */
  lemma Day2020IsNewYear()
    ensures DayNumber(Date(2020, 1, 1)) == Day2020
    ensures Civil(Day2020) == Date(2020, 1, 1)
    ensures Civil(Day2020 - 1) == Date(2019, 12, 31)
  {
    NewYear2020();
    NewYearsEve2019();
  }

  lemma NewYear2020()
    ensures DayNumber(Date(2020, 1, 1)) == Day2020
    ensures Civil(Day2020) == Date(2020, 1, 1)
  {
    var d := Date(2020, 1, 1);
    DaysTo2020();
    assert DayNumber(d) == DaysBetween(1970, 2020);
    CivilOfDayNumber(d);
  }

  lemma NewYearsEve2019()
    ensures Civil(Day2020 - 1) == Date(2019, 12, 31)
  {
    var d := Date(2019, 12, 31);
    DaysTo2020();
    DaysBetweenSplit(1970, 2019, 2020);
    assert DaysBetween(2019, 2020) == 365;
    assert DaysBeforeMonth(2019, 12) == 334;
    assert DayNumber(d) == Day2020 - 1;
    CivilOfDayNumber(d);
  }

  /** A day is on or after 2020-01-01 exactly when its calendar year is 2020 or later. */
  lemma From2020IsYear(day: nat)
    ensures day >= Day2020 <==> Civil(day).year >= 2020
  {
    Day2020IsNewYear();
    if day >= Day2020 {
      CivilMonotone(Day2020, day);
    } else {
      CivilMonotone(day, Day2020 - 1);
    }
  }

  /** A month as one increasing number: 12 * year + (month - 1). */
  function MonthNumber(d: Date): int {
    12 * d.year + d.month - 1
  }

  lemma {:induction false} MonthOfMonotone(y: int, m: int, d1: int, d2: int)
    requires 1 <= m <= 12 && 0 <= d1 <= d2 < DaysFromMonth(y, m)
    ensures MonthOf(y, m, d1).month <= MonthOf(y, m, d2).month
    decreases 12 - m
  {
    if d1 < MonthDays(y, m) {
    } else {
      MonthOfMonotone(y, m + 1, d1 - MonthDays(y, m), d2 - MonthDays(y, m));
    }
  }

  lemma {:induction false} CivilFromMonotone(y: int, d1: nat, d2: nat)
    requires d1 <= d2
    ensures MonthNumber(CivilFrom(y, d1)) <= MonthNumber(CivilFrom(y, d2))
    decreases d2
  {
    DaysFromJanuary(y);
    if d2 < YearDays(y) {
      MonthOfMonotone(y, 1, d1, d2);
    } else if d1 < YearDays(y) {
      // the first date is in year y, the second in a later year
    } else {
      CivilFromMonotone(y + 1, d1 - YearDays(y), d2 - YearDays(y));
    }
  }

  /** Later days never fall in earlier months: the month key is monotone in the day. */
  lemma CivilMonotone(d1: nat, d2: nat)
    requires d1 <= d2
    ensures MonthNumber(Civil(d1)) <= MonthNumber(Civil(d2))
  {
    CivilFromMonotone(1970, d1, d2);
  }

  /** Day number of 2020-01-01 (see `Day2020IsNewYear`). */
  const Day2020: int := 18262
}
