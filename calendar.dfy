/** The proleptic Gregorian calendar of Python's naive `datetime`, with a
    datetime represented by its calendar fields and, equivalently, by its
    count of seconds since 0001-01-01 00:00:00.  Adding a `timedelta` is
    modelled on that count of seconds. */
module Calendar {
  import opened Wrappers

  const MinYear := 1
  const MaxYear := 9999
  const SecondsPerDay := 86400

  /** Days from 0001-01-01 up to and including 9999-12-31: the largest ordinal. */
  const MaxOrdinal := 3652059

  /** One past the largest second a datetime can denote. */
  const SecondsEnd := MaxOrdinal * SecondsPerDay

  /** The exceptions the datetime operations raise. */
  datatype DateError =
    | ValueError   // a field out of range when constructing a datetime
    | OverflowError   // the result of an addition falls outside years 1..9999

  /** A naive datetime with a zero microsecond field. */
  datatype DateTime = DateTime(year: int, month: int, day: int, hour: int, minute: int, second: int)

  predicate IsLeapYear(y: int) {
    y % 4 == 0 && (y % 100 != 0 || y % 400 == 0)
  }

  function DaysInYear(y: int): int {
    if IsLeapYear(y) then 366 else 365
  }

  function DaysInMonth(y: int, m: int): (n: int)
    requires 1 <= m <= 12
    ensures 28 <= n <= 31
  {
    if m == 2 && IsLeapYear(y) then 29
    else [31, 28, 31, 30, 31, 30, 31, 31, 30, 31, 30, 31][m - 1]
  }

  /** Days in the years before `y`, counted from year 1. */
  function DaysBeforeYear(y: int): int
    requires y >= 1
  {
    var p := y - 1;
    p * 365 + p / 4 - p / 100 + p / 400
  }

  /** Days in the months of year `y` before month `m`. */
  function DaysBeforeMonth(y: int, m: int): int
    requires 1 <= m <= 12
  {
    [0, 31, 59, 90, 120, 151, 181, 212, 243, 273, 304, 334][m - 1]
    + (if m > 2 && IsLeapYear(y) then 1 else 0)
  }

  predicate ValidDate(y: int, m: int, d: int) {
    MinYear <= y <= MaxYear && 1 <= m <= 12 && 1 <= d <= DaysInMonth(y, m)
  }

  predicate Valid(dt: DateTime) {
    && ValidDate(dt.year, dt.month, dt.day)
    && 0 <= dt.hour < 24 && 0 <= dt.minute < 60 && 0 <= dt.second < 60
  }

  /** The day number of a date, 0001-01-01 being day 1. */
  function Ordinal(y: int, m: int, d: int): int
    requires ValidDate(y, m, d)
  {
    DaysBeforeYear(y) + DaysBeforeMonth(y, m) + d
  }

  /** Seconds from 0001-01-01 00:00:00 to `dt`. */
  function Seconds(dt: DateTime): (t: int)
    requires Valid(dt)
    ensures 0 <= t < SecondsEnd
  {
    OrdinalBounds(dt.year, dt.month, dt.day);
    (Ordinal(dt.year, dt.month, dt.day) - 1) * SecondsPerDay
    + dt.hour * 3600 + dt.minute * 60 + dt.second
  }

  /** `datetime(y, m, d, h, mi, s)`: a ValueError for any field out of range. */
  function MakeDateTime(y: int, m: int, d: int, h: int, mi: int, s: int): (r: Result<DateTime, DateError>)
    ensures r.Ok? <==> Valid(DateTime(y, m, d, h, mi, s))
    ensures r.Ok? ==> r.value == DateTime(y, m, d, h, mi, s)
    ensures r.Err? ==> r.error == ValueError
  {
    if MinYear <= y <= MaxYear && 1 <= m <= 12 && 1 <= d <= DaysInMonth(y, m)
       && 0 <= h < 24 && 0 <= mi < 60 && 0 <= s < 60
    then Ok(DateTime(y, m, d, h, mi, s))
    else Err(ValueError)
  }

  /** The datetime `t` seconds after 0001-01-01 00:00:00. */
  function FromSeconds(t: int): (dt: DateTime)
    requires 0 <= t < SecondsEnd
    ensures Valid(dt) && Seconds(dt) == t
  {
    var sod := t % SecondsPerDay;
    var (y, m, d) := DateOfOrdinal(t / SecondsPerDay + 1);
    ClockFields(t);
    DateTime(y, m, d, sod / 3600, sod % 3600 / 60, sod % 60)
  }

  /** `dt + timedelta(seconds=k)`: an OverflowError when the result leaves years 1..9999. */
  function AddSeconds(dt: DateTime, k: int): (r: Result<DateTime, DateError>)
    requires Valid(dt)
    ensures r.Ok? <==> 0 <= Seconds(dt) + k < SecondsEnd
    ensures r.Ok? ==> Valid(r.value) && Seconds(r.value) == Seconds(dt) + k
    ensures r.Err? ==> r.error == OverflowError
  {
    var t := Seconds(dt) + k;
    if 0 <= t < SecondsEnd then Ok(FromSeconds(t)) else Err(OverflowError)
  }

  /** Python compares naive datetimes field by field; that order is the order of `Seconds`. */
  predicate Before(a: DateTime, b: DateTime) {
    || a.year < b.year
    || (a.year == b.year && a.month < b.month)
    || (a.year == b.year && a.month == b.month && a.day < b.day)
    || (a.year == b.year && a.month == b.month && a.day == b.day && a.hour < b.hour)
    || (a.year == b.year && a.month == b.month && a.day == b.day && a.hour == b.hour && a.minute < b.minute)
    || (a.year == b.year && a.month == b.month && a.day == b.day && a.hour == b.hour && a.minute == b.minute
        && a.second < b.second)
  }

  // ---------------------------------------------------------------------------
  // From a day number back to a date

  function DateOfOrdinal(n: int): (date: (int, int, int))
    requires 1 <= n <= MaxOrdinal
    ensures ValidDate(date.0, date.1, date.2) && Ordinal(date.0, date.1, date.2) == n
  {
    var y := YearSearch(1, n);
    if y > MaxYear then
      DaysBeforeYearMonotone(MaxYear + 1, y);
      assert false; (0, 0, 0)
    else
      var r := n - DaysBeforeYear(y);
      DaysBeforeYearStep(y);
      var m := MonthSearch(y, 1, r);
      (y, m, r - DaysBeforeMonth(y, m))
  }

  /** The year, from `y` on, whose days contain day number `n`. */
  function YearSearch(y: int, n: int): (r: int)
    requires y >= 1 && DaysBeforeYear(y) < n
    ensures y <= r && DaysBeforeYear(r) < n <= DaysBeforeYear(r + 1)
    decreases n - DaysBeforeYear(y)
  {
    DaysBeforeYearStep(y);
    if n <= DaysBeforeYear(y + 1) then y else YearSearch(y + 1, n)
  }

  /** The month, from `m` on, whose days contain day `r` of year `y`. */
  function MonthSearch(y: int, m: int, r: int): (res: int)
    requires 1 <= m <= 12 && DaysBeforeMonth(y, m) < r <= DaysInYear(y)
    ensures m <= res <= 12
    ensures DaysBeforeMonth(y, res) < r <= DaysBeforeMonth(y, res) + DaysInMonth(y, res)
    decreases 12 - m
  {
    if r <= DaysBeforeMonth(y, m) + DaysInMonth(y, m) then m
    else MonthSearch(y, m + 1, r)
  }

  // ---------------------------------------------------------------------------
  // Lemmas

  lemma DaysBeforeYearStep(y: int)
    requires y >= 1
    ensures DaysBeforeYear(y + 1) == DaysBeforeYear(y) + DaysInYear(y)
  {
    QuotientSteps(y - 1);
    CenturyDivisibility(y);
  }

  /** Adding one to `p` raises its quotient by 4, 100 or 400 exactly when that divisor divides `p + 1`. */
  lemma QuotientSteps(p: int)
    requires p >= 0
    ensures (p + 1) / 4 == p / 4 + (if (p + 1) % 4 == 0 then 1 else 0)
    ensures (p + 1) / 100 == p / 100 + (if (p + 1) % 100 == 0 then 1 else 0)
    ensures (p + 1) / 400 == p / 400 + (if (p + 1) % 400 == 0 then 1 else 0)
  {
  }

  /** A count of seconds splits into whole days and a clock time within the day. */
  lemma ClockFields(t: int)
    requires t >= 0
    ensures var sod := t % SecondsPerDay;
      && 0 <= sod / 3600 < 24 && 0 <= sod % 3600 / 60 < 60 && 0 <= sod % 60 < 60
      && t == (t / SecondsPerDay) * SecondsPerDay + sod / 3600 * 3600 + sod % 3600 / 60 * 60 + sod % 60
  {
  }

  lemma CenturyDivisibility(y: int)
    ensures y % 400 == 0 ==> y % 100 == 0
    ensures y % 100 == 0 ==> y % 4 == 0
  {
  }

  lemma {:induction false} DaysBeforeYearMonotone(a: int, b: int)
    requires 1 <= a <= b
    ensures DaysBeforeYear(a) + (b - a) * 365 <= DaysBeforeYear(b)
    decreases b - a
  {
    if a < b {
      DaysBeforeYearMonotone(a, b - 1);
      DaysBeforeYearStep(b - 1);
    }
  }

  lemma OrdinalBounds(y: int, m: int, d: int)
    requires ValidDate(y, m, d)
    ensures DaysBeforeYear(y) < Ordinal(y, m, d) <= DaysBeforeYear(y + 1) <= MaxOrdinal
  {
    DaysBeforeYearStep(y);
    DaysBeforeYearMonotone(y + 1, MaxYear + 1);
  }

  lemma DaysBeforeMonthStep(y: int, m: int)
    requires 1 <= m <= 12
    ensures DaysBeforeMonth(y, m) + DaysInMonth(y, m)
            == if m == 12 then DaysInYear(y) else DaysBeforeMonth(y, m + 1)
  {
  }

  lemma {:induction false} DaysBeforeMonthMonotone(y: int, m1: int, m2: int)
    requires 1 <= m1 < m2 <= 12
    ensures DaysBeforeMonth(y, m1) + DaysInMonth(y, m1) <= DaysBeforeMonth(y, m2)
    decreases m2 - m1
  {
    DaysBeforeMonthStep(y, m2 - 1);
    if m1 < m2 - 1 {
      DaysBeforeMonthMonotone(y, m1, m2 - 1);
    }
  }

  /** An earlier datetime, in Python's field-by-field order, has fewer seconds. */
  lemma SecondsIncrease(a: DateTime, b: DateTime)
    requires Valid(a) && Valid(b) && Before(a, b)
    ensures Seconds(a) < Seconds(b)
  {
    var oa, ob := Ordinal(a.year, a.month, a.day), Ordinal(b.year, b.month, b.day);
    if a.year < b.year {
      OrdinalBounds(a.year, a.month, a.day);
      DaysBeforeYearMonotone(a.year + 1, b.year);
      assert oa < ob;
    } else if a.year == b.year && a.month < b.month {
      DaysBeforeMonthMonotone(a.year, a.month, b.month);
      assert oa < ob;
    }
  }

  /** Python's comparison of naive datetimes agrees with the comparison of their seconds. */
  lemma BeforeIsSecondsOrder(a: DateTime, b: DateTime)
    requires Valid(a) && Valid(b)
    ensures Before(a, b) <==> Seconds(a) < Seconds(b)
    ensures a == b <==> Seconds(a) == Seconds(b)
  {
    if Before(a, b) {
      SecondsIncrease(a, b);
    } else if Before(b, a) {
      SecondsIncrease(b, a);
    }
  }

  /** Converting to seconds and back gives the same datetime. */
  lemma FromSecondsOfSeconds(dt: DateTime)
    requires Valid(dt)
    ensures FromSeconds(Seconds(dt)) == dt
  {
    BeforeIsSecondsOrder(FromSeconds(Seconds(dt)), dt);
  }

  /** The first instant of the month after month `m` of year `y`. */
  function NextMonthStart(y: int, m: int): DateTime {
    if m == 12 then DateTime(y + 1, 1, 1, 0, 0, 0) else DateTime(y, m + 1, 1, 0, 0, 0)
  }

  /** Hour `h` of day `d` of a month lies `d - 1` days and `h` hours after the month's first instant. */
  lemma DaySeconds(y: int, m: int, d: int, h: int)
    requires ValidDate(y, m, d) && 0 <= h < 24
    ensures Seconds(DateTime(y, m, d, h, 0, 0))
            == Seconds(DateTime(y, m, 1, 0, 0, 0)) + (d - 1) * SecondsPerDay + h * 3600
  {
  }

  /** The next month starts exactly `DaysInMonth(y, m)` days after month `m` of year `y` does. */
  lemma NextMonthSeconds(y: int, m: int)
    requires MinYear <= y <= MaxYear && 1 <= m <= 12 && !(y == MaxYear && m == 12)
    ensures Valid(NextMonthStart(y, m))
    ensures Seconds(NextMonthStart(y, m)) == Seconds(DateTime(y, m, 1, 0, 0, 0)) + DaysInMonth(y, m) * SecondsPerDay
  {
    DaysBeforeMonthStep(y, m);
    DaysBeforeYearStep(y);
  }
}
