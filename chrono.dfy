/**
 * The part of java.time the calendar relies on: proleptic Gregorian dates,
 * year-months, times of day, the epoch-day count (days since 1970-01-01)
 * and the ISO day of week (Monday = 1 ... Sunday = 7).
 *
 * The leap-year rule is the one written out in Appendix C of RFC 3339.
 * The epoch-day count is built from the days before a year and the days
 * before a month within its year; the day of week is
 * `floorMod(epochDay + 3, 7) + 1`, because 1970-01-01 was a Thursday.
 */
module Chrono {

  datatype YearMonth = YearMonth(year: int, month: int)

  datatype Date = Date(year: int, month: int, day: int)

  /** `LocalTime`; `LocalTime.of(hour, minute)` leaves the second and the nanosecond at 0. */
  datatype LocalTime = LocalTime(hour: int, minute: int, second: int := 0, nano: int := 0)

  const DaysPerWeek: int := 7

  predicate IsLeapYear(year: int) {
    year % 4 == 0 && (year % 100 != 0 || year % 400 == 0)
  }

  predicate ValidYearMonth(ym: YearMonth) {
    1 <= ym.month <= 12
  }

  /** `YearMonth.lengthOfMonth()`. */
  function LengthOfMonth(ym: YearMonth): (n: int)
    ensures 28 <= n <= 31
    ensures n == 29 <==> ym.month == 2 && IsLeapYear(ym.year)
  {
    if ym.month == 2 then (if IsLeapYear(ym.year) then 29 else 28)
    else if ym.month == 4 || ym.month == 6 || ym.month == 9 || ym.month == 11 then 30
    else 31
  }

  function LengthOfYear(year: int): int {
    if IsLeapYear(year) then 366 else 365
  }

  predicate ValidDate(d: Date) {
    1 <= d.month <= 12 && 1 <= d.day <= LengthOfMonth(YearMonth(d.year, d.month))
  }

  predicate ValidTime(t: LocalTime) {
    0 <= t.hour < 24 && 0 <= t.minute < 60 && 0 <= t.second < 60 && 0 <= t.nano < 1_000_000_000
  }

  /** `YearMonth.from(date)`. */
  function MonthOf(d: Date): YearMonth {
    YearMonth(d.year, d.month)
  }

  /** `YearMonth.atDay(day)`, defined for the days the month has. */
  function AtDay(ym: YearMonth, day: int): (d: Date)
    requires ValidYearMonth(ym) && 1 <= day <= LengthOfMonth(ym)
    ensures ValidDate(d) && MonthOf(d) == ym && d.day == day
  {
    Date(ym.year, ym.month, day)
  }

  /** `YearMonth.atEndOfMonth()`. */
  function AtEndOfMonth(ym: YearMonth): Date
    requires ValidYearMonth(ym)
  {
    AtDay(ym, LengthOfMonth(ym))
  }

  /** The months since January of year 0, the count `YearMonth.plusMonths` works on. */
  function MonthCount(ym: YearMonth): int {
    ym.year * 12 + ym.month - 1
  }

  /** `YearMonth.plusMonths(n)`; `minusMonths(n)` is `PlusMonths(ym, -n)`. */
  function PlusMonths(ym: YearMonth, n: int): (r: YearMonth)
    requires ValidYearMonth(ym)
    ensures ValidYearMonth(r) && MonthCount(r) == MonthCount(ym) + n
  {
    var count := MonthCount(ym) + n;
    YearMonth(count / 12, count % 12 + 1)
  }

  /** Two valid year-months with the same month count are the same. */
  lemma MonthCountInjective(a: YearMonth, b: YearMonth)
    requires ValidYearMonth(a) && ValidYearMonth(b) && MonthCount(a) == MonthCount(b)
    ensures a == b
  {
  }

  /** Leap years in the years before `year`, counted from a fixed origin. */
  function LeapYearsBefore(year: int): int {
    (year - 1) / 4 - (year - 1) / 100 + (year - 1) / 400
  }

  /** Days from 1970-01-01 to January 1 of `year` (negative before 1970). */
  function DaysBeforeYear(year: int): int {
    365 * (year - 1970) + LeapYearsBefore(year) - LeapYearsBefore(1970)
  }

  /** Days from January 1 to the first day of `month` in `year`. */
  function DaysBeforeMonth(year: int, month: int): int
    requires 1 <= month <= 12
  {
    var common :=
      match month
      case 1 => 0   case 2 => 31  case 3 => 59   case 4 => 90
      case 5 => 120 case 6 => 151 case 7 => 181  case 8 => 212
      case 9 => 243 case 10 => 273 case 11 => 304 case _ => 334;
    if month > 2 && IsLeapYear(year) then common + 1 else common
  }

  /** `LocalDate.toEpochDay()`. */
  function EpochDay(d: Date): int
    requires 1 <= d.month <= 12
  {
    DaysBeforeYear(d.year) + DaysBeforeMonth(d.year, d.month) + d.day - 1
  }

  /**
   * `DayOfWeek.value` of the day `n` days after 1970-01-01, numbered Monday = 1
   * to Sunday = 7; 1970-01-01 was a Thursday.
   */
  function DayOfWeekOfEpochDay(n: int): (w: int)
    ensures 1 <= w <= DaysPerWeek
    ensures n == 0 ==> w == 4
  {
    (n + 3) % DaysPerWeek + 1
  }

  /** `LocalDate.getDayOfWeek().value`. */
  function DayOfWeek(d: Date): (w: int)
    requires 1 <= d.month <= 12
    ensures 1 <= w <= DaysPerWeek
  {
    DayOfWeekOfEpochDay(EpochDay(d))
  }

  /** Fixed points of the numbering: 1970-01-01 a Thursday (4), 2024-06-03 a Monday (1), 2024-06-09 a Sunday (7). */
  lemma DayOfWeekAnchors()
    ensures DayOfWeek(Date(1970, 1, 1)) == 4
    ensures DayOfWeek(Date(2024, 6, 3)) == 1
    ensures DayOfWeek(Date(2024, 6, 9)) == 7
  {
  }

  /** January 1 of the next year comes one year length after January 1 of this one. */
  lemma DaysBeforeNextYear(year: int)
    ensures DaysBeforeYear(year + 1) == DaysBeforeYear(year) + LengthOfYear(year)
  {
    MultiplesOf4(year);
    MultiplesOf100(year);
    MultiplesOf400(year);
  }

  /** Reaching `y` adds one multiple of 4 exactly when `y` is one; likewise for 100 and 400 below. */
  lemma MultiplesOf4(y: int)
    ensures y / 4 - (y - 1) / 4 == if y % 4 == 0 then 1 else 0
  {
  }

  lemma MultiplesOf100(y: int)
    ensures y / 100 - (y - 1) / 100 == if y % 100 == 0 then 1 else 0
  {
  }

  lemma MultiplesOf400(y: int)
    ensures y / 400 - (y - 1) / 400 == if y % 400 == 0 then 1 else 0
  {
  }

  /** January 1 of a later year lies at least a whole year after January 1 of an earlier one. */
  lemma {:induction false} YearStartsIncrease(a: int, b: int)
    requires a < b
    ensures DaysBeforeYear(a) + LengthOfYear(a) <= DaysBeforeYear(b)
    decreases b - a
  {
    DaysBeforeNextYear(b - 1);
    if a < b - 1 {
      YearStartsIncrease(a, b - 1);
    }
  }

  /** The day after `d`, stepping over month and year ends. */
  function NextDay(d: Date): (r: Date)
    requires ValidDate(d)
    ensures ValidDate(r) && EpochDay(r) == EpochDay(d) + 1
  {
    if d.day < LengthOfMonth(MonthOf(d)) then Date(d.year, d.month, d.day + 1)
    else if d.month < 12 then Date(d.year, d.month + 1, 1)
    else DaysBeforeNextYear(d.year); Date(d.year + 1, 1, 1)
  }

  /** From one day to the next the day of week advances by one, wrapping from Sunday (7) to Monday (1). */
  lemma DayOfWeekStep(n: int)
    ensures DayOfWeekOfEpochDay(n + 1) == DayOfWeekOfEpochDay(n) % DaysPerWeek + 1
  {
    var k := (n + 3) / DaysPerWeek;
    assert n + 3 == k * DaysPerWeek + (n + 3) % DaysPerWeek;
    if (n + 3) % DaysPerWeek == 6 {
      assert n + 4 == (k + 1) * DaysPerWeek;
    } else {
      assert n + 4 == k * DaysPerWeek + ((n + 3) % DaysPerWeek + 1);
    }
  }

  /** Going back `k` days moves the day of week back by `k`, modulo 7. */
  lemma DayOfWeekBack(n: int, k: int)
    ensures DayOfWeekOfEpochDay(n - k) == (DayOfWeekOfEpochDay(n) - 1 - k) % DaysPerWeek + 1
  {
    var q := (n + 3) / DaysPerWeek;
    var w := (n + 3) % DaysPerWeek;
    assert n + 3 == q * DaysPerWeek + w;
    var q2 := (w - k) / DaysPerWeek;
    assert w - k == q2 * DaysPerWeek + (w - k) % DaysPerWeek;
    assert n - k + 3 == (q + q2) * DaysPerWeek + (w - k) % DaysPerWeek;
  }

  lemma DayOfWeekOfNextDay(d: Date)
    requires ValidDate(d)
    ensures DayOfWeek(NextDay(d)) == DayOfWeek(d) % DaysPerWeek + 1
  {
    DayOfWeekStep(EpochDay(d));
  }

  /** The first of the next month comes as many days after the first of this month as this month has. */
  lemma NextMonthStart(ym: YearMonth)
    requires ValidYearMonth(ym)
    ensures EpochDay(AtDay(PlusMonths(ym, 1), 1)) == EpochDay(AtDay(ym, 1)) + LengthOfMonth(ym)
  {
    var next := PlusMonths(ym, 1);
    if ym.month == 12 {
      MonthCountInjective(next, YearMonth(ym.year + 1, 1));
      DaysBeforeNextYear(ym.year);
    } else {
      MonthCountInjective(next, YearMonth(ym.year, ym.month + 1));
    }
  }

  /** The date that lies `r` days after January 1 of `year`, for `r` within that year. */
  function DateInYear(year: int, month: int, r: int): (d: Date)
    requires 1 <= month <= 12 && 0 <= r && DaysBeforeMonth(year, month) + r < LengthOfYear(year)
    ensures ValidDate(d) && d.year == year
    ensures DaysBeforeMonth(year, d.month) + d.day - 1 == DaysBeforeMonth(year, month) + r
    decreases 12 - month
  {
    if r < LengthOfMonth(YearMonth(year, month)) then Date(year, month, r + 1)
    else DateInYear(year, month + 1, r - LengthOfMonth(YearMonth(year, month)))
  }

  /** The year holding the day `r` days after January 1 of `year`, and that day's offset within it. */
  function YearAndOffset(year: int, r: int): (yr: (int, int))
    ensures 0 <= yr.1 < LengthOfYear(yr.0)
    ensures DaysBeforeYear(yr.0) + yr.1 == DaysBeforeYear(year) + r
    decreases if r < 0 then 366 - r else r
  {
    if r < 0 then
      DaysBeforeNextYear(year - 1);
      YearAndOffset(year - 1, r + LengthOfYear(year - 1))
    else if r >= LengthOfYear(year) then
      DaysBeforeNextYear(year);
      YearAndOffset(year + 1, r - LengthOfYear(year))
    else (year, r)
  }

  /** `LocalDate.ofEpochDay(n)`: the valid date whose epoch day is `n`. */
  function DateOfEpochDay(n: int): (d: Date)
    ensures ValidDate(d) && EpochDay(d) == n
  {
    var (year, r) := YearAndOffset(1970, n);
    DateInYear(year, 1, r)
  }

  /** Calendar order of dates: by year, then month, then day. */
  predicate Before(a: Date, b: Date) {
    a.year < b.year || (a.year == b.year && (a.month < b.month || (a.month == b.month && a.day < b.day)))
  }

  /** The epoch-day count orders valid dates exactly as the calendar does. */
  lemma EpochDayOrder(a: Date, b: Date)
    requires ValidDate(a) && ValidDate(b)
    ensures EpochDay(a) < EpochDay(b) <==> Before(a, b)
  {
    if a.year < b.year {
      YearStartsIncrease(a.year, b.year);
    } else if b.year < a.year {
      YearStartsIncrease(b.year, a.year);
    }
  }

  /** Distinct valid dates have distinct epoch days. */
  lemma EpochDayInjective(a: Date, b: Date)
    requires ValidDate(a) && ValidDate(b) && EpochDay(a) == EpochDay(b)
    ensures a == b
  {
    EpochDayOrder(a, b);
    EpochDayOrder(b, a);
  }

  /** `LocalDate.ofEpochDay(d.toEpochDay()) == d`. */
  lemma EpochDayRoundTrip(d: Date)
    requires ValidDate(d)
    ensures DateOfEpochDay(EpochDay(d)) == d
  {
    EpochDayInjective(DateOfEpochDay(EpochDay(d)), d);
  }

  /** A valid date lies in a month exactly when its epoch day lies between those of the month's first and last days. */
  lemma InMonthIffEpochDayInRange(d: Date, ym: YearMonth)
    requires ValidDate(d) && ValidYearMonth(ym)
    ensures MonthOf(d) == ym <==>
            EpochDay(AtDay(ym, 1)) <= EpochDay(d) <= EpochDay(AtEndOfMonth(ym))
  {
    EpochDayOrder(d, AtDay(ym, 1));
    EpochDayOrder(AtEndOfMonth(ym), d);
  }
}
