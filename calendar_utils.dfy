/**
 * The month grid of `CalendarUtils`: 42 cells (6 weeks of 7 days) holding
 * the trailing days of the previous month, every day of the month, and the
 * leading days of the next month, aligned so that the first cell falls on
 * the locale's first day of week. The locale enters only as that first day
 * of week, a `DayOfWeek.value` in 1..7.
 */
module CalendarUtils {
  import opened Wrappers
  import opened Chrono

  const GridSize: int := 42

  predicate ValidFirstDayOfWeek(firstDayOfWeek: int) {
    1 <= firstDayOfWeek <= DaysPerWeek
  }

  /**
   * `startOffset`: how many cells come before the first of the month. It is
   * the only offset in 0..6 that puts the first cell on the first day of week.
   */
  function StartOffset(firstDayOfMonth: Date, firstDayOfWeek: int): (offset: int)
    requires ValidDate(firstDayOfMonth) && ValidFirstDayOfWeek(firstDayOfWeek)
    ensures 0 <= offset < DaysPerWeek
    ensures DayOfWeekOfEpochDay(EpochDay(firstDayOfMonth) - offset) == firstDayOfWeek
  {
    var offset := DayOfWeek(firstDayOfMonth) - firstDayOfWeek;
    var r := if offset < 0 then offset + 7 else offset;
    DayOfWeekBack(EpochDay(firstDayOfMonth), r);
    r
  }

  /** The epoch day of the grid's first cell. */
  function GridStart(ym: YearMonth, firstDayOfWeek: int): int
    requires ValidYearMonth(ym) && ValidFirstDayOfWeek(firstDayOfWeek)
  {
    EpochDay(AtDay(ym, 1)) - StartOffset(AtDay(ym, 1), firstDayOfWeek)
  }

  /**
   * The grid as it should be: 42 consecutive days starting at `GridStart`.
   * `DaysInMonth` is proved to build exactly this sequence.
   */
  function GridCells(ym: YearMonth, firstDayOfWeek: int): (cells: seq<Date>)
    requires ValidYearMonth(ym) && ValidFirstDayOfWeek(firstDayOfWeek)
    ensures |cells| == GridSize
    ensures forall i | 0 <= i < GridSize ::
              ValidDate(cells[i]) && EpochDay(cells[i]) == GridStart(ym, firstDayOfWeek) + i
  {
    var start := GridStart(ym, firstDayOfWeek);
    var cells := seq(GridSize, i => DateOfEpochDay(start + i));
    assert forall i | 0 <= i < GridSize :: cells[i] == DateOfEpochDay(start + i);
    cells
  }

  /**
   * `getDaysInMonth`: three loops append the previous month's trailing days,
   * the month's days and the next month's leading days to a list of nullable
   * dates.
   */
  method DaysInMonth(ym: YearMonth, firstDayOfWeek: int) returns (dates: seq<Option<Date>>)
    requires ValidYearMonth(ym) && ValidFirstDayOfWeek(firstDayOfWeek)
    ensures |dates| == GridSize
    ensures forall i | 0 <= i < GridSize :: dates[i] == Some(GridCells(ym, firstDayOfWeek)[i])
  {
    var firstDayOfMonth := AtDay(ym, 1);
    var lastDayOfMonth := AtEndOfMonth(ym);

    var startOffset := DayOfWeek(firstDayOfMonth) - firstDayOfWeek;
    if startOffset < 0 {
      startOffset := startOffset + 7;
    }
    assert startOffset == StartOffset(firstDayOfMonth, firstDayOfWeek);

    dates := [];

    var prevMonth := PlusMonths(ym, -1);
    var daysInPrevMonth := LengthOfMonth(prevMonth);
    var from := daysInPrevMonth - startOffset + 1;
    for i := from to daysInPrevMonth + 1
      invariant |dates| == i - from
      invariant forall j | 0 <= j < |dates| :: dates[j] == Some(AtDay(prevMonth, from + j))
    {
      dates := dates + [Some(AtDay(prevMonth, i))];
    }

    for day := 1 to lastDayOfMonth.day + 1
      invariant |dates| == startOffset + day - 1
      invariant forall j | 0 <= j < startOffset :: dates[j] == Some(AtDay(prevMonth, from + j))
      invariant forall j | startOffset <= j < |dates| :: dates[j] == Some(AtDay(ym, j - startOffset + 1))
    {
      dates := dates + [Some(AtDay(ym, day))];
    }

    var nextMonth := PlusMonths(ym, 1);
    var remainingCells := GridSize - |dates|;
    var inMonth := startOffset + LengthOfMonth(ym);
    for day := 1 to remainingCells + 1
      invariant |dates| == inMonth + day - 1
      invariant forall j | 0 <= j < startOffset :: dates[j] == Some(AtDay(prevMonth, from + j))
      invariant forall j | startOffset <= j < inMonth :: dates[j] == Some(AtDay(ym, j - startOffset + 1))
      invariant forall j | inMonth <= j < |dates| :: dates[j] == Some(AtDay(nextMonth, j - inMonth + 1))
    {
      dates := dates + [Some(AtDay(nextMonth, day))];
    }

    SegmentsFormGrid(ym, firstDayOfWeek, dates);
  }

  /** A list laid out in the three runs of `GridSegments` is the grid. */
  lemma SegmentsFormGrid(ym: YearMonth, firstDayOfWeek: int, dates: seq<Option<Date>>)
    requires ValidYearMonth(ym) && ValidFirstDayOfWeek(firstDayOfWeek)
    requires var offset := StartOffset(AtDay(ym, 1), firstDayOfWeek);
             var prev := PlusMonths(ym, -1);
             var n := LengthOfMonth(ym);
             && |dates| == GridSize
             && (forall j | 0 <= j < offset :: dates[j] == Some(AtDay(prev, LengthOfMonth(prev) - offset + 1 + j)))
             && (forall j | offset <= j < offset + n :: dates[j] == Some(AtDay(ym, j - offset + 1)))
             && (forall j | offset + n <= j < GridSize :: dates[j] == Some(AtDay(PlusMonths(ym, 1), j - offset - n + 1)))
    ensures forall i | 0 <= i < GridSize :: dates[i] == Some(GridCells(ym, firstDayOfWeek)[i])
  {
    GridSegments(ym, firstDayOfWeek);
  }

  /**
   * The three runs of the grid: the last `offset` days of the previous month
   * in ascending order (none when the offset is 0), then days 1..n of the
   * month, then days 1..(42 - offset - n) of the next month, at least 5 of them.
   */
  lemma GridSegments(ym: YearMonth, firstDayOfWeek: int)
    requires ValidYearMonth(ym) && ValidFirstDayOfWeek(firstDayOfWeek)
    ensures var cells := GridCells(ym, firstDayOfWeek);
            var offset := StartOffset(AtDay(ym, 1), firstDayOfWeek);
            var prev := PlusMonths(ym, -1);
            var next := PlusMonths(ym, 1);
            var n := LengthOfMonth(ym);
            && 5 <= GridSize - offset - n <= 14
            && (forall j | 0 <= j < offset :: cells[j] == AtDay(prev, LengthOfMonth(prev) - offset + 1 + j))
            && (forall j | offset <= j < offset + n :: cells[j] == AtDay(ym, j - offset + 1))
            && (forall j | offset + n <= j < GridSize :: cells[j] == AtDay(next, j - offset - n + 1))
  {
    var cells := GridCells(ym, firstDayOfWeek);
    var offset := StartOffset(AtDay(ym, 1), firstDayOfWeek);
    var prev := PlusMonths(ym, -1);
    var next := PlusMonths(ym, 1);
    var n := LengthOfMonth(ym);
    var start := GridStart(ym, firstDayOfWeek);
    MonthCountInjective(PlusMonths(prev, 1), ym);
    NextMonthStart(prev);
    NextMonthStart(ym);
    forall j | 0 <= j < offset
      ensures cells[j] == AtDay(prev, LengthOfMonth(prev) - offset + 1 + j)
    {
      EpochDayInjective(cells[j], AtDay(prev, LengthOfMonth(prev) - offset + 1 + j));
    }
    forall j | offset <= j < offset + n
      ensures cells[j] == AtDay(ym, j - offset + 1)
    {
      EpochDayInjective(cells[j], AtDay(ym, j - offset + 1));
    }
    forall j | offset + n <= j < GridSize
      ensures cells[j] == AtDay(next, j - offset - n + 1)
    {
      EpochDayInjective(cells[j], AtDay(next, j - offset - n + 1));
    }
  }

  /** The first cell falls on the requested first day of week. */
  lemma GridAlignment(ym: YearMonth, firstDayOfWeek: int)
    requires ValidYearMonth(ym) && ValidFirstDayOfWeek(firstDayOfWeek)
    ensures DayOfWeek(GridCells(ym, firstDayOfWeek)[0]) == firstDayOfWeek
  {
  }

  /**
   * June 2024 starts on a Saturday: with Monday first its grid opens on
   * Monday 2024-05-27 and ends on 2024-07-07; with Sunday first it opens on
   * Sunday 2024-05-26.
   */
  lemma GridOfJune2024()
    ensures GridCells(YearMonth(2024, 6), 1)[0] == Date(2024, 5, 27)
    ensures GridCells(YearMonth(2024, 6), 1)[GridSize - 1] == Date(2024, 7, 7)
    ensures GridCells(YearMonth(2024, 6), 7)[0] == Date(2024, 5, 26)
  {
    assert LeapYearsBefore(2024) == 490 && LeapYearsBefore(1970) == 477;
    assert DaysBeforeYear(2024) == 19723;
    assert EpochDay(Date(2024, 6, 1)) == 19875;
    assert DayOfWeek(Date(2024, 6, 1)) == 6;
    assert GridStart(YearMonth(2024, 6), 1) == 19870;
    assert GridStart(YearMonth(2024, 6), 7) == 19869;
    EpochDayInjective(GridCells(YearMonth(2024, 6), 1)[0], Date(2024, 5, 27));
    EpochDayInjective(GridCells(YearMonth(2024, 6), 1)[GridSize - 1], Date(2024, 7, 7));
    EpochDayInjective(GridCells(YearMonth(2024, 6), 7)[0], Date(2024, 5, 26));
  }

  /** Each cell is the day after the one before it, so the grid holds no duplicate date. */
  lemma GridContiguous(ym: YearMonth, firstDayOfWeek: int)
    requires ValidYearMonth(ym) && ValidFirstDayOfWeek(firstDayOfWeek)
    ensures var cells := GridCells(ym, firstDayOfWeek);
            && (forall i | 0 <= i < GridSize - 1 :: cells[i + 1] == NextDay(cells[i]))
            && (forall i, j | 0 <= i < j < GridSize :: Before(cells[i], cells[j]))
  {
    var cells := GridCells(ym, firstDayOfWeek);
    forall i | 0 <= i < GridSize - 1
      ensures cells[i + 1] == NextDay(cells[i])
    {
      EpochDayInjective(cells[i + 1], NextDay(cells[i]));
    }
    forall i, j | 0 <= i < j < GridSize
      ensures Before(cells[i], cells[j])
    {
      EpochDayOrder(cells[i], cells[j]);
    }
  }

  /** `isInMonth`: the date's month and year are the year-month's. */
  function IsInMonth(date: Date, ym: YearMonth): (r: bool)
    ensures r <==> MonthOf(date) == ym
  {
    date.month == ym.month && date.year == ym.year
  }

  /** Exactly the cells from `offset` to `offset + n - 1` lie in the month. */
  lemma GridInMonth(ym: YearMonth, firstDayOfWeek: int, i: int)
    requires ValidYearMonth(ym) && ValidFirstDayOfWeek(firstDayOfWeek) && 0 <= i < GridSize
    ensures var offset := StartOffset(AtDay(ym, 1), firstDayOfWeek);
            IsInMonth(GridCells(ym, firstDayOfWeek)[i], ym) <==> offset <= i < offset + LengthOfMonth(ym)
  {
    InMonthIffEpochDayInRange(GridCells(ym, firstDayOfWeek)[i], ym);
  }

  /** How many of `dates` lie in `ym`. */
  function CountInMonth(dates: seq<Date>, ym: YearMonth): (n: nat)
    ensures n <= |dates|
  {
    if dates == [] then 0
    else CountInMonth(dates[..|dates| - 1], ym) + (if IsInMonth(dates[|dates| - 1], ym) then 1 else 0)
  }

  /** Exactly as many cells as the month has days satisfy `isInMonth`. */
  lemma GridMonthCount(ym: YearMonth, firstDayOfWeek: int)
    requires ValidYearMonth(ym) && ValidFirstDayOfWeek(firstDayOfWeek)
    ensures CountInMonth(GridCells(ym, firstDayOfWeek), ym) == LengthOfMonth(ym)
  {
    var cells := GridCells(ym, firstDayOfWeek);
    var offset := StartOffset(AtDay(ym, 1), firstDayOfWeek);
    forall i | 0 <= i < |cells|
      ensures IsInMonth(cells[i], ym) <==> offset <= i < offset + LengthOfMonth(ym)
    {
      GridInMonth(ym, firstDayOfWeek, i);
    }
    CountOfRun(cells, ym, offset, LengthOfMonth(ym));
  }

  /** When exactly the entries `lo .. lo + n - 1` lie in the month, `n` of them do. */
  lemma {:induction false} CountOfRun(dates: seq<Date>, ym: YearMonth, lo: int, n: int)
    requires 0 <= lo && 0 <= n && lo + n <= |dates|
    requires forall i | 0 <= i < |dates| :: IsInMonth(dates[i], ym) <==> lo <= i < lo + n
    ensures CountInMonth(dates, ym) == n
  {
    if dates != [] {
      var init := dates[..|dates| - 1];
      if n == 0 {
        CountOfRun(init, ym, 0, 0);
      } else if lo + n <= |init| {
        CountOfRun(init, ym, lo, n);
      } else {
        CountOfRun(init, ym, lo, n - 1);
      }
    }
  }

  /** `getDaysOfWeek`: the seven weekdays starting at the first day of week. */
  function DaysOfWeek(firstDayOfWeek: int): (days: seq<int>)
    requires ValidFirstDayOfWeek(firstDayOfWeek)
    ensures |days| == DaysPerWeek && days[0] == firstDayOfWeek
    ensures forall k | 0 <= k < DaysPerWeek :: 1 <= days[k] <= DaysPerWeek
    ensures forall k | 0 <= k < DaysPerWeek - 1 :: days[k + 1] == days[k] % DaysPerWeek + 1
  {
    seq(DaysPerWeek, offset => ((firstDayOfWeek - 1 + offset) % DaysPerWeek) + 1)
  }

  /** The header names every weekday exactly once. */
  lemma DaysOfWeekDistinct(firstDayOfWeek: int)
    requires ValidFirstDayOfWeek(firstDayOfWeek)
    ensures forall i, j | 0 <= i < j < DaysPerWeek :: DaysOfWeek(firstDayOfWeek)[i] != DaysOfWeek(firstDayOfWeek)[j]
    ensures forall w | 1 <= w <= DaysPerWeek :: w in DaysOfWeek(firstDayOfWeek)
  {
    var days := DaysOfWeek(firstDayOfWeek);
    var f := firstDayOfWeek;
    assert forall k | 0 <= k < DaysPerWeek :: days[k] == if f + k <= DaysPerWeek then f + k else f + k - DaysPerWeek;
    forall w | 1 <= w <= DaysPerWeek
      ensures w in days
    {
      var k := if w >= f then w - f else w - f + DaysPerWeek;
      assert days[k] == w;
    }
  }

  /**
   * `getStartOfDayMillis` as written: it returns `toEpochDay()`, a count of
   * days, although it is documented as start-of-day milliseconds.
   */
  function StartOfDayMillisAsWritten(date: Date): (r: int)
    requires ValidDate(date)
    ensures DateOfEpochDay(r) == date
  {
    EpochDayRoundTrip(date);
    EpochDay(date)
  }

  const MillisPerDay: int := 86_400_000

  /** Start-of-day milliseconds (in UTC) as documented: the epoch day times the milliseconds of a day. */
  function StartOfDayMillis(date: Date): (r: int)
    requires ValidDate(date)
    ensures r % MillisPerDay == 0 && DateOfEpochDay(r / MillisPerDay) == date
  {
    EpochDayRoundTrip(date);
    var n := EpochDay(date);
    DayMillis(n);
    n * MillisPerDay
  }

  lemma DayMillis(n: int)
    ensures (n * MillisPerDay) % MillisPerDay == 0 && (n * MillisPerDay) / MillisPerDay == n
  {
  }

  /** From 1970-01-02 on, the value returned as written is not the start-of-day milliseconds. */
  lemma StartOfDayMillisMismatch()
    ensures StartOfDayMillisAsWritten(Date(1970, 1, 2)) == 1
    ensures StartOfDayMillis(Date(1970, 1, 2)) == MillisPerDay
  {
  }

  /** `isToday`, with today passed in instead of read from the wall clock. */
  function IsToday(date: Date, today: Date): bool {
    date == today
  }
}
