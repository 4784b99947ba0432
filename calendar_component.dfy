/**
 * The decisions inside `CalendarComponent`: the grid split into weeks, the
 * flags of a day cell and how they choose its colours and its event dot,
 * which arrow of the month header calls which handler, and the swipe that
 * turns the month when a drag ends.
 */
module CalendarComponent {
  import opened Wrappers
  import opened Chrono
  import opened CalendarUtils

  /** The two month handlers a control can call. */
  datatype MonthAction = PreviousMonth | NextMonth

  /** The chevron an arrow button shows. */
  datatype Chevron = ChevronLeft | ChevronRight

  /** An arrow button of `MonthHeader`: the handler its click calls and the chevron it shows. */
  datatype ArrowButton = ArrowButton(onClick: MonthAction, icon: Chevron)

  /** The colours the day cells use, as ARGB values. */
  const White: int := 0xFFFFFFFF
  const Accent: int := 0xFF6A5AE0
  const Ink: int := 0xFF1E1E1E
  const Faded: int := 0xFFD0D0D0
  const Transparent: int := 0x00000000

  datatype FontWeight = Normal | Bold

  /** The values `CalendarGrid` hands to `CalendarDay` for one date. */
  datatype DayCell = DayCell(date: Date, isSelected: bool, isCurrentMonth: bool, hasEvents: bool, isToday: bool)

  /** All the elements of the chunks, in order. */
  function Flatten<T>(chunks: seq<seq<T>>): seq<T> {
    if chunks == [] then [] else chunks[0] + Flatten(chunks[1..])
  }

  /**
   * Kotlin's `chunked(size)`: consecutive pieces of `size` elements, the last
   * one possibly shorter, which together are the list again.
   */
  function Chunked<T>(xs: seq<T>, size: int): (chunks: seq<seq<T>>)
    requires size > 0
    ensures Flatten(chunks) == xs
    ensures forall i | 0 <= i < |chunks| :: 0 < |chunks[i]| <= size
    ensures forall i | 0 <= i < |chunks| - 1 :: |chunks[i]| == size
    decreases |xs|
  {
    if |xs| == 0 then []
    else if |xs| <= size then
      assert Flatten([xs]) == xs + Flatten([]);
      [xs]
    else
      var rest := Chunked(xs[size..], size);
      assert ([xs[..size]] + rest)[1..] == rest;
      assert xs == xs[..size] + xs[size..];
      [xs[..size]] + rest
  }

  /** A list of `7 * k` dates splits into `k` weeks of 7, week `w` holding entries `7w` to `7w + 6`. */
  lemma WeeksOf<T>(xs: seq<T>, k: nat)
    requires |xs| == DaysPerWeek * k
    ensures |Chunked(xs, DaysPerWeek)| == k
    ensures forall w | 0 <= w < k :: |Chunked(xs, DaysPerWeek)[w]| == DaysPerWeek
    ensures forall w, j | 0 <= w < k && 0 <= j < DaysPerWeek :: Chunked(xs, DaysPerWeek)[w][j] == xs[DaysPerWeek * w + j]
  {
    var weeks := Chunked(xs, DaysPerWeek);
    WeekCount(xs, k);
    forall w | 0 <= w < k
      ensures |weeks[w]| == DaysPerWeek
    {
      WeekEntry(xs, w, 0);
    }
    forall w, j | 0 <= w < k && 0 <= j < DaysPerWeek
      ensures weeks[w][j] == xs[DaysPerWeek * w + j]
    {
      WeekEntry(xs, w, j);
    }
  }

  /** `7 * k` entries make `k` weeks. */
  lemma {:induction false} WeekCount<T>(xs: seq<T>, k: nat)
    requires |xs| == DaysPerWeek * k
    ensures |Chunked(xs, DaysPerWeek)| == k
  {
    if k > 1 {
      WeekCount(xs[DaysPerWeek..], k - 1);
    }
  }

  /** Week `w` of a list with at least `w + 1` full weeks holds entries `7w` to `7w + 6`. */
  lemma {:induction false} WeekEntry<T>(xs: seq<T>, w: nat, j: int)
    requires 0 <= j < DaysPerWeek && DaysPerWeek * w + DaysPerWeek <= |xs|
    ensures var weeks := Chunked(xs, DaysPerWeek);
            w < |weeks| && |weeks[w]| == DaysPerWeek && weeks[w][j] == xs[DaysPerWeek * w + j]
  {
    if w > 0 {
      WeekEntry(xs[DaysPerWeek..], w - 1, j);
    }
  }

  /** The flags `CalendarGrid` computes for one date; `today` stands for the wall clock. */
  function Cell(date: Date, selectedDate: Date, currentMonth: YearMonth, datesWithEvents: set<Date>, today: Date): (cell: DayCell)
    ensures cell.date == date
    ensures cell.isSelected <==> date == selectedDate
    ensures cell.isCurrentMonth <==> MonthOf(date) == currentMonth
    ensures cell.hasEvents <==> date in datesWithEvents
    ensures cell.isToday <==> date == today
  {
    DayCell(
      date := date,
      isSelected := date == selectedDate,
      isCurrentMonth := IsInMonth(date, currentMonth),
      hasEvents := date in datesWithEvents,
      isToday := IsToday(date, today))
  }

  /** One row of the grid: a cell for every date present, an absent entry drawing nothing. */
  function WeekCells(week: seq<Option<Date>>, selectedDate: Date, currentMonth: YearMonth, datesWithEvents: set<Date>, today: Date): (cells: seq<DayCell>)
    ensures |cells| <= |week|
    ensures (forall j | 0 <= j < |week| :: week[j].Some?) ==>
              |cells| == |week| &&
              forall j | 0 <= j < |week| :: cells[j] == Cell(week[j].value, selectedDate, currentMonth, datesWithEvents, today)
  {
    if week == [] then []
    else
      var rest := WeekCells(week[1..], selectedDate, currentMonth, datesWithEvents, today);
      match week[0]
      case Some(date) => [Cell(date, selectedDate, currentMonth, datesWithEvents, today)] + rest
      case None => rest
  }

  /** `CalendarGrid`: the month's dates in rows of 7, each present date drawn as a cell. */
  function Grid(dates: seq<Option<Date>>, selectedDate: Date, currentMonth: YearMonth, datesWithEvents: set<Date>, today: Date): seq<seq<DayCell>> {
    var weeks := Chunked(dates, DaysPerWeek);
    seq(|weeks|, w requires 0 <= w < |weeks| => WeekCells(weeks[w], selectedDate, currentMonth, datesWithEvents, today))
  }

  /**
   * Over the month grid the calendar draws 6 full weeks, and the cell in week
   * `w` and column `j` is grid date `7w + j`.
   */
  lemma GridWeeks(ym: YearMonth, firstDayOfWeek: int, selectedDate: Date, datesWithEvents: set<Date>, today: Date)
    requires ValidYearMonth(ym) && ValidFirstDayOfWeek(firstDayOfWeek)
    ensures var cells := GridCells(ym, firstDayOfWeek);
            var grid := Grid(seq(GridSize, i requires 0 <= i < GridSize => Some(cells[i])), selectedDate, ym, datesWithEvents, today);
            |grid| == 6 &&
            forall w, j | 0 <= w < 6 && 0 <= j < DaysPerWeek ::
              |grid[w]| == DaysPerWeek && grid[w][j] == Cell(cells[DaysPerWeek * w + j], selectedDate, ym, datesWithEvents, today)
  {
    var cells := GridCells(ym, firstDayOfWeek);
    var dates := seq(GridSize, i requires 0 <= i < GridSize => Some(cells[i]));
    WeeksOf(dates, 6);
  }

  /** No two cells of the month grid share a date, so at most one of them is selected. */
  lemma SelectedAtMostOnce(ym: YearMonth, firstDayOfWeek: int, selectedDate: Date, datesWithEvents: set<Date>, today: Date, i: int, j: int)
    requires ValidYearMonth(ym) && ValidFirstDayOfWeek(firstDayOfWeek)
    requires 0 <= i < GridSize && 0 <= j < GridSize
    requires Cell(GridCells(ym, firstDayOfWeek)[i], selectedDate, ym, datesWithEvents, today).isSelected
    requires Cell(GridCells(ym, firstDayOfWeek)[j], selectedDate, ym, datesWithEvents, today).isSelected
    ensures i == j
  {
  }

  /** The day number's colour: white when selected, then the accent for today in the month, then ink in the month, else faded. */
  function TextColor(cell: DayCell): (color: int)
    ensures cell.isSelected ==> color == White
    ensures !cell.isSelected && !cell.isCurrentMonth ==> color == Faded
    ensures color == Accent <==> !cell.isSelected && cell.isToday && cell.isCurrentMonth
    ensures color == Ink <==> !cell.isSelected && !cell.isToday && cell.isCurrentMonth
  {
    if cell.isSelected then White
    else if cell.isToday && cell.isCurrentMonth then Accent
    else if cell.isCurrentMonth then Ink
    else Faded
  }

  /** The day number is bold for the selected day and for today, even outside the month. */
  function Weight(cell: DayCell): (weight: FontWeight)
    ensures weight == Bold <==> cell.isSelected || cell.isToday
  {
    if cell.isSelected then Bold
    else if cell.isToday then Bold
    else Normal
  }

  /** The cell's circle: the accent behind the selected day, nothing behind the others. */
  function Background(cell: DayCell): (color: int)
    ensures color == Accent <==> cell.isSelected
    ensures !cell.isSelected ==> color == Transparent
  {
    if cell.isSelected then Accent else Transparent
  }

  /** The dots under the day number: `minOf(3, 1)` of them for a day of the month with events, none otherwise. */
  function DotCount(cell: DayCell): (n: int)
    ensures 0 <= n <= 1
    ensures n == 1 <==> cell.hasEvents && cell.isCurrentMonth
  {
    if cell.hasEvents && cell.isCurrentMonth then (if 3 < 1 then 3 else 1) else 0
  }

  /** A dot is white on the selected day's accent circle and the accent elsewhere, so it always differs from its background. */
  function DotColor(cell: DayCell): (color: int)
    ensures color == (if cell.isSelected then White else Accent)
    ensures color != Background(cell)
  {
    if cell.isSelected then White else Accent
  }

  /**
   * `MonthHeader`: the first and the second arrow button of the header row,
   * in code order (the row's start and end); a locale whose language is "ar"
   * swaps their handlers and icons.
   */
  function ArrowButtons(language: string): (buttons: (ArrowButton, ArrowButton))
    ensures buttons.0.onClick != buttons.1.onClick
    ensures buttons.0.onClick == NextMonth <==> language == "ar"
    ensures forall b | b in [buttons.0, buttons.1] :: b.icon == ChevronLeft <==> b.onClick == PreviousMonth
  {
    var isRtl := language == "ar";
    (ArrowButton(if isRtl then NextMonth else PreviousMonth, if isRtl then ChevronRight else ChevronLeft),
     ArrowButton(if isRtl then PreviousMonth else NextMonth, if isRtl then ChevronLeft else ChevronRight))
  }

  /** The handler a drag ending at `offsetX` calls: past 100 to the right the previous month, past 100 to the left the next. */
  function SwipeAction(offsetX: int): (action: Option<MonthAction>)
    ensures action == Some(PreviousMonth) <==> offsetX > 100
    ensures action == Some(NextMonth) <==> offsetX < -100
  {
    if offsetX > 100 then Some(PreviousMonth)
    else if offsetX < -100 then Some(NextMonth)
    else None
  }

  /** The same drag in the other direction calls the other handler, or neither. */
  lemma SwipeSymmetric(offsetX: int)
    ensures SwipeAction(-offsetX) == match SwipeAction(offsetX)
                                     case Some(PreviousMonth) => Some(NextMonth)
                                     case Some(NextMonth) => Some(PreviousMonth)
                                     case None => None
  {
  }

  /** The horizontal drag state of the calendar. */
  class SwipeDetector {
    var offsetX: int

    constructor ()
      ensures offsetX == 0
    {
      offsetX := 0;
    }

    /** `onHorizontalDrag`: the drag amount accumulates. */
    method OnHorizontalDrag(dragAmount: int)
      modifies this
      ensures offsetX == old(offsetX) + dragAmount
    {
      offsetX := offsetX + dragAmount;
    }

    /** `onDragEnd`: the handler the accumulated offset selects, if any; the offset returns to 0 either way. */
    method OnDragEnd() returns (action: Option<MonthAction>)
      modifies this
      ensures action == SwipeAction(old(offsetX))
      ensures offsetX == 0
    {
      if offsetX > 100 {
        action := Some(PreviousMonth);
      } else if offsetX < -100 {
        action := Some(NextMonth);
      } else {
        action := None;
      }
      offsetX := 0;
    }
  }
}
