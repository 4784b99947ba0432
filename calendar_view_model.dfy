/**
 * `CalendarViewModel`: the selected date and the displayed month, the
 * month navigation, and the `CalendarUiState` derived from both and from the
 * store. The flows are collapsed into one synchronous derivation from the
 * current fields and the current table, which is what the latest emission
 * of `combine` over `flatMapLatest` amounts to once it settles.
 */
module CalendarViewModel {
  import opened Wrappers
  import opened Chrono
  import opened Domain
  import opened Entity
  import opened EventDao
  import opened CalendarUtils
  import opened EventRepository

  /** `CalendarUiState`; `isLoading` and `error` keep their defaults, which nothing overwrites. */
  datatype CalendarUiState = CalendarUiState(
    selectedDate: Date,
    currentMonth: YearMonth,
    eventsForSelectedDate: seq<Event> := [],
    datesWithEvents: set<Date> := {},
    isLoading: bool := false,
    error: Option<string> := None)

  /** The `combine` lambda: echoes both fields, lists the events and turns the dates into a set. */
  function Combine(selectedDate: Date, currentMonth: YearMonth, events: seq<Event>, dates: seq<Date>): (s: CalendarUiState)
    ensures s.selectedDate == selectedDate && s.currentMonth == currentMonth
    ensures s.eventsForSelectedDate == events
    ensures forall d :: d in s.datesWithEvents <==> d in dates
    ensures !s.isLoading && s.error == None
  {
    CalendarUiState(
      selectedDate := selectedDate,
      currentMonth := currentMonth,
      eventsForSelectedDate := events,
      datesWithEvents := set d | d in dates)
  }

  /** Some row is stored for the start of day of `d`. */
  ghost predicate HasEventOn(table: map<int, EventEntity>, d: Date) {
    ValidDate(d) && exists id | id in table :: table[id].date == StartOfDayMillis(d)
  }

  /** The months `onNextMonth` and `onPreviousMonth` move to undo each other. */
  lemma NextPreviousInverse(ym: YearMonth)
    requires ValidYearMonth(ym)
    ensures PlusMonths(PlusMonths(ym, 1), -1) == ym
    ensures PlusMonths(PlusMonths(ym, -1), 1) == ym
  {
    MonthCountInjective(PlusMonths(PlusMonths(ym, 1), -1), ym);
    MonthCountInjective(PlusMonths(PlusMonths(ym, -1), 1), ym);
  }

  /** The month after December is January of the next year; otherwise the year stays. */
  lemma NextMonthRollsOver(ym: YearMonth)
    requires ValidYearMonth(ym)
    ensures PlusMonths(ym, 1) == if ym.month == 12 then YearMonth(ym.year + 1, 1) else YearMonth(ym.year, ym.month + 1)
  {
    var next := if ym.month == 12 then YearMonth(ym.year + 1, 1) else YearMonth(ym.year, ym.month + 1);
    MonthCountInjective(PlusMonths(ym, 1), next);
  }

  /** The converted rows stored for the start of day of `date`. */
  ghost function EventsOn(table: map<int, EventEntity>, date: Date): set<Event>
    requires ValidDate(date)
  {
    set id | id in table && table[id].date == StartOfDayMillis(date) && ToDomainModel(table[id]).Some? ::
      ToDomainModel(table[id]).value
  }

  /** Start times in the order the start-time query sorts them by. */
  predicate ByStart(events: seq<Event>) {
    forall i, j | 0 <= i < j < |events| ::
      ValidTime(events[i].startTime) && ValidTime(events[j].startTime) &&
      TimeToMillis(events[i].startTime) <= TimeToMillis(events[j].startTime)
  }

  /** No event occurs twice in the list. */
  predicate NoDuplicates(events: seq<Event>) {
    forall i, j | 0 <= i < j < |events| :: events[i] != events[j]
  }

  /** Every row a date query returns is a stored row on that date. */
  lemma RowsOnDate(table: map<int, EventEntity>, date: Date, rows: seq<EventEntity>)
    requires StoredRows(table) && ValidDate(date)
    requires multiset(rows) == multiset(Selected(table, DateIs(StartOfDayMillis(date))))
    ensures forall i | 0 <= i < |rows| ::
              StoredTime(rows[i].startTime) && StoredTime(rows[i].endTime) &&
              rows[i].date == StartOfDayMillis(date) && rows[i] in table.Values
  {
    forall i | 0 <= i < |rows|
      ensures rows[i] in Selected(table, DateIs(StartOfDayMillis(date)))
    {
      assert rows[i] in multiset(rows);
    }
  }

  /**
   * Every row the date query returns converts, and the converted list holds
   * exactly the events stored on the date, each once, in start-time order.
   */
  lemma EventsOnDate(table: map<int, EventEntity>, date: Date, rows: seq<EventEntity>)
    requires StoredRows(table) && ValidDate(date)
    requires Sorted(ByStartTime, rows)
    requires multiset(rows) == multiset(Selected(table, DateIs(StartOfDayMillis(date))))
    ensures MapToDomain(rows).Some?
    ensures forall e :: e in MapToDomain(rows).value <==> e in EventsOn(table, date)
    ensures NoDuplicates(MapToDomain(rows).value)
    ensures ByStart(MapToDomain(rows).value)
  {
    RowsOnDate(table, date, rows);
    EventsOnDateMembers(table, date, rows);
    EventsOnDateOrder(rows);
  }

  /** The converted rows of a date query are the events stored on that date, each once. */
  lemma EventsOnDateMembers(table: map<int, EventEntity>, date: Date, rows: seq<EventEntity>)
    requires ValidDate(date)
    requires multiset(rows) == multiset(Selected(table, DateIs(StartOfDayMillis(date))))
    requires forall i | 0 <= i < |rows| :: StoredTime(rows[i].startTime) && StoredTime(rows[i].endTime)
    ensures MapToDomain(rows).Some?
    ensures forall e :: e in MapToDomain(rows).value <==> e in EventsOn(table, date)
    ensures NoDuplicates(MapToDomain(rows).value)
  {
    EventsOnDateDistinct(table, date, rows);
    forall e | e in MapToDomain(rows).value
      ensures e in EventsOn(table, date)
    {
      ConvertedRowStored(table, date, rows, e);
    }
    forall e | e in EventsOn(table, date)
      ensures e in MapToDomain(rows).value
    {
      StoredEventConverted(table, date, rows, e);
    }
  }

  /**
   * The query returns each selected row once, and conversion tells stored
   * rows apart, so the converted list repeats no event.
   */
  lemma EventsOnDateDistinct(table: map<int, EventEntity>, date: Date, rows: seq<EventEntity>)
    requires ValidDate(date)
    requires multiset(rows) == multiset(Selected(table, DateIs(StartOfDayMillis(date))))
    requires forall i | 0 <= i < |rows| :: StoredTime(rows[i].startTime) && StoredTime(rows[i].endTime)
    ensures MapToDomain(rows).Some? && NoDuplicates(MapToDomain(rows).value)
  {
    NoRepeats(rows, Selected(table, DateIs(StartOfDayMillis(date))));
    forall i | 0 <= i < |rows|
      ensures rows[i].date == StartOfDayMillis(date)
    {
      assert rows[i] in multiset(rows);
    }
    forall i | 0 <= i < |rows|
      ensures ToDomainModel(rows[i]).Some? && ToEntity(ToDomainModel(rows[i]).value) == rows[i]
    {
      EntityRoundTrip(rows[i]);
    }
  }

  /** Every event converted from the rows of `date` is among the events stored on `date`. */
  lemma ConvertedRowStored(table: map<int, EventEntity>, date: Date, rows: seq<EventEntity>, e: Event)
    requires ValidDate(date)
    requires multiset(rows) == multiset(Selected(table, DateIs(StartOfDayMillis(date))))
    requires MapToDomain(rows).Some? && e in MapToDomain(rows).value
    ensures e in EventsOn(table, date)
  {
    var events := MapToDomain(rows).value;
    var i :| 0 <= i < |events| && events[i] == e;
    assert rows[i] in multiset(rows);
  }

  /** Every event stored on `date` is among those converted from the rows of `date`. */
  lemma StoredEventConverted(table: map<int, EventEntity>, date: Date, rows: seq<EventEntity>, e: Event)
    requires ValidDate(date)
    requires multiset(rows) == multiset(Selected(table, DateIs(StartOfDayMillis(date))))
    requires MapToDomain(rows).Some? && e in EventsOn(table, date)
    ensures e in MapToDomain(rows).value
  {
    var id :| id in table && table[id].date == StartOfDayMillis(date) && ToDomainModel(table[id]) == Some(e);
    assert table[id] in multiset(rows);
    var i :| 0 <= i < |rows| && rows[i] == table[id];
    assert MapToDomain(rows).value[i] == e;
  }

  /** Converting rows sorted by stored start time keeps them sorted by start time. */
  lemma EventsOnDateOrder(rows: seq<EventEntity>)
    requires Sorted(ByStartTime, rows)
    requires forall i | 0 <= i < |rows| :: StoredTime(rows[i].startTime) && StoredTime(rows[i].endTime)
    ensures MapToDomain(rows).Some? && ByStart(MapToDomain(rows).value)
  {
    var events := MapToDomain(rows).value;
    forall i, j | 0 <= i < j < |events|
      ensures TimeToMillis(events[i].startTime) <= TimeToMillis(events[j].startTime)
    {
      MillisRoundTrip(rows[i].startTime);
      MillisRoundTrip(rows[j].startTime);
    }
  }

  /**
   * The dates the month query returns are exactly the days of the month on
   * which some row is stored.
   */
  lemma MonthDatesWithEvents(table: map<int, EventEntity>, ym: YearMonth, millis: seq<int>)
    requires StoredRows(table) && ValidYearMonth(ym)
    requires multiset(millis) ==
             multiset(DatesAmong(table, table.Keys, StartOfDayMillis(AtDay(ym, 1)), StartOfDayMillis(AtEndOfMonth(ym))))
    ensures forall d :: d in MapToDates(millis) <==> MonthOf(d) == ym && HasEventOn(table, d)
  {
    forall d | d in MapToDates(millis)
      ensures MonthOf(d) == ym && HasEventOn(table, d)
    {
      ListedDateHasEvent(table, ym, millis, d);
    }
    forall d | MonthOf(d) == ym && HasEventOn(table, d)
      ensures d in MapToDates(millis)
    {
      DateWithEventListed(table, ym, millis, d);
    }
  }

  /** A date the month query lists is a day of the month with a stored row. */
  lemma ListedDateHasEvent(table: map<int, EventEntity>, ym: YearMonth, millis: seq<int>, d: Date)
    requires StoredRows(table) && ValidYearMonth(ym)
    requires multiset(millis) ==
             multiset(DatesAmong(table, table.Keys, StartOfDayMillis(AtDay(ym, 1)), StartOfDayMillis(AtEndOfMonth(ym))))
    requires d in MapToDates(millis)
    ensures MonthOf(d) == ym && HasEventOn(table, d)
  {
    var first, last := AtDay(ym, 1), AtEndOfMonth(ym);
    var dates := MapToDates(millis);
    var i :| 0 <= i < |dates| && dates[i] == d;
    assert millis[i] in multiset(millis);
    var id :| id in table && StartOfDayMillis(first) <= table[id].date <= StartOfDayMillis(last) && table[id].date == millis[i];
    DayStartOf(d, millis[i]);
    StartOfDayOrder(first, d);
    StartOfDayOrder(d, last);
    InMonthIffEpochDayInRange(d, ym);
  }

  /** A day of the month with a stored row is listed by the month query. */
  lemma DateWithEventListed(table: map<int, EventEntity>, ym: YearMonth, millis: seq<int>, d: Date)
    requires ValidYearMonth(ym)
    requires multiset(millis) ==
             multiset(DatesAmong(table, table.Keys, StartOfDayMillis(AtDay(ym, 1)), StartOfDayMillis(AtEndOfMonth(ym))))
    requires MonthOf(d) == ym && HasEventOn(table, d)
    ensures d in MapToDates(millis)
  {
    var first, last := AtDay(ym, 1), AtEndOfMonth(ym);
    var id :| id in table && table[id].date == StartOfDayMillis(d);
    InMonthIffEpochDayInRange(d, ym);
    StartOfDayOrder(first, d);
    StartOfDayOrder(d, last);
    assert StartOfDayMillis(d) in multiset(millis);
    var i :| 0 <= i < |millis| && millis[i] == StartOfDayMillis(d);
    DateRoundTrip(d);
    assert MapToDates(millis)[i] == d;
  }

  /** A start-of-day value read back as a date is that date's start of day. */
  lemma DayStartOf(d: Date, ms: int)
    requires ms % MillisPerDay == 0 && d == MillisToDate(ms)
    ensures StartOfDayMillis(d) == ms
  {
    var s := StartOfDayMillis(d);
    assert s % MillisPerDay == 0;
    assert (ms - s) % MillisPerDay == 0 && 0 <= ms - s < MillisPerDay;
  }

  /** Start-of-day values order valid dates as their epoch days do. */
  lemma StartOfDayOrder(a: Date, b: Date)
    requires ValidDate(a) && ValidDate(b)
    ensures StartOfDayMillis(a) <= StartOfDayMillis(b) <==> EpochDay(a) <= EpochDay(b)
  {
  }

  /** The view model over one repository. */
  class CalendarViewModel {
    const repository: EventRepositoryImpl
    var selectedDate: Date
    var currentMonth: YearMonth

    /** Both fields hold real dates and months, and the table holds only rows the repository wrote. */
    ghost predicate Valid()
      reads this, repository, repository.dao
    {
      ValidDate(selectedDate) && ValidYearMonth(currentMonth) &&
      repository.dao.Valid() && StoredRows(repository.dao.rows)
    }

    /** Starts on today and on the month containing today; `today` stands for the wall clock. */
    constructor (repository: EventRepositoryImpl, today: Date)
      requires ValidDate(today)
      requires repository.dao.Valid() && StoredRows(repository.dao.rows)
      ensures Valid()
      ensures this.repository == repository
      ensures selectedDate == today && currentMonth == MonthOf(today)
    {
      this.repository := repository;
      selectedDate := today;
      currentMonth := MonthOf(today);
    }

    /** `onDateSelected`: only the selected date changes. */
    method OnDateSelected(date: Date)
      requires Valid() && ValidDate(date)
      modifies this
      ensures Valid()
      ensures selectedDate == date && currentMonth == old(currentMonth)
    {
      selectedDate := date;
    }

    /** `onMonthChanged`: only the displayed month changes. */
    method OnMonthChanged(yearMonth: YearMonth)
      requires Valid() && ValidYearMonth(yearMonth)
      modifies this
      ensures Valid()
      ensures currentMonth == yearMonth && selectedDate == old(selectedDate)
    {
      currentMonth := yearMonth;
    }

    /** `onNextMonth`: one calendar month later. */
    method OnNextMonth()
      requires Valid()
      modifies this
      ensures Valid()
      ensures currentMonth == PlusMonths(old(currentMonth), 1) && selectedDate == old(selectedDate)
    {
      currentMonth := PlusMonths(currentMonth, 1);
    }

    /** `onPreviousMonth`: one calendar month earlier. */
    method OnPreviousMonth()
      requires Valid()
      modifies this
      ensures Valid()
      ensures currentMonth == PlusMonths(old(currentMonth), -1) && selectedDate == old(selectedDate)
    {
      currentMonth := PlusMonths(currentMonth, -1);
    }

    /** `createEvent`: stores the event; the returned id is discarded and neither field changes. */
    method CreateEvent(event: Event)
      requires Valid() && ValidEvent(event)
      modifies repository.dao
      ensures Valid()
      ensures var id := if event.id == UnsavedId then old(repository.dao.lastId) + 1 else event.id;
              repository.dao.rows == old(repository.dao.rows)[id := ToEntity(event.(id := id))]
    {
      var _ := repository.InsertEvent(event);
    }

    /** `deleteEvent`: removes the event's row; neither field changes. */
    method DeleteEvent(event: Event)
      requires Valid() && ValidEvent(event)
      modifies repository.dao
      ensures Valid()
      ensures repository.dao.rows == old(repository.dao.rows) - {event.id}
    {
      repository.DeleteEvent(event);
    }

    /**
     * `uiState` once settled: the selected date's events from the store,
     * each once, and the days of the displayed month that have events.
     */
    method UiState() returns (state: CalendarUiState)
      requires Valid()
      ensures state.selectedDate == selectedDate && state.currentMonth == currentMonth
      ensures !state.isLoading && state.error == None
      ensures forall e :: e in state.eventsForSelectedDate <==> e in EventsOn(repository.dao.rows, selectedDate)
      ensures NoDuplicates(state.eventsForSelectedDate) && ByStart(state.eventsForSelectedDate)
      ensures forall d :: d in state.datesWithEvents <==> MonthOf(d) == currentMonth && HasEventOn(repository.dao.rows, d)
    {
      var events, rows := repository.GetEventsByDate(selectedDate);
      var start, end := AtDay(currentMonth, 1), AtEndOfMonth(currentMonth);
      var dates, millis := repository.GetDatesWithEvents(start, end);
      EventsOnDate(repository.dao.rows, selectedDate, rows);
      MonthDatesWithEvents(repository.dao.rows, currentMonth, millis);
      state := Combine(selectedDate, currentMonth, events.value, dates);
    }
  }
}
