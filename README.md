# CalendarApp core, modelled in Dafny

This project models the core of CalendarApp, an Android calendar written in
Kotlin:

- the month grid of 42 days and the weekday header (`CalendarUtils`);
- the `Event` record and the stored `EventEntity` row, with their defaults;
- the `events` table behind `EventDao`, with every query and mutation;
- the repository that converts between rows and events (times of day as
  milliseconds since midnight, dates as start-of-day milliseconds);
- the calendar view model: selected date, current month, the derived
  `CalendarUiState`, creating and deleting events;
- the calendar component's rules: cell flags, colours and dots, the
  right-to-left arrow swap and the swipe threshold;
- the create-event sheet: the time picker dialog, the category colours and
  the create button.

The modules, one per file:

| file | module | models |
|---|---|---|
| `wrappers.dfy` | `Wrappers` | `Option`, standing for Kotlin's nullable values and for exceptions thrown by `LocalTime.of` |
| `kotlin_int.dfy` | `KotlinInt` | `Long.toInt()` wrap-around and the JVM's truncating `/` and `%` |
| `chrono.dfy` | `Chrono` | the proleptic Gregorian calendar of `java.time`: `LocalDate`, `YearMonth`, `LocalTime`, epoch days, day of week, `plusMonths` |
| `calendar_utils.dfy` | `CalendarUtils` | `CalendarUtils.kt` |
| `event.dfy` | `Domain` | `Event.kt` |
| `event_entity.dfy` | `Entity` | `EventEntity.kt` |
| `event_dao.dfy` | `EventDao` | `EventDao.kt`, as a class `EventTable` that holds the table as a map from id to row, plus the AUTOINCREMENT counter |
| `event_repository.dfy` | `EventRepository` | `EventRepositoryImpl.kt`: pure conversions, plus a class `EventRepositoryImpl` delegating to the table |
| `calendar_view_model.dfy` | `CalendarViewModel` | `CalendarViewModel.kt`, with the use cases inlined |
| `calendar_component.dfy` | `CalendarComponent` | the rules inside `CalendarComponent.kt` |
| `create_event_sheet.dfy` | `CreateEventSheet` | the state of `CreateEventBottomSheet.kt` and its `TimeField` |

Modelling choices:

- **Time zone.** The system time zone is UTC. A date is stored as
  `epochDay * 86400000`, and milliseconds decode to the date of
  `floor(ms / 86400000)`. The repository's private `LocalDate.toEpochMilli()`
  (app/src/main/java/com/example/calendar/data/repository/EventRepositoryImpl.kt:78-80)
  is modelled by `CalendarUtils.StartOfDayMillis`, which agrees with it in
  UTC; the repository does not call `getStartOfDayMillis`.
- **First day of week.** It is a parameter in 1..7 (Monday = 1), standing in
  for `WeekFields.of(locale)`.
- **Today.** "Today" is a parameter.
- **Query order.** SQLite does not order rows that tie on the sort key. Each
  query is therefore specified by two facts: its result is sorted, and its
  multiset equals the multiset of the rows selected. The scan over the table
  picks keys nondeterministically.
- **Time decoding.** `toLocalTime` divides with Kotlin's truncating `/` and
  `%`. It returns `None` where `LocalTime.of` would throw.
- **Flows.** Flow-valued repository queries return their results directly.
  The DAO's raw answer comes back as a ghost out-parameter, so callers can
  state what the converted list means.
- **UI state.** The view model's `uiState` flow is the method `UiState`, which
  runs both queries against the current store and combines them. This is the
  value the flow settles on once the latest queries have emitted.

## Model

| member | source | states |
|---|---|---|
| `KotlinInt.ToInt` | app/src/main/java/com/example/calendar/domain/model/Event.kt:13 | `toInt()` gives a value in the 32-bit `Int` range that differs from the input by a multiple of 2^32 |
| `KotlinInt.Quot` | app/src/main/java/com/example/calendar/data/repository/EventRepositoryImpl.kt:93-95 | Long division truncates toward zero: the quotient times the divisor lies between 0 and the dividend, within one divisor of it |
| `KotlinInt.Rem` | app/src/main/java/com/example/calendar/data/repository/EventRepositoryImpl.kt:94-95 | `a == Quot(a, b) * b + r`, and the remainder has the dividend's sign and is smaller than the divisor |
| `Chrono.LengthOfMonth` | app/src/main/java/com/example/calendar/util/CalendarUtils.kt:34 | `lengthOfMonth()` is between 28 and 31, and it is 29 exactly for February of a leap year |
| `Chrono.AtDay` | app/src/main/java/com/example/calendar/util/CalendarUtils.kt:36 | `atDay(day)` gives a valid date in that month with that day |
| `Chrono.PlusMonths` | app/src/main/java/com/example/calendar/util/CalendarUtils.kt:33 | `plusMonths(n)` / `minusMonths(n)` move the month count by exactly `n` and give a valid month |
| `Chrono.DayOfWeek` | app/src/main/java/com/example/calendar/util/CalendarUtils.kt:27 | `dayOfWeek.value` is in 1..7 |
| `Chrono.DayOfWeekOfEpochDay` | app/src/main/java/com/example/calendar/util/CalendarUtils.kt:27 | the weekday of an epoch day is in 1..7, and epoch day 0 (1970-01-01) is a Thursday, 4, in the Monday = 1 numbering |
| `Chrono.DayOfWeekAnchors` | app/src/main/java/com/example/calendar/util/CalendarUtils.kt:27 | fixed points of the numbering: 1970-01-01 is 4 (Thursday), 2024-06-03 is 1 (Monday), 2024-06-09 is 7 (Sunday) |
| `Chrono.DayOfWeekOfNextDay` | app/src/main/java/com/example/calendar/util/CalendarUtils.kt:27 | the next day's weekday is the following one, wrapping from 7 to 1 |
| `Chrono.NextDay` | app/src/main/java/com/example/calendar/util/CalendarUtils.kt:35-49 | the next calendar day is valid and has the next epoch day |
| `Chrono.NextMonthStart` | app/src/main/java/com/example/calendar/util/CalendarUtils.kt:40-48 | the first of the next month comes `lengthOfMonth()` days after the first of this month |
| `Chrono.DateOfEpochDay` | app/src/main/java/com/example/calendar/data/repository/EventRepositoryImpl.kt:82-84 | `LocalDate.ofEpochDay` gives the valid date whose epoch day is the argument |
| `Chrono.EpochDayRoundTrip` | app/src/main/java/com/example/calendar/util/CalendarUtils.kt:76-78 | `ofEpochDay(toEpochDay(d)) == d` for every valid date |
| `Chrono.EpochDayOrder` | app/src/main/java/com/example/calendar/data/local/dao/EventDao.kt:13-17 | epoch days order dates exactly as the calendar does, in both directions |
| `Chrono.EpochDayInjective` | app/src/main/java/com/example/calendar/util/CalendarUtils.kt:76-78 | distinct valid dates have distinct epoch days |
| `Chrono.InMonthIffEpochDayInRange` | app/src/main/java/com/example/calendar/presentation/viewmodel/CalendarViewModel.kt:39-43 | a date lies in a month iff its epoch day lies between those of `atDay(1)` and `atEndOfMonth()` |
| `CalendarUtils.StartOffset` | app/src/main/java/com/example/calendar/util/CalendarUtils.kt:27-28 | the offset is in 0..6, and stepping back that many days from the first of the month lands on the first day of week |
| `CalendarUtils.GridCells` | app/src/main/java/com/example/calendar/util/CalendarUtils.kt:18-52 | the reference grid: 42 valid dates with consecutive epoch days from the grid's start |
| `CalendarUtils.DaysInMonth` | app/src/main/java/com/example/calendar/util/CalendarUtils.kt:18-52 | the three loops return exactly 42 entries, none null, equal cell by cell to `GridCells` |
| `CalendarUtils.SegmentsFormGrid` | app/src/main/java/com/example/calendar/util/CalendarUtils.kt:30-49 | the previous-month tail, the month and the next-month head together are the reference grid |
| `CalendarUtils.GridSegments` | app/src/main/java/com/example/calendar/util/CalendarUtils.kt:33-49 | the grid holds the last `offset` days of the previous month in ascending order, then days 1..length of the month, then days 1..(42 − offset − length) of the next month, which is 5 to 14 days |
| `CalendarUtils.GridAlignment` | app/src/main/java/com/example/calendar/util/CalendarUtils.kt:27-37 | the first cell falls on the requested first day of week |
| `CalendarUtils.GridOfJune2024` | app/src/main/java/com/example/calendar/util/CalendarUtils.kt:18-52 | June 2024 with Monday first runs from 2024-05-27 to 2024-07-07; with Sunday first it starts on 2024-05-26 |
| `CalendarUtils.GridContiguous` | app/src/main/java/com/example/calendar/util/CalendarUtils.kt:33-49 | each cell is the day after the previous cell, and the cells strictly increase |
| `CalendarUtils.IsInMonth` | app/src/main/java/com/example/calendar/util/CalendarUtils.kt:69-71 | `isInMonth` holds iff the date's year and month are the year-month's |
| `CalendarUtils.GridInMonth` | app/src/main/java/com/example/calendar/util/CalendarUtils.kt:39-42 | cell `i` is in the month iff `offset <= i < offset + lengthOfMonth` |
| `CalendarUtils.GridMonthCount` | app/src/main/java/com/example/calendar/util/CalendarUtils.kt:39-42 | exactly `lengthOfMonth` cells satisfy `isInMonth` |
| `CalendarUtils.CountOfRun` | app/src/main/java/com/example/calendar/util/CalendarUtils.kt:39-42 | when exactly one run of `n` consecutive entries lies in the month, `n` entries are counted in it |
| `CalendarUtils.DaysOfWeek` | app/src/main/java/com/example/calendar/util/CalendarUtils.kt:57-64 | seven weekdays in 1..7, starting at the first day of week, each the successor of the previous one, wrapping from 7 to 1 |
| `CalendarUtils.DaysOfWeekDistinct` | app/src/main/java/com/example/calendar/util/CalendarUtils.kt:61-63 | the seven header days are pairwise distinct and cover every weekday |
| `CalendarUtils.StartOfDayMillisAsWritten` | app/src/main/java/com/example/calendar/util/CalendarUtils.kt:76-78 | as written it returns the epoch-day count, i.e. the number whose `ofEpochDay` is the date |
| `CalendarUtils.StartOfDayMillis` | app/src/main/java/com/example/calendar/util/CalendarUtils.kt:73-78 | the intended start-of-day milliseconds: a multiple of a day whose day count decodes back to the date |
| `CalendarUtils.StartOfDayMillisMismatch` | app/src/main/java/com/example/calendar/util/CalendarUtils.kt:76-78 | for 1970-01-02 the function as written gives 1 while the start of that day is 86400000 ms |
| `Domain.EventDefaults` | app/src/main/java/com/example/calendar/domain/model/Event.kt:6-14 | an event built without id, description or colour has id 0, description "" and colour `0xFF6A5AE0.toInt()` = −9807136 |
| `Entity.EntityDefaults` | app/src/main/java/com/example/calendar/data/local/entity/EventEntity.kt:7-16 | a row built without id, description or colour has id 0 (generate on insert), description "" and colour −9807136 |
| `EventDao.EventTable.constructor` | app/src/main/java/com/example/calendar/data/local/dao/EventDao.kt:8-33 | a new table is empty, and its id counter is 0 |
| `EventDao.EventTable.GetEventsByDate` | app/src/main/java/com/example/calendar/data/local/dao/EventDao.kt:10-11 | the result is sorted by start time and, as a multiset, is exactly the rows whose date equals the argument |
| `EventDao.EventTable.GetEventsInDateRange` | app/src/main/java/com/example/calendar/data/local/dao/EventDao.kt:13-14 | the result is sorted by date then start time and is exactly the rows with `startDate <= date <= endDate` |
| `EventDao.EventTable.Query` | app/src/main/java/com/example/calendar/data/local/dao/EventDao.kt:10-14 | the scan over the table returns the selected rows, each once, in the requested order |
| `EventDao.EventTable.GetDatesWithEvents` | app/src/main/java/com/example/calendar/data/local/dao/EventDao.kt:16-17 | each date in the inclusive range that some row has appears exactly once, and no other date appears |
| `EventDao.EventTable.GetEventById` | app/src/main/java/com/example/calendar/data/local/dao/EventDao.kt:19-20 | the row stored under that id, or none iff there is no such row |
| `EventDao.EventTable.InsertEvent` | app/src/main/java/com/example/calendar/data/local/dao/EventDao.kt:22-23 | with id 0 a fresh id one past the largest ever used is assigned, otherwise the row replaces any row with its id; other rows are untouched and the id is returned |
| `EventDao.EventTable.UpdateEvent` | app/src/main/java/com/example/calendar/data/local/dao/EventDao.kt:25-26 | the row with the same id is replaced; with no such row the table is unchanged |
| `EventDao.EventTable.DeleteEvent` | app/src/main/java/com/example/calendar/data/local/dao/EventDao.kt:28-29 | only the row with the entity's id is removed |
| `EventDao.EventTable.DeleteAllEvents` | app/src/main/java/com/example/calendar/data/local/dao/EventDao.kt:31-32 | the table is empty afterwards |
| `EventDao.DeleteAbsentIsNoOp` | app/src/main/java/com/example/calendar/data/local/dao/EventDao.kt:28-29 | deleting an id that is not stored leaves the table as it was |
| `EventDao.InsertSortedAdds` | app/src/main/java/com/example/calendar/data/local/dao/EventDao.kt:10-14 | placing a row into the sorted result adds exactly that row |
| `EventDao.InsertSortedKeepsOrder` | app/src/main/java/com/example/calendar/data/local/dao/EventDao.kt:10-14 | placing a row into a sorted result keeps it sorted (`ORDER BY`) |
| `EventDao.ScanStep` | app/src/main/java/com/example/calendar/data/local/dao/EventDao.kt:10-14 | scanning one more row keeps the result sorted and equal to the rows selected so far |
| `EventDao.SelectStep` | app/src/main/java/com/example/calendar/data/local/dao/EventDao.kt:10-14 | the rows selected among one more key are those selected before plus that key's row when it matches, and that row was not among them |
| `EventDao.DatesStep` | app/src/main/java/com/example/calendar/data/local/dao/EventDao.kt:16-17 | adding a row's date only when it is in range and not yet listed keeps the list equal to the set of dates seen (`DISTINCT`) |
| `EventDao.NoRepeats` | app/src/main/java/com/example/calendar/data/local/dao/EventDao.kt:10-14 | a query result holding the selected rows as a multiset repeats no row |
| `EventDao.RepeatCountsTwice` | app/src/main/java/com/example/calendar/data/local/dao/EventDao.kt:10-14 | an entry at two positions of a result is counted at least twice |
| `EventDao.PickKey` | app/src/main/java/com/example/calendar/data/local/dao/EventDao.kt:10-17 | the table scan visits some unvisited key, in no particular order |
| `EventRepository.TimeToMillis` | app/src/main/java/com/example/calendar/data/repository/EventRepositoryImpl.kt:86-89 | `h·3600000 + m·60000 + s·1000` lies in [0, 86399000] and is a whole number of seconds |
| `EventRepository.MillisToTime` | app/src/main/java/com/example/calendar/data/repository/EventRepositoryImpl.kt:91-97 | decoding with truncating `/` and `%` succeeds iff −1000 < ms < 86400000, and then gives a valid time with no sub-second part |
| `EventRepository.MillisToTimeAsWrittenAgrees` | app/src/main/java/com/example/calendar/data/repository/EventRepositoryImpl.kt:93-96 | while the hour quotient fits in an `Int`, the decoding as written (with `toInt()`) equals the corrected one |
| `EventRepository.MillisToTimeAsWrittenWraps` | app/src/main/java/com/example/calendar/data/repository/EventRepositoryImpl.kt:93 | for ms = 2^32·3600000, which fits in a `Long`, `toInt()` wraps the hour to 0: as written it decodes to 00:00, while the corrected decoding rejects it |
| `EventRepository.TimeRoundTrip` | app/src/main/java/com/example/calendar/data/repository/EventRepositoryImpl.kt:86-97 | encoding then decoding a time gives back its hour, minute and second, dropping any sub-second part |
| `EventRepository.MillisRoundTrip` | app/src/main/java/com/example/calendar/data/repository/EventRepositoryImpl.kt:86-97 | decoding then encoding a decodable value gives it back truncated to whole seconds |
| `EventRepository.MillisToDate` | app/src/main/java/com/example/calendar/data/repository/EventRepositoryImpl.kt:82-84 | `toLocalDate` gives the valid date whose day contains the instant |
| `EventRepository.DateRoundTrip` | app/src/main/java/com/example/calendar/data/repository/EventRepositoryImpl.kt:78-84 | a date converted to start-of-day milliseconds and back is the same date |
| `EventRepository.ToEntity` | app/src/main/java/com/example/calendar/data/repository/EventRepositoryImpl.kt:66-76 | id, title, description and colour are copied; the times become `TimeToMillis` of the event's times and the date its start-of-day milliseconds (`LocalDate.toEpochMilli()`, equal to `CalendarUtils.StartOfDayMillis` in UTC), so the row has whole-second times within a day and a start-of-day date |
| `EventRepository.ToDomainModel` | app/src/main/java/com/example/calendar/data/repository/EventRepositoryImpl.kt:54-64 | a row converts iff both its times decode; the valid event it gives copies id, title, description and colour, has the decoded times and the date of the day containing the stored date |
| `EventRepository.EventRoundTrip` | app/src/main/java/com/example/calendar/data/repository/EventRepositoryImpl.kt:54-76 | event → row → event is the identity on whole-second times; id, title, description and colour are copied |
| `EventRepository.EntityRoundTrip` | app/src/main/java/com/example/calendar/data/repository/EventRepositoryImpl.kt:54-76 | row → event → row is the identity on every row `toEntity` can produce |
| `EventRepository.MapToDomain` | app/src/main/java/com/example/calendar/data/repository/EventRepositoryImpl.kt:20 | the list converts iff every row does, and then element `i` is row `i` converted, with the same length |
| `EventRepository.MapToDates` | app/src/main/java/com/example/calendar/data/repository/EventRepositoryImpl.kt:30 | same length, and date `i` is the day containing instant `i` |
| `EventRepository.EventRepositoryImpl.constructor` | app/src/main/java/com/example/calendar/data/repository/EventRepositoryImpl.kt:14-16 | the repository wraps the given table |
| `EventRepository.EventRepositoryImpl.GetEventsByDate` | app/src/main/java/com/example/calendar/data/repository/EventRepositoryImpl.kt:18-21 | queries the table at the date's start-of-day milliseconds and converts the rows element by element, keeping order |
| `EventRepository.EventRepositoryImpl.GetEventsInDateRange` | app/src/main/java/com/example/calendar/data/repository/EventRepositoryImpl.kt:23-26 | queries the inclusive range of start-of-day milliseconds and converts the rows element by element |
| `EventRepository.EventRepositoryImpl.GetDatesWithEvents` | app/src/main/java/com/example/calendar/data/repository/EventRepositoryImpl.kt:28-31 | the distinct stored dates in the range, each decoded to a date |
| `EventRepository.EventRepositoryImpl.GetEventById` | app/src/main/java/com/example/calendar/data/repository/EventRepositoryImpl.kt:33-35 | an event iff a row with that id exists and converts, and then it is that row converted |
| `EventRepository.EventRepositoryImpl.InsertEvent` | app/src/main/java/com/example/calendar/data/repository/EventRepositoryImpl.kt:37-39 | stores the converted event under the id the table assigns and returns that id; the table keeps holding only producible rows |
| `EventRepository.EventRepositoryImpl.UpdateEvent` | app/src/main/java/com/example/calendar/data/repository/EventRepositoryImpl.kt:41-43 | replaces the row with the event's id by the converted event, if there is one |
| `EventRepository.EventRepositoryImpl.DeleteEvent` | app/src/main/java/com/example/calendar/data/repository/EventRepositoryImpl.kt:45-47 | removes only the row with the event's id |
| `EventRepository.EventRepositoryImpl.DeleteAllEvents` | app/src/main/java/com/example/calendar/data/repository/EventRepositoryImpl.kt:49-51 | empties the table |
| `CalendarViewModel.Combine` | app/src/main/java/com/example/calendar/presentation/viewmodel/CalendarViewModel.kt:44-50 | the state echoes the selected date, the month and the events, holds exactly the listed dates as a set, and is not loading and has no error |
| `CalendarViewModel.NextPreviousInverse` | app/src/main/java/com/example/calendar/presentation/viewmodel/CalendarViewModel.kt:65-71 | next month then previous month, and the reverse, return to the same month |
| `CalendarViewModel.NextMonthRollsOver` | app/src/main/java/com/example/calendar/presentation/viewmodel/CalendarViewModel.kt:65-67 | the next month of December is January of the next year; otherwise the month number goes up by one |
| `CalendarViewModel.RowsOnDate` | app/src/main/java/com/example/calendar/presentation/viewmodel/CalendarViewModel.kt:36-38 | every row the date query returns is a stored, convertible row on that date |
| `CalendarViewModel.EventsOnDate` | app/src/main/java/com/example/calendar/presentation/viewmodel/CalendarViewModel.kt:36-38 | the events for the selected date are exactly the stored events on that date, each once, ordered by start time |
| `CalendarViewModel.EventsOnDateMembers` | app/src/main/java/com/example/calendar/presentation/viewmodel/CalendarViewModel.kt:36-38 | the rows of a date all convert, and the converted list holds exactly the events stored on that date, each once |
| `CalendarViewModel.EventsOnDateDistinct` | app/src/main/java/com/example/calendar/presentation/viewmodel/CalendarViewModel.kt:36-38 | the query returns each row once and conversion is one-to-one on stored rows, so no event is repeated |
| `CalendarViewModel.ConvertedRowStored` | app/src/main/java/com/example/calendar/presentation/viewmodel/CalendarViewModel.kt:36-38 | every converted event is stored on the date |
| `CalendarViewModel.StoredEventConverted` | app/src/main/java/com/example/calendar/presentation/viewmodel/CalendarViewModel.kt:36-38 | every event stored on the date is in the converted list |
| `CalendarViewModel.EventsOnDateOrder` | app/src/main/java/com/example/calendar/data/local/dao/EventDao.kt:10-11 | rows sorted by stored start time convert to events sorted by start time |
| `CalendarViewModel.MonthDatesWithEvents` | app/src/main/java/com/example/calendar/presentation/viewmodel/CalendarViewModel.kt:39-43 | the dates listed for the month are exactly the dates of that month on which some event is stored |
| `CalendarViewModel.ListedDateHasEvent` | app/src/main/java/com/example/calendar/presentation/viewmodel/CalendarViewModel.kt:39-43 | a listed date lies in the month and has an event |
| `CalendarViewModel.DateWithEventListed` | app/src/main/java/com/example/calendar/presentation/viewmodel/CalendarViewModel.kt:39-43 | a date of the month with an event is listed |
| `CalendarViewModel.DayStartOf` | app/src/main/java/com/example/calendar/data/repository/EventRepositoryImpl.kt:78-84 | a start-of-day value decodes to the date whose start it is |
| `CalendarViewModel.StartOfDayOrder` | app/src/main/java/com/example/calendar/presentation/viewmodel/CalendarViewModel.kt:40-42 | start-of-day milliseconds order dates as their epoch days do |
| `CalendarViewModel.CalendarViewModel.constructor` | app/src/main/java/com/example/calendar/presentation/viewmodel/CalendarViewModel.kt:30-31 | the selected date starts as today, and the current month as the month containing today; over a table holding only stored rows the view model starts valid |
| `CalendarViewModel.CalendarViewModel.OnDateSelected` | app/src/main/java/com/example/calendar/presentation/viewmodel/CalendarViewModel.kt:57-59 | sets the selected date; the month is unchanged |
| `CalendarViewModel.CalendarViewModel.OnMonthChanged` | app/src/main/java/com/example/calendar/presentation/viewmodel/CalendarViewModel.kt:61-63 | sets the month; the selected date is unchanged |
| `CalendarViewModel.CalendarViewModel.OnNextMonth` | app/src/main/java/com/example/calendar/presentation/viewmodel/CalendarViewModel.kt:65-67 | the month advances by one calendar month; the selected date is unchanged |
| `CalendarViewModel.CalendarViewModel.OnPreviousMonth` | app/src/main/java/com/example/calendar/presentation/viewmodel/CalendarViewModel.kt:69-71 | the month goes back by one calendar month; the selected date is unchanged |
| `CalendarViewModel.CalendarViewModel.CreateEvent` | app/src/main/java/com/example/calendar/presentation/viewmodel/CalendarViewModel.kt:73-82 | stores the converted event under its assigned id, touching neither the selected date nor the month |
| `CalendarViewModel.CalendarViewModel.DeleteEvent` | app/src/main/java/com/example/calendar/presentation/viewmodel/CalendarViewModel.kt:84-92 | removes the row with the event's id, touching neither the selected date nor the month |
| `CalendarViewModel.CalendarViewModel.UiState` | app/src/main/java/com/example/calendar/presentation/viewmodel/CalendarViewModel.kt:33-55 | the state echoes the selected date and month, is never loading and never has an error, lists exactly the stored events of the selected date, each once, ordered by start time, and holds exactly the dates of the month with an event |
| `CalendarComponent.Chunked` | app/src/main/java/com/example/calendar/presentation/components/CalendarComponent.kt:180 | `chunked(size)` splits a list into pieces that concatenate back to it, every piece but the last full-sized |
| `CalendarComponent.WeeksOf` | app/src/main/java/com/example/calendar/presentation/components/CalendarComponent.kt:177-180 | a list of 7k dates splits into k weeks of 7, and week `w` column `j` is entry `7w + j` |
| `CalendarComponent.Cell` | app/src/main/java/com/example/calendar/presentation/components/CalendarComponent.kt:186-195 | a cell is selected iff its date is the selected one, in the month iff `isInMonth`, has events iff its date is listed, and is today iff it is today |
| `CalendarComponent.WeekCells` | app/src/main/java/com/example/calendar/presentation/components/CalendarComponent.kt:185-197 | a week with no null entry draws one cell per date, in order |
| `CalendarComponent.GridWeeks` | app/src/main/java/com/example/calendar/presentation/components/CalendarComponent.kt:177-197 | the month grid is drawn as 6 full weeks, with the cell at week `w`, column `j` showing grid date `7w + j` |
| `CalendarComponent.SelectedAtMostOnce` | app/src/main/java/com/example/calendar/presentation/components/CalendarComponent.kt:189 | at most one cell of the grid is selected |
| `CalendarComponent.TextColor` | app/src/main/java/com/example/calendar/presentation/components/CalendarComponent.kt:243-248 | white when selected; otherwise the accent colour iff today in the month, ink iff in the month and not today, faded outside the month |
| `CalendarComponent.Weight` | app/src/main/java/com/example/calendar/presentation/components/CalendarComponent.kt:249-253 | bold iff selected or today |
| `CalendarComponent.Background` | app/src/main/java/com/example/calendar/presentation/components/CalendarComponent.kt:232-235 | the accent background iff selected, transparent otherwise |
| `CalendarComponent.DotCount` | app/src/main/java/com/example/calendar/presentation/components/CalendarComponent.kt:257-263 | at most one dot, and one exactly when the cell has events and is in the month |
| `CalendarComponent.DotColor` | app/src/main/java/com/example/calendar/presentation/components/CalendarComponent.kt:269-272 | the dot is white on the selected day and the accent elsewhere, so its colour always differs from the cell's background |
| `CalendarComponent.ArrowButtons` | app/src/main/java/com/example/calendar/presentation/components/CalendarComponent.kt:104-141 | the two arrows do different things; the first button in code order (the row's start) goes to the next month iff the language is "ar"; a left chevron always means previous month |
| `CalendarComponent.SwipeAction` | app/src/main/java/com/example/calendar/presentation/components/CalendarComponent.kt:58-62 | previous month iff the offset exceeds 100, next month iff it is below −100, otherwise nothing |
| `CalendarComponent.SwipeSymmetric` | app/src/main/java/com/example/calendar/presentation/components/CalendarComponent.kt:58-62 | a mirrored drag gives the opposite action |
| `CalendarComponent.SwipeDetector.constructor` | app/src/main/java/com/example/calendar/presentation/components/CalendarComponent.kt:45 | the drag offset starts at 0 |
| `CalendarComponent.SwipeDetector.OnHorizontalDrag` | app/src/main/java/com/example/calendar/presentation/components/CalendarComponent.kt:65-67 | the drag amount is added to the offset |
| `CalendarComponent.SwipeDetector.OnDragEnd` | app/src/main/java/com/example/calendar/presentation/components/CalendarComponent.kt:57-64 | dispatches the threshold action for the accumulated offset and resets the offset to 0 |
| `CreateEventSheet.HourUp` | app/src/main/java/com/example/calendar/presentation/screen/CreateEventBottomSheet.kt:403 | `(h + 1) % 24` keeps the hour in 0..23, going from 23 to 0 |
| `CreateEventSheet.HourDown` | app/src/main/java/com/example/calendar/presentation/screen/CreateEventBottomSheet.kt:412 | `(h - 1 + 24) % 24` keeps the hour in 0..23, going from 0 to 23 |
| `CreateEventSheet.MinuteUp` | app/src/main/java/com/example/calendar/presentation/screen/CreateEventBottomSheet.kt:425 | `(m + 15) % 60` keeps a quarter-hour minute a quarter, going from 45 to 0 |
| `CreateEventSheet.MinuteDown` | app/src/main/java/com/example/calendar/presentation/screen/CreateEventBottomSheet.kt:434 | `(m - 15 + 60) % 60` keeps a quarter-hour minute a quarter, going from 0 to 45 |
| `CreateEventSheet.HourArrowsInverse` | app/src/main/java/com/example/calendar/presentation/screen/CreateEventBottomSheet.kt:403-412 | up then down, and down then up, restore the hour |
| `CreateEventSheet.MinuteArrowsInverse` | app/src/main/java/com/example/calendar/presentation/screen/CreateEventBottomSheet.kt:425-434 | up then down, and down then up, restore the minute |
| `CreateEventSheet.FourQuartersAround` | app/src/main/java/com/example/calendar/presentation/screen/CreateEventBottomSheet.kt:425 | four presses of the minute up arrow return to the start |
| `CreateEventSheet.HoursAround` | app/src/main/java/com/example/calendar/presentation/screen/CreateEventBottomSheet.kt:403 | `k` presses of hour up give `(h + k) % 24` for every `k`, so every 24 presses return to the start |
| `CreateEventSheet.NextHourMod` | app/src/main/java/com/example/calendar/presentation/screen/CreateEventBottomSheet.kt:403 | one more hour modulo 24 is the up arrow applied to the hour modulo 24 |
| `CreateEventSheet.TimeField.constructor` | app/src/main/java/com/example/calendar/presentation/screen/CreateEventBottomSheet.kt:341-342 | the field shows the given time with its dialog closed |
| `CreateEventSheet.TimeField.Open` | app/src/main/java/com/example/calendar/presentation/screen/CreateEventBottomSheet.kt:348 | opens the dialog, whose copy starts as the field's value |
| `CreateEventSheet.TimeField.HourUpPressed` | app/src/main/java/com/example/calendar/presentation/screen/CreateEventBottomSheet.kt:403 | only the dialog's hour changes, to `HourUp` of it |
| `CreateEventSheet.TimeField.HourDownPressed` | app/src/main/java/com/example/calendar/presentation/screen/CreateEventBottomSheet.kt:412 | only the dialog's hour changes, to `HourDown` of it |
| `CreateEventSheet.TimeField.MinuteUpPressed` | app/src/main/java/com/example/calendar/presentation/screen/CreateEventBottomSheet.kt:425 | only the dialog's minute changes, to `MinuteUp` of it |
| `CreateEventSheet.TimeField.MinuteDownPressed` | app/src/main/java/com/example/calendar/presentation/screen/CreateEventBottomSheet.kt:434 | only the dialog's minute changes, to `MinuteDown` of it |
| `CreateEventSheet.TimeField.Confirm` | app/src/main/java/com/example/calendar/presentation/screen/CreateEventBottomSheet.kt:442 | OK commits the dialog's hour and minute and closes the dialog |
| `CreateEventSheet.TimeField.Cancel` | app/src/main/java/com/example/calendar/presentation/screen/CreateEventBottomSheet.kt:452 | Cancel (or dismissing) closes the dialog and leaves the field's hour and minute unchanged |
| `CreateEventSheet.CategoryColor` | app/src/main/java/com/example/calendar/presentation/screen/CreateEventBottomSheet.kt:215-235 | a category's colour is a 32-bit `Int` |
| `CreateEventSheet.CategoryColors` | app/src/main/java/com/example/calendar/presentation/screen/CreateEventBottomSheet.kt:219-233 | Brainstorm, Design and Workout map to `0xFF735BF2`, `0xFF4CAF50` and `0xFF2196F3` as `Int`s, and distinct categories have distinct colours |
| `CreateEventSheet.BuildEvent` | app/src/main/java/com/example/calendar/presentation/screen/CreateEventBottomSheet.kt:250-261 | an event is built iff the title is not blank; it has id 0, the title, description, selected date, colour, and the picker times as `LocalTime.of(hour, minute)` with second and nanosecond 0 |
| `CreateEventSheet.EndBeforeStartAccepted` | app/src/main/java/com/example/calendar/presentation/screen/CreateEventBottomSheet.kt:250-261 | an end earlier than the start is accepted: 11:00–10:00 builds an event |
| `CreateEventSheet.CreateEventForm.constructor` | app/src/main/java/com/example/calendar/presentation/screen/CreateEventBottomSheet.kt:38-46 | the form starts with empty title and description, Brainstorm and its colour, 10:00–11:00 and no reminder |
| `CreateEventSheet.CreateEventForm.OnTitleChange` | app/src/main/java/com/example/calendar/presentation/screen/CreateEventBottomSheet.kt:95 | only the title changes |
| `CreateEventSheet.CreateEventForm.OnDescriptionChange` | app/src/main/java/com/example/calendar/presentation/screen/CreateEventBottomSheet.kt:112 | only the description changes |
| `CreateEventSheet.CreateEventForm.OnCategoryClick` | app/src/main/java/com/example/calendar/presentation/screen/CreateEventBottomSheet.kt:219-233 | selects the category, and with it its colour |
| `CreateEventSheet.CreateEventForm.OnRemindMeChange` | app/src/main/java/com/example/calendar/presentation/screen/CreateEventBottomSheet.kt:189 | only the reminder switch changes |
| `CreateEventSheet.CreateEventForm.Create` | app/src/main/java/com/example/calendar/presentation/screen/CreateEventBottomSheet.kt:250-264 | the click builds an event exactly when the title is not blank, from the form's fields and the selected date |

## Left out

- **Time zone.** `ZoneId.systemDefault()` is fixed to UTC. In another zone,
  start of day is offset by the zone's offset, and daylight-saving days are
  not 24 hours long.
- **Wall clock.** `LocalDate.now()`, `YearMonth.now()` and `isToday`'s clock
  are replaced by a "today" parameter.
- **`Long` overflow.** Times and dates are unbounded integers. The only
  64-bit effect modelled is the `toInt()` in `toLocalTime`. Years are
  unbounded, where `java.time` limits them to ±999999999.
- **Concurrency.** Coroutines, `Flow`, `flatMapLatest`, `combine` scheduling,
  `stateIn(WhileSubscribed(5000))` and `viewModelScope.launch` are left out.
  `UiState` gives the settled value, not the sequence of emissions; in
  particular the initial `CalendarUiState()` emitted before the queries answer
  is not modelled.
- **Storage engine.** The Room/SQLite engine, `CalendarDatabase` and its
  singleton are left out, and so are storage errors. The exceptions that
  `createEvent` and `deleteEvent` swallow therefore never occur in the model.
- **Tie order.** The order of rows that tie on the `ORDER BY` key is not
  fixed. SQLite's is an implementation detail.
- **Locale data.** `WeekFields.of(locale)` becomes the first-day-of-week
  parameter. `getDisplayName`, formatters and string resources are left out.
  `getDaysOfWeek` returns weekday numbers 1..7 for `DayOfWeek` values.
- **Layout direction.** `MainActivity` draws the whole screen right to left
  for "ar", and a right-to-left `Row` places its first child at the right
  edge. The model keeps the header's buttons in code order (first = the
  row's start) and does not model where they appear on screen.
- **`EventRepository.ToDomainModel`** decodes times with the corrected
  `MillisToTime`, not the as-written `toInt()` version: a stored time of
  2^32·3600000 ms decodes to 00:00 in the source and to none in the model
  (see "## Findings").
- **`EventRepository.ToDomainModel`** returns none where `LocalTime.of`
  throws. `EventRepositoryImpl.GetEventById` therefore answers none both for
  a missing row (the source's `null`) and for a row whose times do not decode
  (an exception in the source); its contract tells the two apart only through
  the table's contents. `MapToDomain` likewise returns none where the
  source's query flow would fail.
- **`SwipeDetector`.** The offset is an integer, not a `Float` accumulated
  from drag events.
- **Animations.** Scaling and spring/tween animations are not modelled.
- **Compose rendering.** Layout, sizes, the chip's selected style and every
  screen other than the component and the sheet are left out. Colours are
  modelled as the constants the rules pick.
- **`CreateEventSheet.CreateEventForm.Create`.** After a successful create,
  `onDismiss()` and the navigation it triggers are outside the model; `Create`
  returns the event handed to `onCreateEvent`.
- **"Add new" category.** The link does nothing in the source, so the model
  leaves it out.
- **`CreateEventSheet.IsWhitespace`** follows `Char.isWhitespace` for the
  characters of the Unicode version `java.lang.Character` uses today. Later
  Unicode changes to the space separators are not tracked.
- **`remindMe`** is held by the form but never used by the event, so nothing
  more is stated about it.
- **`EventRepository.TimeRoundTrip`**: sub-second parts of a `LocalTime` are
  dropped by the encoding (`nano` is not stored), so the round trip holds on
  whole seconds only, exactly as the source behaves.
- **`getEventsInDateRange`.** It is modelled in the table and the repository,
  but no view-model state uses it, as in the source.
- **Use cases.** `EventRepository.kt` and the use cases are one-line
  delegations. They are inlined into `CalendarViewModel`.
- **`SampleDataInitializer.kt`** is not part of this model.

## Findings

| source | as written | input that shows it | evidently intended | confidence | as-written member | corrected member |
|---|---|---|---|---|---|---|
| app/src/main/java/com/example/calendar/util/CalendarUtils.kt:76-78 | `getStartOfDayMillis` returns `date.toEpochDay()`, a count of days | 1970-01-02 gives 1 | the start of the day in milliseconds, 86400000 for that date, as its name and comment say and as the rows store dates | high, not executed | `CalendarUtils.StartOfDayMillisAsWritten` (exhibited by `CalendarUtils.StartOfDayMillisMismatch`) | `CalendarUtils.StartOfDayMillis` |
| app/src/main/java/com/example/calendar/data/repository/EventRepositoryImpl.kt:93 | `(this / 3600000).toInt()` wraps the hour quotient to 32 bits before `LocalTime.of` checks it | ms = 15461882265600000 (2^32·3600000) decodes to 00:00 | an out-of-range stored time is rejected, as every other value of 86400000 or more is | medium (only corrupt rows reach it), not executed | `EventRepository.MillisToTimeAsWritten` (exhibited by `EventRepository.MillisToTimeAsWrittenWraps`) | `EventRepository.MillisToTime` |
