/**
 * `EventRepositoryImpl`: converts between the domain `Event` and the stored
 * `EventEntity` and hands every call on to the `events` table.
 *
 * A date is stored as the milliseconds of its start of day and read back
 * through the day those milliseconds fall in; the zone is fixed to UTC. A
 * time of day is stored as the milliseconds since midnight of its hour,
 * minute and second, and read back with Kotlin's truncating `/` and `%`
 * followed by `LocalTime.of`, which fails on a field out of range.
 */
module EventRepository {
  import opened Wrappers
  import opened Chrono
  import opened KotlinInt
  import opened Domain
  import opened Entity
  import opened EventDao
  import opened CalendarUtils

  const MillisPerHour: int := 3_600_000
  const MillisPerMinute: int := 60_000
  const MillisPerSecond: int := 1_000

  /** `LocalTime.toEpochMilli()`: the milliseconds since midnight of the hour, minute and second. */
  function TimeToMillis(t: LocalTime): (ms: int)
    requires ValidTime(t)
    ensures 0 <= ms <= 86_399_000 && ms % MillisPerSecond == 0
  {
    t.hour * MillisPerHour + t.minute * MillisPerMinute + t.second * MillisPerSecond
  }

  /**
   * `Long.toLocalTime()` without the `toInt()` truncation of the hour count:
   * the fields by truncating division, and no time when `LocalTime.of` would
   * reject one of them. Exactly the values from just above -1000 to just below
   * a day have a time.
   */
  function MillisToTime(ms: int): (t: Option<LocalTime>)
    ensures t.Some? <==> -1000 < ms < MillisPerDay
    ensures t.Some? ==> ValidTime(t.value) && t.value.nano == 0
  {
    var hours := Quot(ms, MillisPerHour);
    var minutes := Quot(Rem(ms, MillisPerHour), MillisPerMinute);
    var seconds := Quot(Rem(ms, MillisPerMinute), MillisPerSecond);
    if 0 <= hours < 24 && 0 <= minutes < 60 && 0 <= seconds < 60 then
      Some(LocalTime(hours, minutes, seconds))
    else
      None
  }

  /** `Long.toLocalTime()` as written: each field passes through `toInt()` before `LocalTime.of`. */
  function MillisToTimeAsWritten(ms: int): Option<LocalTime> {
    var hours := ToInt(Quot(ms, MillisPerHour));
    var minutes := ToInt(Quot(Rem(ms, MillisPerHour), MillisPerMinute));
    var seconds := ToInt(Quot(Rem(ms, MillisPerMinute), MillisPerSecond));
    if 0 <= hours < 24 && 0 <= minutes < 60 && 0 <= seconds < 60 then
      Some(LocalTime(hours, minutes, seconds))
    else
      None
  }

  /** `toInt()` changes nothing on a value that fits in an `Int`. */
  lemma ToIntInRange(x: int)
    requires MinInt <= x <= MaxInt
    ensures ToInt(x) == x
  {
    assert 0 <= x - MinInt < TwoTo32;
  }

  /** While the hour count fits in an `Int`, the code as written decodes as intended. */
  lemma MillisToTimeAsWrittenAgrees(ms: int)
    requires MinInt <= Quot(ms, MillisPerHour) <= MaxInt
    ensures MillisToTimeAsWritten(ms) == MillisToTime(ms)
  {
    ToIntInRange(Quot(ms, MillisPerHour));
    ToIntInRange(Quot(Rem(ms, MillisPerHour), MillisPerMinute));
    ToIntInRange(Quot(Rem(ms, MillisPerMinute), MillisPerSecond));
  }

  /**
   * A `Long` of 2^32 hours, far outside a day, decodes to midnight as
   * written, because the hour count 2^32 truncates to the `Int` 0.
   */
  lemma MillisToTimeAsWrittenWraps()
    ensures TwoTo32 * MillisPerHour < 0x7FFF_FFFF_FFFF_FFFF
    ensures MillisToTimeAsWritten(TwoTo32 * MillisPerHour) == Some(LocalTime(0, 0, 0))
    ensures MillisToTime(TwoTo32 * MillisPerHour) == None
  {
    assert Quot(TwoTo32 * MillisPerHour, MillisPerHour) == TwoTo32;
    assert Rem(TwoTo32 * MillisPerHour, MillisPerHour) == 0;
    assert Rem(TwoTo32 * MillisPerHour, MillisPerMinute) == 0;
  }

  /** Encoding a time and decoding it gives back its hour, minute and second; the nanosecond is dropped. */
  lemma TimeRoundTrip(t: LocalTime)
    requires ValidTime(t)
    ensures MillisToTime(TimeToMillis(t)) == Some(t.(nano := 0))
  {
    var ms := TimeToMillis(t);
    var below := t.minute * MillisPerMinute + t.second * MillisPerSecond;
    assert Quot(ms, MillisPerHour) == t.hour;
    assert Rem(ms, MillisPerHour) == below;
    assert Quot(below, MillisPerMinute) == t.minute;
    assert Quot(ms, MillisPerMinute) == t.hour * 60 + t.minute;
    assert Rem(ms, MillisPerMinute) == t.second * MillisPerSecond;
    assert Quot(t.second * MillisPerSecond, MillisPerSecond) == t.second;
  }

  /** Decoding and encoding again keeps the whole seconds of a value and drops the rest. */
  lemma MillisRoundTrip(ms: int)
    requires -1000 < ms < MillisPerDay
    ensures TimeToMillis(MillisToTime(ms).value) == ms - Rem(ms, MillisPerSecond)
  {
    var t := MillisToTime(ms).value;
    var h := Quot(ms, MillisPerHour);
    var inHour := Rem(ms, MillisPerHour);
    var m := Quot(inHour, MillisPerMinute);
    var inMinute := Rem(ms, MillisPerMinute);
    assert inMinute == Rem(inHour, MillisPerMinute);
    assert ms == h * MillisPerHour + m * MillisPerMinute + inMinute;
    assert Rem(inMinute, MillisPerSecond) == Rem(ms, MillisPerSecond);
  }

  /** `Long.toLocalDate()` in UTC: the date of the day the milliseconds fall in. */
  function MillisToDate(ms: int): (d: Date)
    ensures ValidDate(d)
    ensures StartOfDayMillis(d) <= ms < StartOfDayMillis(d) + MillisPerDay
  {
    var d := DateOfEpochDay(ms / MillisPerDay);
    EpochDayRoundTrip(d);
    DayMillis(ms / MillisPerDay);
    d
  }

  /** A date stored as its start-of-day milliseconds reads back as the same date. */
  lemma DateRoundTrip(d: Date)
    requires ValidDate(d)
    ensures MillisToDate(StartOfDayMillis(d)) == d
  {
    var back := MillisToDate(StartOfDayMillis(d));
    EpochDayRoundTrip(back);
    EpochDayRoundTrip(d);
    DayMillis(EpochDay(back));
    DayMillis(EpochDay(d));
  }

  /** An event whose fields Kotlin's `LocalTime` and `LocalDate` guarantee valid. */
  predicate ValidEvent(e: Event) {
    ValidTime(e.startTime) && ValidTime(e.endTime) && ValidDate(e.date)
  }

  /** A value `toEntity` can produce for a time: whole seconds within one day. */
  predicate StoredTime(ms: int) {
    0 <= ms < MillisPerDay && ms % MillisPerSecond == 0
  }

  /** Every row is one `toEntity` can produce: whole-second times within a day and a start-of-day date. */
  ghost predicate StoredRows(table: map<int, EventEntity>) {
    forall id | id in table ::
      StoredTime(table[id].startTime) && StoredTime(table[id].endTime) && table[id].date % MillisPerDay == 0
  }

  /** `Event.toEntity()`: id, title, description and colour copied, times and date encoded. */
  function ToEntity(e: Event): (en: EventEntity)
    requires ValidEvent(e)
    ensures en.id == e.id && en.title == e.title && en.description == e.description && en.color == e.color
    ensures en.startTime == TimeToMillis(e.startTime) && en.endTime == TimeToMillis(e.endTime)
    ensures en.date == StartOfDayMillis(e.date)
    ensures StoredTime(en.startTime) && StoredTime(en.endTime) && en.date % MillisPerDay == 0
  {
    EventEntity(
      id := e.id,
      title := e.title,
      description := e.description,
      startTime := TimeToMillis(e.startTime),
      endTime := TimeToMillis(e.endTime),
      date := StartOfDayMillis(e.date),
      color := e.color)
  }

  /** `EventEntity.toDomainModel()`; none when either stored time is outside what `LocalTime.of` accepts. */
  function ToDomainModel(en: EventEntity): (r: Option<Event>)
    ensures r.Some? <==> -1000 < en.startTime < MillisPerDay && -1000 < en.endTime < MillisPerDay
    ensures r.Some? ==> ValidEvent(r.value)
    ensures r.Some? ==> r.value.id == en.id && r.value.title == en.title &&
                        r.value.description == en.description && r.value.color == en.color
    ensures r.Some? ==> MillisToTime(en.startTime) == Some(r.value.startTime) &&
                        MillisToTime(en.endTime) == Some(r.value.endTime) &&
                        r.value.date == MillisToDate(en.date)
  {
    match (MillisToTime(en.startTime), MillisToTime(en.endTime))
    case (Some(startTime), Some(endTime)) =>
      Some(Event(
        id := en.id,
        title := en.title,
        description := en.description,
        startTime := startTime,
        endTime := endTime,
        date := MillisToDate(en.date),
        color := en.color))
    case _ => None
  }

  /** The event with its times cut to whole seconds, the precision storage keeps. */
  function WholeSeconds(e: Event): Event {
    e.(startTime := e.startTime.(nano := 0), endTime := e.endTime.(nano := 0))
  }

  /** Domain to entity to domain is the identity on whole-second times. */
  lemma EventRoundTrip(e: Event)
    requires ValidEvent(e)
    ensures ToDomainModel(ToEntity(e)) == Some(WholeSeconds(e))
  {
    TimeRoundTrip(e.startTime);
    TimeRoundTrip(e.endTime);
    DateRoundTrip(e.date);
  }

  /** Entity to domain to entity is the identity on every row `toEntity` can produce. */
  lemma EntityRoundTrip(en: EventEntity)
    requires StoredTime(en.startTime) && StoredTime(en.endTime) && en.date % MillisPerDay == 0
    ensures ToDomainModel(en).Some? && ToEntity(ToDomainModel(en).value) == en
  {
    MillisRoundTrip(en.startTime);
    MillisRoundTrip(en.endTime);
    var d := MillisToDate(en.date);
    assert StartOfDayMillis(d) == en.date;
  }

  /**
   * `entities.map { it.toDomainModel() }`: every row converted in order, or
   * none when a conversion fails, since the first failure aborts the list.
   */
  function MapToDomain(entities: seq<EventEntity>): (r: Option<seq<Event>>)
    ensures r.Some? <==> forall i | 0 <= i < |entities| :: ToDomainModel(entities[i]).Some?
    ensures r.Some? ==> |r.value| == |entities| &&
                        forall i | 0 <= i < |entities| :: ToDomainModel(entities[i]) == Some(r.value[i])
  {
    if entities == [] then Some([])
    else match (ToDomainModel(entities[0]), MapToDomain(entities[1..]))
      case (Some(first), Some(rest)) => Some([first] + rest)
      case _ => None
  }

  /** `dates.map { it.toLocalDate() }`: each value becomes the date of the day it falls in, in order. */
  function MapToDates(millis: seq<int>): (dates: seq<Date>)
    ensures |dates| == |millis|
    ensures forall i | 0 <= i < |millis| ::
              ValidDate(dates[i]) && StartOfDayMillis(dates[i]) <= millis[i] < StartOfDayMillis(dates[i]) + MillisPerDay
  {
    seq(|millis|, i requires 0 <= i < |millis| => MillisToDate(millis[i]))
  }

  /** The repository over one `events` table. */
  class EventRepositoryImpl {
    const dao: EventTable

    constructor (dao: EventTable)
      ensures this.dao == dao
    {
      this.dao := dao;
    }

    /** `getEventsByDate`: the table's rows for the date's start of day, in start-time order, converted. */
    method GetEventsByDate(date: Date) returns (events: Option<seq<Event>>, ghost rows: seq<EventEntity>)
      requires dao.Valid() && ValidDate(date)
      ensures Sorted(ByStartTime, rows)
      ensures multiset(rows) == multiset(Selected(dao.rows, DateIs(StartOfDayMillis(date))))
      ensures events == MapToDomain(rows)
    {
      var entities := dao.GetEventsByDate(StartOfDayMillis(date));
      rows := entities;
      events := MapToDomain(entities);
    }

    /** `getEventsInDateRange`: the rows from the first start of day to the last, in date then start-time order, converted. */
    method GetEventsInDateRange(startDate: Date, endDate: Date) returns (events: Option<seq<Event>>, ghost rows: seq<EventEntity>)
      requires dao.Valid() && ValidDate(startDate) && ValidDate(endDate)
      ensures Sorted(ByDateThenStartTime, rows)
      ensures multiset(rows) == multiset(Selected(dao.rows, DateBetween(StartOfDayMillis(startDate), StartOfDayMillis(endDate))))
      ensures events == MapToDomain(rows)
    {
      var entities := dao.GetEventsInDateRange(StartOfDayMillis(startDate), StartOfDayMillis(endDate));
      rows := entities;
      events := MapToDomain(entities);
    }

    /** `getDatesWithEvents`: the distinct stored dates from the first start of day to the last, converted. */
    method GetDatesWithEvents(startDate: Date, endDate: Date) returns (dates: seq<Date>, ghost millis: seq<int>)
      requires dao.Valid() && ValidDate(startDate) && ValidDate(endDate)
      ensures multiset(millis) == multiset(DatesAmong(dao.rows, dao.rows.Keys, StartOfDayMillis(startDate), StartOfDayMillis(endDate)))
      ensures dates == MapToDates(millis)
    {
      var stored := dao.GetDatesWithEvents(StartOfDayMillis(startDate), StartOfDayMillis(endDate));
      millis := stored;
      dates := MapToDates(stored);
    }

    /** `getEventById`: the converted row with that id, or none when there is no such row or it does not convert. */
    method GetEventById(eventId: int) returns (event: Option<Event>)
      requires dao.Valid()
      ensures event.Some? <==> eventId in dao.rows && ToDomainModel(dao.rows[eventId]).Some?
      ensures event.Some? ==> event == ToDomainModel(dao.rows[eventId]) && event.value.id == eventId
    {
      var row := dao.GetEventById(eventId);
      if row.Some? {
        event := ToDomainModel(row.value);
      } else {
        event := None;
      }
    }

    /** `insertEvent`: stores the converted event and returns the id the table gave it. */
    method InsertEvent(event: Event) returns (id: int)
      requires dao.Valid() && ValidEvent(event)
      modifies dao
      ensures dao.Valid() && (StoredRows(old(dao.rows)) ==> StoredRows(dao.rows))
      ensures id == if event.id == UnsavedId then old(dao.lastId) + 1 else event.id
      ensures event.id == UnsavedId ==> id !in old(dao.rows)
      ensures dao.rows == old(dao.rows)[id := ToEntity(event.(id := id))]
      ensures dao.lastId == Max(old(dao.lastId), id)
    {
      id := dao.InsertEvent(ToEntity(event));
    }

    /** `updateEvent`: replaces the stored row with the converted event, if its id is stored. */
    method UpdateEvent(event: Event)
      requires dao.Valid() && ValidEvent(event)
      modifies dao
      ensures dao.Valid() && (StoredRows(old(dao.rows)) ==> StoredRows(dao.rows))
      ensures dao.rows == if event.id in old(dao.rows) then old(dao.rows)[event.id := ToEntity(event)] else old(dao.rows)
      ensures dao.lastId == old(dao.lastId)
    {
      dao.UpdateEvent(ToEntity(event));
    }

    /** `deleteEvent`: removes the row with the event's id. */
    method DeleteEvent(event: Event)
      requires dao.Valid() && ValidEvent(event)
      modifies dao
      ensures dao.Valid() && (StoredRows(old(dao.rows)) ==> StoredRows(dao.rows))
      ensures dao.rows == old(dao.rows) - {event.id}
      ensures dao.lastId == old(dao.lastId)
    {
      dao.DeleteEvent(ToEntity(event));
    }

    /** `deleteAllEvents`: empties the table. */
    method DeleteAllEvents()
      requires dao.Valid()
      modifies dao
      ensures dao.Valid() && StoredRows(dao.rows) && dao.rows == map[]
      ensures dao.lastId == old(dao.lastId)
    {
      dao.DeleteAllEvents();
    }
  }
}
