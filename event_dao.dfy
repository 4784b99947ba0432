/**
 * The `events` table behind `EventDao`: a map from primary key to row, plus
 * the largest id ever handed out (the AUTOINCREMENT counter, which deleting
 * rows never lowers). The queries are the SQL statements' meaning: filter the
 * rows and order them; rows that tie on the sort key come in no promised order.
 */
module EventDao {
  import opened Wrappers
  import opened Entity

  /** The `ORDER BY` clauses of the two row queries. */
  datatype Order = ByStartTime | ByDateThenStartTime

  predicate InOrder(order: Order, a: EventEntity, b: EventEntity) {
    match order
    case ByStartTime => a.startTime <= b.startTime
    case ByDateThenStartTime => a.date < b.date || (a.date == b.date && a.startTime <= b.startTime)
  }

  predicate Sorted(order: Order, rows: seq<EventEntity>) {
    forall i, j | 0 <= i < j < |rows| :: InOrder(order, rows[i], rows[j])
  }

  /** The `WHERE` clauses of the two row queries; `BETWEEN` includes both ends. */
  datatype Filter = DateIs(date: int) | DateBetween(startDate: int, endDate: int)

  predicate Matches(filter: Filter, row: EventEntity) {
    match filter
    case DateIs(date) => row.date == date
    case DateBetween(startDate, endDate) => startDate <= row.date <= endDate
  }

  /** The rows among those with keys in `ids` that the filter keeps. */
  ghost function SelectedAmong(table: map<int, EventEntity>, ids: set<int>, filter: Filter): set<EventEntity> {
    set id | id in ids && id in table && Matches(filter, table[id]) :: table[id]
  }

  /** The rows the filter keeps. */
  ghost function Selected(table: map<int, EventEntity>, filter: Filter): set<EventEntity> {
    SelectedAmong(table, table.Keys, filter)
  }

  /** The distinct dates in `startDate..endDate` that some row has. */
  ghost function DatesAmong(table: map<int, EventEntity>, ids: set<int>, startDate: int, endDate: int): set<int> {
    set id | id in ids && id in table && startDate <= table[id].date <= endDate :: table[id].date
  }

  /** Every row is stored under its own id, no row has id 0, and no id exceeds the counter. */
  ghost predicate KeyedById(table: map<int, EventEntity>, lastId: int) {
    0 <= lastId && AutoGenerateId !in table &&
    forall id | id in table :: table[id].id == id && id <= lastId
  }

  /** Inserts `row` into a list in front of the first entry it may precede. */
  function InsertSorted(order: Order, rows: seq<EventEntity>, row: EventEntity): seq<EventEntity> {
    if rows == [] then [row]
    else if InOrder(order, row, rows[0]) then [row] + rows
    else [rows[0]] + InsertSorted(order, rows[1..], row)
  }

  /** Inserting adds exactly the one row. */
  lemma {:induction false} InsertSortedAdds(order: Order, rows: seq<EventEntity>, row: EventEntity)
    ensures multiset(InsertSorted(order, rows, row)) == multiset(rows) + multiset{row}
  {
    if rows != [] && !InOrder(order, row, rows[0]) {
      InsertSortedAdds(order, rows[1..], row);
      assert rows == [rows[0]] + rows[1..];
    }
  }

  /** Inserting into a sorted list keeps it sorted. */
  lemma {:induction false} InsertSortedKeepsOrder(order: Order, rows: seq<EventEntity>, row: EventEntity)
    requires Sorted(order, rows)
    ensures Sorted(order, InsertSorted(order, rows, row))
  {
    if rows != [] && !InOrder(order, row, rows[0]) {
      var tail := InsertSorted(order, rows[1..], row);
      InsertSortedKeepsOrder(order, rows[1..], row);
      InsertSortedAdds(order, rows[1..], row);
      forall x | x in tail
        ensures InOrder(order, rows[0], x)
      {
        assert x in multiset(tail);
        if x != row {
          assert x in multiset(rows[1..]);
        }
      }
    }
  }

  /** One step of the table scan: keep the row, in order, when the filter matches it. */
  function Keep(filter: Filter, order: Order, kept: seq<EventEntity>, row: EventEntity): seq<EventEntity> {
    if Matches(filter, row) then InsertSorted(order, kept, row) else kept
  }

  /** Scanning one more key keeps the list sorted and equal to the selected rows among the keys scanned. */
  lemma ScanStep(table: map<int, EventEntity>, lastId: int, done: set<int>, id: int,
                 filter: Filter, order: Order, kept: seq<EventEntity>)
    requires KeyedById(table, lastId) && id in table && id !in done
    requires Sorted(order, kept) && multiset(kept) == multiset(SelectedAmong(table, done, filter))
    ensures Sorted(order, Keep(filter, order, kept, table[id]))
    ensures multiset(Keep(filter, order, kept, table[id])) == multiset(SelectedAmong(table, done + {id}, filter))
  {
    SelectStep(table, lastId, done, id, filter);
    InsertSortedKeepsOrder(order, kept, table[id]);
    InsertSortedAdds(order, kept, table[id]);
  }

  /** Some key of a non-empty set of keys: the scan visits the rows in no promised order. */
  method PickKey(keys: set<int>) returns (id: int)
    requires keys != {}
    ensures id in keys
  {
    // The verifier does not turn `keys != {}` into a witness for `:|` on
    // its own; ruling out "no member at all" gives it the existential.
    if forall k :: k !in keys {
      assert false;
    }
    id :| id in keys;
  }

  function Max(a: int, b: int): int {
    if a < b then b else a
  }

  class EventTable {
    var rows: map<int, EventEntity>
    /** The largest id ever stored: a generated id is one more. */
    var lastId: int

    ghost predicate Valid()
      reads this
    {
      KeyedById(rows, lastId)
    }

    constructor ()
      ensures Valid() && rows == map[] && lastId == 0
    {
      rows := map[];
      lastId := 0;
    }

    /**
     * `getEventsByDate`: `WHERE date = :date ORDER BY startTime ASC`, each
     * matching row exactly once.
     */
    method GetEventsByDate(date: int) returns (r: seq<EventEntity>)
      requires Valid()
      ensures Sorted(ByStartTime, r)
      ensures multiset(r) == multiset(Selected(rows, DateIs(date)))
    {
      r := Query(DateIs(date), ByStartTime);
    }

    /**
     * `getEventsInDateRange`: `WHERE date BETWEEN :startDate AND :endDate
     * ORDER BY date ASC, startTime ASC`, each matching row exactly once.
     */
    method GetEventsInDateRange(startDate: int, endDate: int) returns (r: seq<EventEntity>)
      requires Valid()
      ensures Sorted(ByDateThenStartTime, r)
      ensures multiset(r) == multiset(Selected(rows, DateBetween(startDate, endDate)))
    {
      r := Query(DateBetween(startDate, endDate), ByDateThenStartTime);
    }

    /** Scans the table, keeping the rows the filter matches in the given order. */
    method Query(filter: Filter, order: Order) returns (r: seq<EventEntity>)
      requires Valid()
      ensures Sorted(order, r)
      ensures multiset(r) == multiset(Selected(rows, filter))
    {
      r := [];
      var remaining := rows.Keys;
      ghost var done: set<int> := {};
      while remaining != {}
        invariant remaining <= rows.Keys && done == rows.Keys - remaining
        invariant Sorted(order, r)
        invariant multiset(r) == multiset(SelectedAmong(rows, done, filter))
        decreases |remaining|
      {
        var id := PickKey(remaining);
        ScanStep(rows, lastId, done, id, filter, order, r);
        r := Keep(filter, order, r, rows[id]);
        remaining := remaining - {id};
        done := done + {id};
      }
    }

    /**
     * `getDatesWithEvents`: `SELECT DISTINCT date ... WHERE date BETWEEN
     * :startDate AND :endDate`, each such date exactly once, in no promised order.
     */
    method GetDatesWithEvents(startDate: int, endDate: int) returns (r: seq<int>)
      requires Valid()
      ensures multiset(r) == multiset(DatesAmong(rows, rows.Keys, startDate, endDate))
    {
      r := [];
      var remaining := rows.Keys;
      ghost var done: set<int> := {};
      while remaining != {}
        invariant remaining <= rows.Keys && done == rows.Keys - remaining
        invariant multiset(r) == multiset(DatesAmong(rows, done, startDate, endDate))
        decreases |remaining|
      {
        var id := PickKey(remaining);
        var date := rows[id].date;
        DatesStep(rows, done, id, startDate, endDate, r);
        if startDate <= date <= endDate && date !in r {
          r := r + [date];
        }
        remaining := remaining - {id};
        done := done + {id};
      }
    }

    /** `getEventById`: the row with that id, or null when there is none. */
    method GetEventById(eventId: int) returns (r: Option<EventEntity>)
      requires Valid()
      ensures r.Some? <==> eventId in rows
      ensures r.Some? ==> r.value == rows[eventId] && r.value.id == eventId
    {
      if eventId in rows {
        r := Some(rows[eventId]);
      } else {
        r := None;
      }
    }

    /**
     * `insertEvent` with `OnConflictStrategy.REPLACE`: an id of 0 becomes a
     * fresh id above every id ever used; the row replaces any row with the same
     * id and nothing else changes. Returns the row's id.
     */
    method InsertEvent(event: EventEntity) returns (id: int)
      requires Valid()
      modifies this
      ensures Valid()
      ensures id == if event.id == AutoGenerateId then old(lastId) + 1 else event.id
      ensures event.id == AutoGenerateId ==> id !in old(rows)
      ensures rows == old(rows)[id := event.(id := id)]
      ensures lastId == Max(old(lastId), id)
    {
      if event.id == AutoGenerateId {
        id := lastId + 1;
      } else {
        id := event.id;
      }
      rows := rows[id := event.(id := id)];
      lastId := Max(lastId, id);
    }

    /** `updateEvent`: replaces the row with the event's id; without one the table is unchanged. */
    method UpdateEvent(event: EventEntity)
      requires Valid()
      modifies this
      ensures Valid()
      ensures rows == if event.id in old(rows) then old(rows)[event.id := event] else old(rows)
      ensures lastId == old(lastId)
    {
      if event.id in rows {
        rows := rows[event.id := event];
      }
    }

    /** `deleteEvent`: removes the row with the event's id, if there is one. */
    method DeleteEvent(event: EventEntity)
      requires Valid()
      modifies this
      ensures Valid()
      ensures rows == old(rows) - {event.id}
      ensures lastId == old(lastId)
    {
      rows := rows - {event.id};
    }

    /** `deleteAllEvents`: `DELETE FROM events` empties the table; the id counter stays. */
    method DeleteAllEvents()
      requires Valid()
      modifies this
      ensures Valid()
      ensures rows == map[]
      ensures lastId == old(lastId)
    {
      rows := map[];
    }
  }

  /** Taking one more key into the scan adds its row, which was not selected before, when the filter keeps it. */
  lemma SelectStep(table: map<int, EventEntity>, lastId: int, done: set<int>, id: int, filter: Filter)
    requires KeyedById(table, lastId) && id in table && id !in done
    ensures var before := SelectedAmong(table, done, filter);
            && table[id] !in before
            && SelectedAmong(table, done + {id}, filter) ==
               before + (if Matches(filter, table[id]) then {table[id]} else {})
            && multiset(SelectedAmong(table, done + {id}, filter)) ==
               multiset(before) + (if Matches(filter, table[id]) then multiset{table[id]} else multiset{})
  {
    var before := SelectedAmong(table, done, filter);
    assert forall x | x in before :: x.id in done;
  }

  /** Scanning one more key adds its date to the distinct dates exactly when it is in range and not yet listed. */
  lemma DatesStep(table: map<int, EventEntity>, done: set<int>, id: int, startDate: int, endDate: int, dates: seq<int>)
    requires id in table && multiset(dates) == multiset(DatesAmong(table, done, startDate, endDate))
    ensures var date := table[id].date;
            multiset(if startDate <= date <= endDate && date !in dates then dates + [date] else dates) ==
            multiset(DatesAmong(table, done + {id}, startDate, endDate))
  {
    var date := table[id].date;
    assert DatesAmong(table, done + {id}, startDate, endDate) ==
           DatesAmong(table, done, startDate, endDate) + (if startDate <= date <= endDate then {date} else {});
    assert date in dates <==> date in multiset(dates);
  }

  /** An entry occurring at two positions is counted at least twice. */
  lemma RepeatCountsTwice<T>(xs: seq<T>, i: int, j: int)
    requires 0 <= i < j < |xs|
    ensures xs[i] == xs[j] ==> multiset(xs)[xs[j]] >= 2
  {
    assert xs == xs[..j] + [xs[j]] + xs[j + 1..];
    assert xs[..j][i] == xs[i];
    assert multiset(xs) == multiset(xs[..j]) + multiset{xs[j]} + multiset(xs[j + 1..]);
  }

  /** A list holding the elements of a set, as a multiset, repeats none of them. */
  lemma NoRepeats<T>(xs: seq<T>, s: set<T>)
    requires multiset(xs) == multiset(s)
    ensures forall i, j | 0 <= i < j < |xs| :: xs[i] != xs[j]
  {
    forall i, j | 0 <= i < j < |xs|
      ensures xs[i] != xs[j]
    {
      RepeatCountsTwice(xs, i, j);
    }
  }

  /** Deleting an id that has no row leaves the table as it was. */
  lemma DeleteAbsentIsNoOp(table: map<int, EventEntity>, id: int)
    requires id !in table
    ensures table - {id} == table
  {
  }
}
