/** The event endpoints (backend/handlers/events.go). Dates are compared as
    the text the database stores, except against a bound that reads as a
    number. The event query names a `family_id`
    column that the `Event` model does not declare; on a table without it
    the query fails. */
module EventHandlers {
  import opened Common
  import opened ServerModels
  import opened Store
  import opened Sql

  /** The rows `GetEvents` shows the caller: live, and either the caller's
      own event outside any family or a system event of anyone's. */
  predicate VisibleTo(row: EventRow, caller: string)
  {
    row.event.Live() && ((row.event.userId == caller && row.Personal()) || row.event.isSystem)
  }

  /** The range applies only when both ends are given, and includes both. */
  predicate InRange(row: EventRow, start: string, end: string)
  {
    start != "" && end != "" ==> Between(row.event.date, start, end)
  }

  predicate Shown(row: EventRow, caller: string, start: string, end: string)
  {
    VisibleTo(row, caller) && InRange(row, start, end)
  }

  function ShownBy(caller: string, start: string, end: string): (p: EventRow -> bool)
    ensures forall row :: p(row) <==> Shown(row, caller, start, end)
  {
    (row: EventRow) => Shown(row, caller, start, end)
  }

  function VisibleBy(caller: string): (p: EventRow -> bool)
    ensures forall row :: p(row) <==> VisibleTo(row, caller)
  {
    (row: EventRow) => VisibleTo(row, caller)
  }

  function InRangeBy(start: string, end: string): (p: EventRow -> bool)
    ensures forall row :: p(row) <==> Between(row.event.date, start, end)
  {
    (row: EventRow) => Between(row.event.date, start, end)
  }

  /** The events of some rows, in order. */
  function EventsOf(rows: seq<EventRow>): (r: seq<Event>)
    ensures |r| == |rows| && forall i :: 0 <= i < |rows| ==> r[i] == rows[i].event
  {
    seq(|rows|, i requires 0 <= i < |rows| => rows[i].event)
  }

  /** What `GetEvents` answers, stated as one filter in table order: one
      entry per shown row, with no ORDER BY. */
  function EventsFor(d: DbState, caller: string, start: string, end: string): (r: Response<seq<Event>>)
    ensures !d.eventsHaveFamilyColumn <==> r == Err(500, "Failed to fetch events")
    ensures r.Ok? ==> r.status == 200
    ensures r.Ok? ==>
      forall e :: e in r.value <==> exists row :: row in d.events && row.event == e && Shown(row, caller, start, end)
    ensures r.Ok? ==> r.value == EventsOf(Filter(d.events, ShownBy(caller, start, end)))
  {
    if !d.eventsHaveFamilyColumn then Err(500, "Failed to fetch events")
    else
      var rows := Filter(d.events, ShownBy(caller, start, end));
      var events := EventsOf(rows);
      assert forall e :: e in events <==> exists row :: row in rows && row.event == e by {
        forall e | e in events ensures exists row :: row in rows && row.event == e {
          var i :| 0 <= i < |events| && events[i] == e;
          assert rows[i] in rows;
        }
        forall e | exists row :: row in rows && row.event == e ensures e in events {
          var row :| row in rows && row.event == e;
          var i :| 0 <= i < |rows| && rows[i] == row;
          assert events[i] == e;
        }
      }
      Ok(200, events)
  }

  /** `GetEvents`: the visibility condition, then the range when both ends
      are given. */
  method GetEvents(db: Database, caller: string, start: string, end: string) returns (r: Response<seq<Event>>)
    ensures r == EventsFor(db.State(), caller, start, end)
  {
    var query := Filter(db.events, VisibleBy(caller));
    if start != "" && end != "" {
      FilterFilter(db.events, VisibleBy(caller), InRangeBy(start, end), ShownBy(caller, start, end));
      query := Filter(query, InRangeBy(start, end));
    } else {
      FilterCongruent(db.events, VisibleBy(caller), ShownBy(caller, start, end));
    }
    if !db.eventsHaveFamilyColumn {
      return Err(500, "Failed to fetch events");
    }
    r := Ok(200, EventsOf(query));
  }

  /** A range with equal ends shows exactly the visible events whose stored
      date text equals the bound, and none when the bound reads as a
      number. */
  lemma OneDayRange(d: DbState, caller: string, day: string)
    requires d.eventsHaveFamilyColumn && day != ""
    ensures forall e :: e in EventsFor(d, caller, day, day).value <==>
      exists row :: row in d.events && row.event == e && VisibleTo(row, caller) && e.date == day && !NumericText(day)
  {
    forall row: EventRow ensures Between(row.event.date, day, day) <==> row.event.date == day && !NumericText(day) {
      BetweenPoint(row.event.date, day);
    }
  }

  /** So a bound of a different length from the stored dates, such as a date
      without the time and offset that every stored date carries, shows no
      event even on the day it names. */
  lemma {:induction false} DateOnlyBoundShowsNothing(d: DbState, caller: string, day: string)
    requires d.eventsHaveFamilyColumn && day != ""
    requires forall row :: row in d.events ==> |row.event.date| != |day|
    ensures EventsFor(d, caller, day, day).value == []
  {
    forall row | row in d.events
      ensures !Shown(row, caller, day, day)
    {
      BetweenPoint(row.event.date, day);
    }
    FilterNone(d.events, ShownBy(caller, day, day));
  }

  /** The event `CreateEvent` inserts: the body with the caller as owner,
      whatever the body said; every other field, `isSystem` included, is
      taken as sent. */
  function Incoming(body: Event, caller: string): (e: Event)
    ensures e.userId == caller && e.(userId := body.userId) == body
  {
    body.(userId := caller)
  }

  /** `CreateEvent`. A decoded body never carries a deletion time, since
      `DeletedAt` is not read from JSON. */
  function CreateOutcome(d: DbState, caller: string, body: Body<Event>, now: Time): (r: Outcome<Event>)
    requires body.Parsed? ==> body.value.deletedAt.None?
    ensures body.Malformed? ==> r == Outcome(Err(400, body.message), d)
    ensures r.response.Ok? <==>
      body.Parsed? && (if body.value.id == 0 then NextEventId(d.events) <= MaxRowId
                       else forall x :: x in d.events ==> x.event.id != body.value.id)
    ensures body.Parsed? && r.response.Err? ==> r == Outcome(Err(500, "Failed to create event"), d)
    ensures r.response.Ok? ==>
      var stored := StoredEvent(d.events, Incoming(body.value, caller), now);
      r.response == Ok(201, stored) && r.db == d.(events := d.events + [EventRow(stored, None)])
      && stored.userId == caller && stored.isSystem == body.value.isSystem && stored.Live()
  {
    match body
    case Malformed(message) => Outcome(Err(400, message), d)
    case Parsed(b) =>
      var e := Incoming(b, caller);
      match InsertEvent(d.events, e, now)
      case None => Outcome(Err(500, "Failed to create event"), d)
      case Some(events) => Outcome(Ok(201, StoredEvent(d.events, e, now)), d.(events := events))
  }

  /** Any caller may mark an event as a system event, and such an event is
      then shown to every user. */
  lemma ClientSystemEventShownToAll(d: DbState, author: string, body: Event, now: Time, reader: string)
    requires body.deletedAt.None? && body.isSystem
    requires d.eventsHaveFamilyColumn
    requires CreateOutcome(d, author, Parsed(body), now).response.Ok?
    ensures var after := CreateOutcome(d, author, Parsed(body), now);
      after.response.value in EventsFor(after.db, reader, "", "").value
  {
    var after := CreateOutcome(d, author, Parsed(body), now);
    var row := EventRow(after.response.value, None);
    assert row in after.db.events && Shown(row, reader, "", "");
  }

  /** `DeleteEvent`: marks the caller's live event with that id, and
      answers success whether or not there was one. */
  function DeleteOutcome(d: DbState, caller: string, id: nat, now: Time): (r: Outcome<string>)
    ensures r.response == Ok(200, "Event deleted")
    ensures |r.db.events| == |d.events| && r.db == d.(events := r.db.events)
    ensures forall i :: 0 <= i < |d.events| && (d.events[i].event.id != id || d.events[i].event.userId != caller) ==>
      r.db.events[i] == d.events[i]
    ensures forall i :: 0 <= i < |d.events| && d.events[i].event.id == id && d.events[i].event.userId == caller ==>
      r.db.events[i] == if d.events[i].event.Live() then d.events[i].(event := d.events[i].event.(deletedAt := Some(now)))
                        else d.events[i]
  {
    Outcome(Ok(200, "Event deleted"), d.(events := SoftDeleteEvents(d.events, id, caller, now)))
  }

  /** Deleting leaves every row of other users, their system events
      among them, in the table unchanged. */
  lemma DeleteSparesOthers(d: DbState, caller: string, id: nat, now: Time, row: EventRow)
    requires row in d.events && row.event.userId != caller
    ensures row in DeleteOutcome(d, caller, id, now).db.events
  {
    var i :| 0 <= i < |d.events| && d.events[i] == row;
    assert DeleteOutcome(d, caller, id, now).db.events[i] == row;
  }

  /** `CreateEvent` against the live database. */
  method CreateEvent(db: Database, caller: string, body: Body<Event>, now: Time) returns (r: Response<Event>)
    requires body.Parsed? ==> body.value.deletedAt.None?
    modifies db
    ensures Outcome(r, db.State()) == CreateOutcome(old(db.State()), caller, body, now)
  {
    if body.Malformed? {
      return Err(400, body.message);
    }
    var e := body.value.(userId := caller);
    var stored := StoredEvent(db.events, e, now);
    var created := db.CreateEvent(e, now);
    if !created {
      return Err(500, "Failed to create event");
    }
    r := Ok(201, stored);
  }

  /** `DeleteEvent` against the live database. */
  method DeleteEvent(db: Database, caller: string, id: nat, now: Time) returns (r: Response<string>)
    modifies db
    ensures Outcome(r, db.State()) == DeleteOutcome(old(db.State()), caller, id, now)
  {
    db.DeleteEvents(id, caller, now);
    r := Ok(200, "Event deleted");
  }
}
