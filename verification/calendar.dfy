/** The calendar server (backend/mcp-servers/calender.py): a list of events
    kept in a JSON file, with tools to list, add, delete by id, clear, and
    list the recurring ones. The list is a value here; every tool returns
    the new list with its reply. Reading and writing the JSON file is not
    modelled, and the `uuid4` id of a new event is a parameter. */
module Calendar {
  import opened Common
  import opened Text

  /** An event; `recurrence` is None when the event dictionary has no
      "recurrence" key. */
  datatype Event = Event(id: string, title: string, start: string, end: string, recurrence: Option<string>)

  /** A tool's reply and the event list after it. */
  datatype Reply = Reply(events: seq<Event>, message: string)

  function AddedMessage(title: string): string {
    "\U{2705} Event '" + title + "' added."
  }

  function NotFoundMessage(id: string): string {
    "\U{26A0}\U{FE0F} No event found with ID " + id + "."
  }

  function DeletedMessage(id: string): string {
    "\U{1F5D1} Event with ID " + id + " deleted."
  }

  const ClearedMessage: string := "\U{1F9F9} All events cleared."

  /** `list_events()`: the stored list as it is. */
  function ListEvents(events: seq<Event>): (r: seq<Event>)
    ensures r == events
  {
    events
  }

  /** `add_event(title, start, end, recurrence)` with the fresh id `id`:
      the new event goes last; a recurrence is stored lower-cased and only
      when it is truthy. */
  function AddEvent(events: seq<Event>, id: string, title: string, start: string, end: string,
                    recurrence: Option<string>): (r: Reply)
    ensures |r.events| == |events| + 1 && r.events[..|events|] == events
    ensures var e := r.events[|events|];
            e.id == id && e.title == title && e.start == start && e.end == end
            && (e.recurrence.Some? <==> Truthy(recurrence))
            && (Truthy(recurrence) ==> e.recurrence.value == Lower(recurrence.value))
    ensures r.message == AddedMessage(title)
  {
    var rec := if Truthy(recurrence) then Some(Lower(recurrence.value)) else None;
    Reply(events + [Event(id, title, start, end, rec)], AddedMessage(title))
  }

  predicate HasId(e: Event, id: string) {
    e.id == id
  }

  /** The events `delete_event(id)` keeps. */
  function Without(events: seq<Event>, id: string): seq<Event> {
    Filter(events, e => !HasId(e, id))
  }

  /** `delete_event(id)`: every event with that id is removed, the others
      keep their order; the reply reports a deletion exactly when the
      length changed. */
  function DeleteEvent(events: seq<Event>, id: string): (r: Reply)
    ensures forall e :: e in r.events <==> e in events && e.id != id
    ensures |r.events| <= |events|
    ensures (exists i :: 0 <= i < |events| && events[i].id == id) <==> r.message == DeletedMessage(id)
    ensures !(exists i :: 0 <= i < |events| && events[i].id == id) <==> r.message == NotFoundMessage(id)
  {
    var kept := Without(events, id);
    forall e ensures e in kept <==> e in events && e.id != id {
      FilterMembership(events, e => !HasId(e, id), e);
    }
    FilterKeepsLength(events, e => !HasId(e, id));
    assert DeletedMessage(id)[0] != NotFoundMessage(id)[0];
    Reply(kept, if |kept| == |events| then NotFoundMessage(id) else DeletedMessage(id))
  }

  /** `clear_all_events()`. */
  function ClearAllEvents(events: seq<Event>): (r: Reply)
    ensures r.events == [] && r.message == ClearedMessage
  {
    Reply([], ClearedMessage)
  }

  predicate IsRecurring(e: Event) {
    e.recurrence.Some?
  }

  /** `get_recurring_events()`: the events that carry a recurrence, in order. */
  function RecurringEvents(events: seq<Event>): (r: seq<Event>)
    ensures forall i :: 0 <= i < |r| ==> r[i].recurrence.Some?
  {
    Filter(events, IsRecurring)
  }

  /** An event is listed as recurring exactly when it is stored and has a
      recurrence. */
  lemma RecurringMembership(events: seq<Event>, e: Event)
    ensures e in RecurringEvents(events) <==> e in events && e.recurrence.Some?
  {
    FilterMembership(events, IsRecurring, e);
  }

  /** Adding an event with a truthy recurrence appends it to the recurring
      list; adding one without leaves that list as it was. */
  lemma AddEventRecurring(events: seq<Event>, id: string, title: string, start: string, end: string,
                          recurrence: Option<string>)
    ensures var r := AddEvent(events, id, title, start, end, recurrence);
            RecurringEvents(r.events)
            == RecurringEvents(events) + (if Truthy(recurrence) then [r.events[|events|]] else [])
  {
    var r := AddEvent(events, id, title, start, end, recurrence);
    assert r.events == events + [r.events[|events|]];
    FilterConcat(events, [r.events[|events|]], IsRecurring);
  }

  /** Deleting the id of an event just added, when no other event has that
      id, gives back the list as it was before. */
  lemma {:induction false} AddThenDelete(events: seq<Event>, id: string, title: string, start: string, end: string,
                                         recurrence: Option<string>)
    requires forall i :: 0 <= i < |events| ==> events[i].id != id
    ensures DeleteEvent(AddEvent(events, id, title, start, end, recurrence).events, id)
            == Reply(events, DeletedMessage(id))
  {
    var added := AddEvent(events, id, title, start, end, recurrence).events;
    assert added == events + [added[|events|]];
    FilterConcat(events, [added[|events|]], e => !HasId(e, id));
    FilterAll(events, e => !HasId(e, id));
    assert Without(added, id) == events;
    assert added[|events|].id == id;
  }

  /** Deleting twice is deleting once, and the second time reports that
      nothing was found. */
  lemma DeleteTwice(events: seq<Event>, id: string)
    ensures var once := DeleteEvent(events, id).events;
            DeleteEvent(once, id) == Reply(once, NotFoundMessage(id))
  {
    var once := DeleteEvent(events, id).events;
    assert once == Without(events, id);
    FilterAll(once, e => !HasId(e, id));
  }
}
