/** The help-desk server (backend/mcp-servers/helpdesk.py): tickets kept in
    the hosted "tickets" table, with tools to create, update, delete and list
    them. The table is a value here, its rows in insertion order; every
    failure the database client raises is the `fault` parameter, the
    `uuid4` id and the `utcnow()` reading of a new ticket are parameters. */
module HelpDesk {
  import opened Common
  import opened Text

  /** A row of the table; `createdAt` is the creation time, ordered as the
      ISO timestamps the source stores. */
  datatype Ticket = Ticket(id: string, userName: string, issue: string, priority: string, status: string, createdAt: int)

  const DefaultPriority: string := "medium"
  const OpenStatus: string := "open"

  /** The primary-key violation the table reports for a repeated id. */
  const DuplicateKeyError: string := "duplicate key value violates unique constraint \"tickets_pkey\""

  predicate HasId(t: Ticket, id: string) {
    t.id == id
  }

  predicate IdTaken(table: seq<Ticket>, id: string) {
    exists i :: 0 <= i < |table| && table[i].id == id
  }

  /** The table's primary key: no two rows share an id. */
  predicate UniqueIds(table: seq<Ticket>) {
    forall i, j :: 0 <= i < j < |table| ==> table[i].id != table[j].id
  }

  // ---------------------------------------------------------------------
  // Create
  // ---------------------------------------------------------------------

  datatype CreateOutcome = Created(id: string) | CreateFailed(error: string)

  function CreatedMessage(id: string): string {
    "\U{1F3AB} Ticket created with ID: " + id
  }

  function CreateFailedMessage(e: string): string {
    "\U{26A0}\U{FE0F} Failed to create ticket: " + e
  }

  function CreateReply(o: CreateOutcome): string {
    match o
    case Created(id) => CreatedMessage(id)
    case CreateFailed(e) => CreateFailedMessage(e)
  }

  /** `create_ticket(user_name, issue, priority)`; `priority` is None when
      the argument is omitted. A new open ticket with the lower-cased
      priority is appended, unless the insert fails. */
  function CreateTicket(table: seq<Ticket>, id: string, now: int, userName: string, issue: string,
                        priority: Option<string>, fault: Option<string>): (r: (seq<Ticket>, CreateOutcome))
    ensures fault.Some? ==> r == (table, CreateFailed(fault.value))
    ensures fault.None? && IdTaken(table, id) ==> r == (table, CreateFailed(DuplicateKeyError))
    ensures fault.None? && !IdTaken(table, id) ==>
              && r.1 == Created(id)
              && |r.0| == |table| + 1 && r.0[..|table|] == table
              && r.0[|table|] == Ticket(id, userName, issue,
                                        Lower(if priority.Some? then priority.value else DefaultPriority),
                                        OpenStatus, now)
  {
    if fault.Some? then (table, CreateFailed(fault.value))
    else if IdTaken(table, id) then (table, CreateFailed(DuplicateKeyError))
    else
      var p := if priority.Some? then priority.value else DefaultPriority;
      var t := Ticket(id, userName, issue, Lower(p), OpenStatus, now);
      assert (table + [t])[..|table|] == table;
      (table + [t], Created(id))
  }

  /** Creating keeps the primary key. */
  lemma CreateKeepsUniqueIds(table: seq<Ticket>, id: string, now: int, userName: string, issue: string,
                             priority: Option<string>, fault: Option<string>)
    requires UniqueIds(table)
    ensures UniqueIds(CreateTicket(table, id, now, userName, issue, priority, fault).0)
  {
    var r := CreateTicket(table, id, now, userName, issue, priority, fault).0;
    if fault.None? && !IdTaken(table, id) {
      forall i, j | 0 <= i < j < |r| ensures r[i].id != r[j].id {
        if j == |table| {
          assert r[i] == table[i];
        } else {
          assert r[i] == table[i] && r[j] == table[j];
        }
      }
    }
  }

  // ---------------------------------------------------------------------
  // Update
  // ---------------------------------------------------------------------

  /** The `fields` dictionary of an update: a field is present when its
      argument was truthy. */
  datatype Fields = Fields(issue: Option<string>, priority: Option<string>, status: Option<string>)

  function UpdateFields(issue: Option<string>, priority: Option<string>, status: Option<string>): (f: Fields)
    ensures f.issue.Some? <==> Truthy(issue)
    ensures f.priority.Some? <==> Truthy(priority)
    ensures f.status.Some? <==> Truthy(status)
    ensures f.issue.Some? ==> f.issue.value == issue.value
    ensures f.priority.Some? ==> f.priority.value == Lower(priority.value)
    ensures f.status.Some? ==> f.status.value == Lower(status.value)
  {
    Fields(if Truthy(issue) then issue else None,
           if Truthy(priority) then Some(Lower(priority.value)) else None,
           if Truthy(status) then Some(Lower(status.value)) else None)
  }

  function Apply(t: Ticket, f: Fields): Ticket {
    t.(issue := if f.issue.Some? then f.issue.value else t.issue,
       priority := if f.priority.Some? then f.priority.value else t.priority,
       status := if f.status.Some? then f.status.value else t.status)
  }

  datatype UpdateOutcome = NoFields | Updated(id: string) | UpdateNotFound(id: string) | UpdateFailed(error: string)

  function UpdateReply(o: UpdateOutcome): string {
    match o
    case NoFields => "\U{26A0}\U{FE0F} No fields provided for update."
    case Updated(id) => "\U{2705} Ticket " + id + " updated."
    case UpdateNotFound(id) => "\U{274C} Ticket with ID " + id + " not found."
    case UpdateFailed(e) => "\U{26A0}\U{FE0F} Failed to update ticket: " + e
  }

  /** `update_ticket(ticket_id, issue, priority, status)`: with no truthy
      field nothing is sent; otherwise every row with the id gets the given
      fields and nothing else changes; the reply reports whether a row
      matched. */
  function UpdateTicket(table: seq<Ticket>, id: string, issue: Option<string>, priority: Option<string>,
                        status: Option<string>, fault: Option<string>): (r: (seq<Ticket>, UpdateOutcome))
    ensures !Truthy(issue) && !Truthy(priority) && !Truthy(status) ==> r == (table, NoFields)
    ensures (Truthy(issue) || Truthy(priority) || Truthy(status)) && fault.Some? ==> r == (table, UpdateFailed(fault.value))
    ensures (Truthy(issue) || Truthy(priority) || Truthy(status)) && fault.None? ==>
              && (r.1 == Updated(id) <==> IdTaken(table, id))
              && (r.1 == UpdateNotFound(id) <==> !IdTaken(table, id))
              && |r.0| == |table|
              && (!IdTaken(table, id) ==> r.0 == table)
              && (forall i :: 0 <= i < |table| && table[i].id != id ==> r.0[i] == table[i])
              && (forall i :: 0 <= i < |table| && table[i].id == id ==>
                    r.0[i] == Apply(table[i], UpdateFields(issue, priority, status)))
  {
    var f := UpdateFields(issue, priority, status);
    if f == Fields(None, None, None) then (table, NoFields)
    else if fault.Some? then (table, UpdateFailed(fault.value))
    else
      var rows := seq(|table|, i requires 0 <= i < |table| => if table[i].id == id then Apply(table[i], f) else table[i]);
      (rows, if IdTaken(table, id) then Updated(id) else UpdateNotFound(id))
  }

  /** Updating never touches ids, so it keeps the primary key. */
  lemma UpdateKeepsUniqueIds(table: seq<Ticket>, id: string, issue: Option<string>, priority: Option<string>,
                             status: Option<string>, fault: Option<string>)
    requires UniqueIds(table)
    ensures UniqueIds(UpdateTicket(table, id, issue, priority, status, fault).0)
  {
    var r := UpdateTicket(table, id, issue, priority, status, fault).0;
    assert forall i :: 0 <= i < |r| ==> r[i].id == table[i].id;
  }

  /** Updating with the fields a row already has changes nothing: an update
      is idempotent. */
  lemma UpdateTwice(table: seq<Ticket>, id: string, issue: Option<string>, priority: Option<string>,
                    status: Option<string>)
    ensures var once := UpdateTicket(table, id, issue, priority, status, None).0;
            UpdateTicket(once, id, issue, priority, status, None).0 == once
  {
    var once := UpdateTicket(table, id, issue, priority, status, None).0;
    var twice := UpdateTicket(once, id, issue, priority, status, None).0;
    assert |twice| == |once|;
    forall i | 0 <= i < |once| ensures twice[i] == once[i] {
      LowerIdempotentWhenTruthy(priority);
      LowerIdempotentWhenTruthy(status);
    }
  }

  lemma LowerIdempotentWhenTruthy(s: Option<string>)
    ensures Truthy(s) ==> Lower(Lower(s.value)) == Lower(s.value)
  {
    if Truthy(s) {
      LowerIdempotent(s.value);
    }
  }

  // ---------------------------------------------------------------------
  // Delete
  // ---------------------------------------------------------------------

  datatype DeleteOutcome = Deleted(id: string) | DeleteNotFound(id: string) | DeleteFailed(error: string)

  function DeleteReply(o: DeleteOutcome): string {
    match o
    case Deleted(id) => "\U{1F5D1} Ticket " + id + " deleted."
    case DeleteNotFound(id) => "\U{274C} Ticket with ID " + id + " not found."
    case DeleteFailed(e) => "\U{26A0}\U{FE0F} Failed to delete ticket: " + e
  }

  function Without(table: seq<Ticket>, id: string): seq<Ticket> {
    Filter(table, t => !HasId(t, id))
  }

  /** `delete_ticket(ticket_id)`: the rows with the id are removed and the
      reply says whether there was one. */
  function DeleteTicket(table: seq<Ticket>, id: string, fault: Option<string>): (r: (seq<Ticket>, DeleteOutcome))
    ensures fault.Some? ==> r == (table, DeleteFailed(fault.value))
    ensures fault.None? ==>
              && (forall t :: t in r.0 <==> t in table && t.id != id)
              && (r.1 == Deleted(id) <==> IdTaken(table, id))
              && (r.1 == DeleteNotFound(id) <==> !IdTaken(table, id))
  {
    if fault.Some? then (table, DeleteFailed(fault.value))
    else
      var kept := Without(table, id);
      forall t ensures t in kept <==> t in table && t.id != id {
        FilterMembership(table, t => !HasId(t, id), t);
      }
      (kept, if IdTaken(table, id) then Deleted(id) else DeleteNotFound(id))
  }

  /** Deleting only removes rows, so it keeps the primary key. */
  lemma DeleteKeepsUniqueIds(table: seq<Ticket>, id: string, fault: Option<string>)
    requires UniqueIds(table)
    ensures UniqueIds(DeleteTicket(table, id, fault).0)
  {
    if fault.None? {
      WithoutKeepsUniqueIds(table, id);
    }
  }

  lemma {:induction false} WithoutKeepsUniqueIds(table: seq<Ticket>, id: string)
    requires UniqueIds(table)
    ensures UniqueIds(Without(table, id))
    decreases |table|
  {
    if table != [] {
      var x, tail := table[0], table[1..];
      var rest := Without(tail, id);
      WithoutKeepsUniqueIds(tail, id);
      if !HasId(x, id) {
        forall k | 0 <= k < |rest|
          ensures rest[k].id != x.id
        {
          FilterMembership(tail, t => !HasId(t, id), rest[k]);
        }
        assert Without(table, id) == [x] + rest;
      } else {
        assert Without(table, id) == rest;
      }
    }
  }

  /** Deleting a ticket just created gives back the table as it was. */
  lemma {:induction false} CreateThenDelete(table: seq<Ticket>, id: string, now: int, userName: string, issue: string,
                                            priority: Option<string>)
    requires !IdTaken(table, id)
    ensures var created := CreateTicket(table, id, now, userName, issue, priority, None).0;
            DeleteTicket(created, id, None) == (table, Deleted(id))
  {
    var created := CreateTicket(table, id, now, userName, issue, priority, None).0;
    var t := created[|table|];
    assert created == table + [t];
    WithoutFresh(table, t, id);
    assert IdTaken(created, id) by {
      assert created[|table|].id == id;
    }
  }

  lemma WithoutFresh(table: seq<Ticket>, t: Ticket, id: string)
    requires !IdTaken(table, id) && t.id == id
    ensures Without(table + [t], id) == table
  {
    FilterConcat(table, [t], t => !HasId(t, id));
    FilterAll(table, t => !HasId(t, id));
  }

  // ---------------------------------------------------------------------
  // List
  // ---------------------------------------------------------------------

  /** The filters of `list_tickets`: a truthy user name must match exactly,
      a truthy status must match after lower-casing. */
  predicate Matches(t: Ticket, userName: Option<string>, status: Option<string>) {
    (!Truthy(userName) || t.userName == userName.value)
    && (!Truthy(status) || t.status == Lower(status.value))
  }

  function Query(userName: Option<string>, status: Option<string>): Ticket -> bool {
    t => Matches(t, userName, status)
  }

  /** The rows the query selects, in table order. */
  function Selected(table: seq<Ticket>, userName: Option<string>, status: Option<string>): seq<Ticket> {
    Filter(table, Query(userName, status))
  }

  /** Newest first: `order("created_at", desc=True)`. */
  predicate NewestFirst(rows: seq<Ticket>) {
    forall i, j :: 0 <= i < j < |rows| ==> rows[i].createdAt >= rows[j].createdAt
  }

  /** `t` placed after every row at least as new and before the older ones. */
  function Insert(rows: seq<Ticket>, t: Ticket): (r: seq<Ticket>)
    ensures |r| == |rows| + 1
  {
    if rows == [] || rows[0].createdAt < t.createdAt then [t] + rows
    else [rows[0]] + Insert(rows[1..], t)
  }

  /** Insertion keeps a newest-first list newest first. */
  lemma {:induction false} InsertKeepsOrder(rows: seq<Ticket>, t: Ticket)
    requires NewestFirst(rows)
    ensures NewestFirst(Insert(rows, t))
  {
    if rows == [] || rows[0].createdAt < t.createdAt {
      ConsNewestFirst(t, rows);
    } else {
      var rest := Insert(rows[1..], t);
      InsertKeepsOrder(rows[1..], t);
      InsertHeadBound(rows[1..], t, rows[0].createdAt);
      ConsNewestFirst(rows[0], rest);
    }
  }

  /** Insertion adds exactly the one ticket. */
  lemma {:induction false} InsertAddsOne(rows: seq<Ticket>, t: Ticket)
    ensures multiset(Insert(rows, t)) == multiset(rows) + multiset{t}
  {
    if rows != [] && rows[0].createdAt >= t.createdAt {
      InsertAddsOne(rows[1..], t);
      assert rows == [rows[0]] + rows[1..];
    }
  }

  /** A row at least as new as every row of a newest-first list may lead it. */
  lemma ConsNewestFirst(x: Ticket, rest: seq<Ticket>)
    requires NewestFirst(rest)
    requires forall i :: 0 <= i < |rest| ==> rest[i].createdAt <= x.createdAt
    ensures NewestFirst([x] + rest)
  {
    var r := [x] + rest;
    forall i, j | 0 <= i < j < |r| ensures r[i].createdAt >= r[j].createdAt {
      assert r[j] == rest[j - 1];
      if i > 0 {
        assert r[i] == rest[i - 1];
      }
    }
  }

  /** Every row of an insertion result is at most as new as a bound both
      the inserted ticket and the old rows respect. */
  lemma {:induction false} InsertHeadBound(rows: seq<Ticket>, t: Ticket, bound: int)
    requires forall i :: 0 <= i < |rows| ==> rows[i].createdAt <= bound
    requires t.createdAt <= bound
    ensures forall i :: 0 <= i < |Insert(rows, t)| ==> Insert(rows, t)[i].createdAt <= bound
  {
    if rows != [] && rows[0].createdAt >= t.createdAt {
      InsertHeadBound(rows[1..], t, bound);
    }
  }

  datatype ListOutcome = NoTickets | Tickets(rows: seq<Ticket>) | ListFailed(error: string)

  /** `list_tickets(user_name, status)`: the selected rows, newest first,
      each as often as in the table; an empty selection is reported as such. */
  method ListTickets(table: seq<Ticket>, userName: Option<string>, status: Option<string>, fault: Option<string>)
    returns (out: ListOutcome)
    ensures fault.Some? ==> out == ListFailed(fault.value)
    ensures fault.None? ==> (out == NoTickets <==> Selected(table, userName, status) == [])
    ensures fault.None? && out != NoTickets ==>
              && out.Tickets?
              && NewestFirst(out.rows)
              && multiset(out.rows) == multiset(Selected(table, userName, status))
  {
    if fault.Some? {
      return ListFailed(fault.value);
    }
    var rows: seq<Ticket> := [];
    var i := 0;
    while i < |table|
      invariant 0 <= i <= |table|
      invariant NewestFirst(rows)
      invariant multiset(rows) == multiset(Selected(table[..i], userName, status))
    {
      SelectedStep(table, i, userName, status);
      if Matches(table[i], userName, status) {
        InsertKeepsOrder(rows, table[i]);
        InsertAddsOne(rows, table[i]);
        rows := Insert(rows, table[i]);
      }
      i := i + 1;
    }
    assert table[..|table|] == table;
    assert |rows| == |Selected(table, userName, status)| by {
      assert |multiset(rows)| == |multiset(Selected(table, userName, status))|;
    }
    if rows == [] {
      return NoTickets;
    }
    return Tickets(rows);
  }

  /** The selection of a longer prefix: the next row is appended when it
      passes the filters. */
  lemma SelectedStep(table: seq<Ticket>, i: nat, userName: Option<string>, status: Option<string>)
    requires i < |table|
    ensures Selected(table[..i + 1], userName, status)
            == Selected(table[..i], userName, status) + (if Matches(table[i], userName, status) then [table[i]] else [])
  {
    assert table[..i + 1] == table[..i] + [table[i]];
    FilterConcat(table[..i], [table[i]], Query(userName, status));
  }

  /** A ticket is listed exactly when it is in the table and passes the
      filters. */
  lemma ListedMembership(table: seq<Ticket>, userName: Option<string>, status: Option<string>,
                         rows: seq<Ticket>, t: Ticket)
    requires multiset(rows) == multiset(Selected(table, userName, status))
    ensures t in rows <==> t in table && Matches(t, userName, status)
  {
    assert t in rows <==> t in multiset(rows);
    assert t in Selected(table, userName, status) <==> t in multiset(Selected(table, userName, status));
    FilterMembership(table, Query(userName, status), t);
  }

  /** With no filter every row is selected. */
  lemma UnfilteredSelectsAll(table: seq<Ticket>)
    ensures Selected(table, None, None) == table
  {
    FilterAll(table, Query(None, None));
  }
}
