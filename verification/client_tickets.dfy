/** The client's ticket list hook (client/src/hooks/useTickets.ts): the
    read mapping from server rows to list entries and the local list updates
    made after each request. A request's outcome is a parameter: whether the
    server answered ok and, for a creation, the row it returned. The instant
    rendering behind `created` is a parameter as well. */
module ClientTickets {
  import opened Wrappers
  import opened Domain
  import Seqs
  import Format
  import Validation

  /** A list entry: `subject` and `message` are the server's `title` and
      `description`, `status` is the display label. */
  datatype ClientTicket = ClientTicket(
    id: int,
    subject: string,
    status: string,
    created: string,
    priority: Priority,
    message: string,
    response: Option<string>)

  /** The hook's state. */
  datatype TicketsHook = TicketsHook(tickets: seq<ClientTicket>, loading: bool, error: Option<string>)

  /** The read mapping applied to every fetched row and to a created row. */
  function FromBackend(t: Ticket, stamp: int -> string): (r: ClientTicket)
    ensures r.id == t.id && r.priority == t.priority && r.response == t.response
    ensures r.subject == t.title && r.message == t.description
    ensures r.status == Format.StatusLabel(StatusValue(t.status))
    ensures Format.ToLower(r.status) == StatusValue(t.status)
  {
    Format.StatusLabelRoundTrip(t.status);
    ClientTicket(t.id, t.title, Format.StatusLabel(StatusValue(t.status)), stamp(t.createdAt),
                 t.priority, t.description, t.response)
  }

  /** The initial fetch: every row mapped, in the server's order; a failed
      fetch leaves the list empty and records the error. */
  function Loaded(rows: Option<seq<Ticket>>, stamp: int -> string): (r: TicketsHook)
    ensures !r.loading
    ensures rows.None? ==> r.tickets == [] && r.error == Some("Failed to fetch tickets")
    ensures rows.Some? ==> |r.tickets| == |rows.value| && r.error.None?
    ensures rows.Some? ==> forall i :: 0 <= i < |rows.value| ==> r.tickets[i] == FromBackend(rows.value[i], stamp)
  {
    if rows.None? then TicketsHook([], false, Some("Failed to fetch tickets"))
    else TicketsHook(MapAll(rows.value, stamp), false, None)
  }

  function MapAll(rows: seq<Ticket>, stamp: int -> string): (r: seq<ClientTicket>)
    ensures |r| == |rows|
    ensures forall i :: 0 <= i < |rows| ==> r[i] == FromBackend(rows[i], stamp)
  {
    if |rows| == 0 then [] else [FromBackend(rows[0], stamp)] + MapAll(rows[1..], stamp)
  }

  /** `find` by id: the first entry with that id, if any. */
  function FindTicket(ts: seq<ClientTicket>, id: int): (r: Option<ClientTicket>)
    ensures r.None? <==> forall i :: 0 <= i < |ts| ==> ts[i].id != id
    ensures r.Some? ==> r.value in ts && r.value.id == id
  {
    if |ts| == 0 then None
    else if ts[0].id == id then Some(ts[0])
    else FindTicket(ts[1..], id)
  }

  /** `deleteTicket`: after an ok reply every entry with that id is gone and
      the others stay in order; otherwise the list is kept and the error set. */
  function DeleteTicket(h: TicketsHook, id: int, ok: bool): (r: TicketsHook)
    ensures ok ==> forall i :: 0 <= i < |r.tickets| ==> r.tickets[i].id != id
    ensures ok ==> forall t :: t in r.tickets <==> t in h.tickets && t.id != id
    ensures ok ==> Seqs.IsSubsequence(r.tickets, h.tickets) && r.error == h.error
    ensures !ok ==> r.tickets == h.tickets && r.error == Some("Failed to delete ticket")
    ensures r.loading == h.loading
  {
    if !ok then h.(error := Some("Failed to delete ticket"))
    else
      var p := (t: ClientTicket) => t.id != id;
      Seqs.FilterIsSubsequence(h.tickets, p);
      h.(tickets := Seqs.Filter(h.tickets, p))
  }

  /** The fields an update may carry, each present or not. */
  datatype TicketChanges = TicketChanges(status: Option<string>, response: Option<string>)

  /** `{ ...t, ...updates }`: the given fields overwrite, the rest stay. */
  function Merge(t: ClientTicket, u: TicketChanges): (r: ClientTicket)
    ensures r.id == t.id && r.subject == t.subject && r.created == t.created
    ensures r.priority == t.priority && r.message == t.message
    ensures r.status == (if u.status.Some? then u.status.value else t.status)
    ensures r.response == (if u.response.Some? then u.response else t.response)
  {
    var withStatus := if u.status.Some? then t.(status := u.status.value) else t;
    if u.response.Some? then withStatus.(response := u.response) else withStatus
  }

  function MergeWhere(ts: seq<ClientTicket>, id: int, u: TicketChanges): (r: seq<ClientTicket>)
    ensures |r| == |ts|
    ensures forall i :: 0 <= i < |ts| ==> r[i] == if ts[i].id == id then Merge(ts[i], u) else ts[i]
  {
    if |ts| == 0 then []
    else [if ts[0].id == id then Merge(ts[0], u) else ts[0]] + MergeWhere(ts[1..], id, u)
  }

  /** `updateTicket`: after an ok reply the list keeps its length and order,
      entries with that id become the merge of the entry and the changes,
      the others are unchanged, and the error is left as it was; otherwise
      the list is kept and the error set. The loading flag is never
      touched. */
  function UpdateTicket(h: TicketsHook, id: int, u: TicketChanges, ok: bool): (r: TicketsHook)
    ensures |r.tickets| == |h.tickets|
    ensures ok ==> forall i :: 0 <= i < |h.tickets| && h.tickets[i].id != id ==> r.tickets[i] == h.tickets[i]
    ensures ok ==> forall i :: 0 <= i < |h.tickets| && h.tickets[i].id == id ==> r.tickets[i] == Merge(h.tickets[i], u)
    ensures ok ==> r.error == h.error
    ensures !ok ==> r.tickets == h.tickets && r.error == Some("Failed to update ticket")
    ensures r.loading == h.loading
  {
    if !ok then h.(error := Some("Failed to update ticket"))
    else h.(tickets := MergeWhere(h.tickets, id, u))
  }

  /** What the creation form supplies, each field present or not. */
  datatype TicketDraft = TicketDraft(subject: Option<string>, message: Option<string>,
                                     status: Option<string>, priority: Option<string>)

  /** The creation body: `subject` sent as `title`, `message` as
      `description`; fields left undefined are dropped by `JSON.stringify`. */
  function CreateBody(d: TicketDraft): (b: Validation.Body)
    ensures "title" in b <==> d.subject.Some?
    ensures "description" in b <==> d.message.Some?
    ensures "status" in b <==> d.status.Some?
    ensures "priority" in b <==> d.priority.Some?
    ensures d.subject.Some? ==> b["title"] == Validation.JString(d.subject.value)
    ensures d.message.Some? ==> b["description"] == Validation.JString(d.message.value)
    ensures b.Keys <= {"title", "description", "status", "priority"}
  {
    var b0: Validation.Body := map[];
    var b1 := if d.subject.Some? then b0["title" := Validation.JString(d.subject.value)] else b0;
    var b2 := if d.message.Some? then b1["description" := Validation.JString(d.message.value)] else b1;
    var b3 := if d.status.Some? then b2["status" := Validation.JString(d.status.value)] else b2;
    if d.priority.Some? then b3["priority" := Validation.JString(d.priority.value)] else b3
  }

  datatype CreateOutcome = CreateOutcome(hook: TicketsHook, returned: Option<Ticket>)

  /** `createTicket`: a created row is appended once, at the end, mapped like
      a fetched one, and returned; a failure keeps the list, sets the error
      and returns null. Loading is over either way. */
  function CreateTicket(h: TicketsHook, reply: Option<Ticket>, stamp: int -> string): (r: CreateOutcome)
    ensures !r.hook.loading
    ensures reply.Some? ==> r.hook.tickets == h.tickets + [FromBackend(reply.value, stamp)]
    ensures reply.Some? ==> r.hook.error.None? && r.returned == reply
    ensures reply.None? ==> r.hook.tickets == h.tickets && r.hook.error == Some("Failed to create ticket")
    ensures reply.None? ==> r.returned.None?
  {
    if reply.None? then CreateOutcome(TicketsHook(h.tickets, false, Some("Failed to create ticket")), None)
    else CreateOutcome(TicketsHook(h.tickets + [FromBackend(reply.value, stamp)], false, None), reply)
  }

  /** Under the whitelisting pipe a creation body is accepted exactly when
      it is the subject and message alone, within the create-ticket bounds. */
  lemma {:induction false} CreateBodyAccepted(d: TicketDraft)
    ensures Validation.ValidateCreateTicket(CreateBody(d)).Success? <==>
      && d.subject.Some? && d.message.Some? && d.status.None? && d.priority.None?
      && Validation.ValidCreateTicket(Validation.CreateTicketDto(d.subject.value, d.message.value))
  {
    var b := CreateBody(d);
    var r := Validation.ValidateCreateTicket(b);
    if r.Success? {
      assert Validation.EncodeCreateTicket(r.value) == b;
      assert b.Keys == {"title", "description"};
      assert r.value == Validation.CreateTicketDto(d.subject.value, d.message.value);
    }
    if d.subject.Some? && d.message.Some? && d.status.None? && d.priority.None? {
      var dto := Validation.CreateTicketDto(d.subject.value, d.message.value);
      assert Validation.EncodeCreateTicket(dto) == b;
    }
  }

  /** When the server echoes the submitted title and description, the new
      entry shows the subject and message that were typed. */
  lemma CreatedEntryEchoesDraft(h: TicketsHook, d: TicketDraft, row: Ticket, stamp: int -> string)
    requires d.subject == Some(row.title) && d.message == Some(row.description)
    ensures var entry := CreateTicket(h, Some(row), stamp).hook.tickets[|h.tickets|];
      Some(entry.subject) == d.subject && Some(entry.message) == d.message
  {
  }
}
