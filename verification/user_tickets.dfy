/** A user's ticket list (client/src/components/TicketsList.tsx): the
    newest-first order, the guard that hides Respond and Close on closed
    tickets, and the close and response handlers. Each handler yields the
    new view state and the update request it issues, if any; the instant a
    `created` text denotes is a parameter `time`. */
module UserTickets {
  import opened Wrappers
  import opened Domain
  import Sorting
  import Format
  import Validation
  import ValidationFacts
  import ClientTickets

  type ClientTicket = ClientTickets.ClientTicket

  /** Newest first: a rearrangement of the list by non-increasing time. */
  function Newest(ts: seq<ClientTicket>, time: string -> int): (r: seq<ClientTicket>)
    ensures multiset(r) == multiset(ts)
    ensures forall i, j :: 0 <= i < j < |r| ==> time(r[i].created) >= time(r[j].created)
  {
    var key := (t: ClientTicket) => 0 - time(t.created);
    var r := Sorting.SortBy(ts, key);
    assert forall i, j :: 0 <= i < j < |r| ==> key(r[i]) <= key(r[j]);
    r
  }

  /** Respond and Close are offered unless the lower-cased label is "closed". */
  predicate CanAct(t: ClientTicket) {
    Format.ToLower(t.status) != "closed"
  }

  /** On an entry read from the server the guard is exactly "the stored
      status is not closed". */
  lemma {:induction false} CanActBackend(row: Ticket, stamp: int -> string)
    ensures CanAct(ClientTickets.FromBackend(row, stamp)) <==> row.status != Closed
  {
    var e := ClientTickets.FromBackend(row, stamp);
    assert Format.ToLower(e.status) == StatusValue(row.status);
    if row.status != Closed {
      assert StatusValue(row.status)[0] != "closed"[0];
    }
  }

  /** The list's modal state: the ticket being viewed, the response form's
      ticket and draft, the ticket awaiting close confirmation, and the
      ticket whose conversation is open. */
  datatype UserView = UserView(
    selected: Option<ClientTicket>,
    respond: Option<ClientTicket>,
    draft: string,
    closeConfirm: Option<ClientTicket>,
    conversation: Option<ClientTicket>)

  const InitialView := UserView(None, None, "", None, None)

  /** An update the list sends: the ticket id and the fields it carries. */
  datatype Request = Request(id: int, changes: ClientTickets.TicketChanges)

  datatype Step = Step(view: UserView, request: Option<Request>)

  const CloseChanges := ClientTickets.TicketChanges(Some("closed"), None)

  /** The eye button. */
  function Select(v: UserView, t: ClientTicket): (r: UserView)
    ensures r.selected == Some(t) && r.respond == v.respond && r.closeConfirm == v.closeConfirm
  {
    v.(selected := Some(t))
  }

  /** `handleRespond` opens the conversation, not the response form. */
  function HandleRespond(v: UserView, t: ClientTicket): (r: UserView)
    ensures r.conversation == Some(t) && r.respond == v.respond && r.selected == v.selected
  {
    v.(conversation := Some(t))
  }

  /** `handleCloseTicket`: arms confirmation only for an id in the list. */
  function HandleClose(v: UserView, ts: seq<ClientTicket>, id: int): (r: UserView)
    ensures (forall i :: 0 <= i < |ts| ==> ts[i].id != id) ==> r == v
    ensures (exists i :: 0 <= i < |ts| && ts[i].id == id) ==>
      && r.closeConfirm.Some? && r.closeConfirm.value in ts && r.closeConfirm.value.id == id
      && r.selected == v.selected && r.respond == v.respond
  {
    var found := ClientTickets.FindTicket(ts, id);
    if found.Some? then v.(closeConfirm := found) else v
  }

  /** `confirmCloseTicket`: one `{status: "closed"}` update for the armed
      ticket, and the confirmation, the viewed ticket and the response form
      cleared; nothing at all when nothing is armed. */
  function ConfirmClose(v: UserView): (r: Step)
    ensures v.closeConfirm.None? ==> r == Step(v, None)
    ensures v.closeConfirm.Some? ==>
      && r.request == Some(Request(v.closeConfirm.value.id, CloseChanges))
      && r.view.closeConfirm.None? && r.view.selected.None? && r.view.respond.None?
      && r.view.draft == v.draft && r.view.conversation == v.conversation
  {
    if v.closeConfirm.Some? then
      Step(v.(closeConfirm := None, selected := None, respond := None),
           Some(Request(v.closeConfirm.value.id, CloseChanges)))
    else Step(v, None)
  }

  /** `cancelCloseTicket`: disarms and issues nothing. */
  function CancelClose(v: UserView): (r: Step)
    ensures r.request.None? && r.view.closeConfirm.None?
    ensures r.view.selected == v.selected && r.view.respond == v.respond && r.view.draft == v.draft
  {
    Step(v.(closeConfirm := None), None)
  }

  /** `handleSubmitResponse`: for an open response form, one update carrying
      only the draft as `response`, then the form, the viewed ticket and the
      draft reset whatever the outcome; nothing otherwise. */
  function SubmitResponse(v: UserView): (r: Step)
    ensures v.respond.None? ==> r == Step(v, None)
    ensures v.respond.Some? ==>
      && r.request == Some(Request(v.respond.value.id, ClientTickets.TicketChanges(None, Some(v.draft))))
      && r.view.respond.None? && r.view.selected.None? && r.view.draft == ""
      && r.view.closeConfirm == v.closeConfirm
  {
    if v.respond.Some? then
      Step(v.(respond := None, selected := None, draft := ""),
           Some(Request(v.respond.value.id, ClientTickets.TicketChanges(None, Some(v.draft)))))
    else Step(v, None)
  }

  /** Closing a listed ticket: confirming after asking issues the close
      update for it, and once the server agrees every entry with that id is
      labelled closed and offers neither Respond nor Close. */
  lemma {:induction false} CloseFlow(h: ClientTickets.TicketsHook, v: UserView, i: int)
    requires 0 <= i < |h.tickets|
    ensures var id := h.tickets[i].id;
      && ConfirmClose(HandleClose(v, h.tickets, id)).request == Some(Request(id, CloseChanges))
      && var after := ClientTickets.UpdateTicket(h, id, CloseChanges, true).tickets;
         forall k :: 0 <= k < |after| && after[k].id == id ==> !CanAct(after[k])
  {
    var id := h.tickets[i].id;
    var after := ClientTickets.UpdateTicket(h, id, CloseChanges, true).tickets;
    forall k | 0 <= k < |after| && after[k].id == id ensures !CanAct(after[k]) {
      assert h.tickets[k].id == id;
      assert after[k].status == "closed";
      assert Format.ToLower("closed") == "closed";
    }
  }

  /** The close body passes the update-ticket check, while the response body
      does not: `response` is not a declared field, so under the
      whitelisting pipe a submitted response is refused. */
  lemma RequestBodies(draft: string)
    ensures Validation.ValidateUpdateTicket(map["status" := Validation.JString("closed")]).Success?
    ensures Validation.ValidateUpdateTicket(map["response" := Validation.JString(draft)]).Failure?
  {
    ValidationFacts.StatusPatch("closed");
    ValidationFacts.UndeclaredPatchRejected(map["response" := Validation.JString(draft)], "response");
  }

  /** No handler ever opens the response form: starting from the initial
      view, `respond` stays empty, so a response is never submitted. */
  lemma RespondStaysClosed(v: UserView, ts: seq<ClientTicket>, t: ClientTicket, id: int)
    requires v.respond.None?
    ensures Select(v, t).respond.None? && HandleRespond(v, t).respond.None?
    ensures HandleClose(v, ts, id).respond.None?
    ensures ConfirmClose(v).view.respond.None? && CancelClose(v).view.respond.None?
    ensures SubmitResponse(v).view.respond.None? && SubmitResponse(v).request.None?
  {
  }
}
