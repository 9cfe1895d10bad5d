/** The admin's ticket board (client/src/components/AdminTicketsList.tsx):
    the status and priority filters, the four sort modes, the status
    selector, and the delete confirmation. Entries are the list hook's
    entries; the instant a `created` text denotes is a parameter `time`. */
module AdminTickets {
  import opened Wrappers
  import opened Domain
  import Seqs
  import Sorting
  import Format
  import Validation
  import ValidationFacts
  import ClientTickets

  type ClientTicket = ClientTickets.ClientTicket

  /** The filter value that lets everything through; both filters start at it. */
  const All := "all"

  /** High first, then medium, then low. */
  function PriorityOrder(p: Priority): (r: int)
    ensures 0 <= r <= 2
    ensures r == 0 <==> p == High
    ensures r == 2 <==> p == Low
  {
    match p
    case High => 0
    case Medium => 1
    case Low => 2
  }

  /** A ticket passes the filters when each filter is "all" or matches: the
      lower-cased label against the status filter, the priority value
      against the priority filter. */
  predicate Shown(t: ClientTicket, statusFilter: string, priorityFilter: string) {
    && (statusFilter == All || Format.ToLower(t.status) == statusFilter)
    && (priorityFilter == All || PriorityValue(t.priority) == priorityFilter)
  }

  /** The filtered list: exactly the shown tickets, in their original order;
      with both filters at "all" it is the whole list. */
  function FilterTickets(ts: seq<ClientTicket>, statusFilter: string, priorityFilter: string): (r: seq<ClientTicket>)
    ensures Seqs.IsSubsequence(r, ts) && |r| <= |ts|
    ensures forall t :: t in r <==> t in ts && Shown(t, statusFilter, priorityFilter)
    ensures statusFilter == All && priorityFilter == All ==> r == ts
  {
    var p := (t: ClientTicket) => Shown(t, statusFilter, priorityFilter);
    Seqs.FilterIsSubsequence(ts, p);
    assert statusFilter == All && priorityFilter == All ==> Seqs.Filter(ts, p) == ts by {
      if statusFilter == All && priorityFilter == All {
        Seqs.FilterAll(ts, p);
      }
    }
    Seqs.Filter(ts, p)
  }

  /** For an entry mapped from a server row, a status filter other than
      "all" matches exactly the rows stored with that status value. */
  lemma StatusFilterMatchesBackend(row: Ticket, stamp: int -> string, statusFilter: string)
    ensures Shown(ClientTickets.FromBackend(row, stamp), statusFilter, All) <==>
      statusFilter == All || StatusValue(row.status) == statusFilter
  {
  }

  /** The comparator of each mode, as the key an ascending stable sort uses:
      a descending comparator is the ascending one on the negated key, and an
      unrecognised mode sorts like "priority". */
  function SortKey(sortBy: string, time: string -> int): ClientTicket -> int {
    if sortBy == "date-desc" then (t: ClientTicket) => 0 - time(t.created)
    else if sortBy == "date-asc" then (t: ClientTicket) => time(t.created)
    else if sortBy == "priority-desc" then (t: ClientTicket) => 0 - PriorityOrder(t.priority)
    else (t: ClientTicket) => PriorityOrder(t.priority)
  }

  /** Every mode yields a rearrangement of its input, ordered as the mode says. */
  function SortTickets(ts: seq<ClientTicket>, sortBy: string, time: string -> int): (r: seq<ClientTicket>)
    ensures multiset(r) == multiset(ts)
    ensures sortBy == "date-desc" ==>
      forall i, j :: 0 <= i < j < |r| ==> time(r[i].created) >= time(r[j].created)
    ensures sortBy == "date-asc" ==>
      forall i, j :: 0 <= i < j < |r| ==> time(r[i].created) <= time(r[j].created)
    ensures sortBy == "priority-desc" ==>
      forall i, j :: 0 <= i < j < |r| ==> PriorityOrder(r[i].priority) >= PriorityOrder(r[j].priority)
    ensures sortBy !in {"date-desc", "date-asc", "priority-desc"} ==>
      forall i, j :: 0 <= i < j < |r| ==> PriorityOrder(r[i].priority) <= PriorityOrder(r[j].priority)
  {
    var key := SortKey(sortBy, time);
    var r := Sorting.SortBy(ts, key);
    assert forall i, j :: 0 <= i < j < |r| ==> key(r[i]) <= key(r[j]);
    r
  }

  /** The board shows the sorted filtered list: with the default "priority"
      order every high ticket comes before every medium one and every medium
      one before every low one, and no ticket is lost or invented. */
  lemma DefaultBoard(ts: seq<ClientTicket>, time: string -> int)
    ensures var shown := SortTickets(FilterTickets(ts, All, All), "priority", time);
      && multiset(shown) == multiset(ts)
      && forall i, j :: 0 <= i < |shown| && 0 <= j < |shown| && shown[i].priority == High && shown[j].priority != High ==> i < j
  {
  }

  /** The status selector's values. */
  const StatusOptions: seq<string> := ["open", "in progress", "resolved", "closed"]

  /** The selector offers exactly the four stored status values, and the
      `{status}` update each one issues passes the update-ticket check. */
  lemma StatusOptionsAccepted()
    ensures forall v :: v in StatusOptions <==> ParseStatus(v).Some?
    ensures forall i :: 0 <= i < |StatusOptions| ==>
      Validation.ValidateUpdateTicket(map["status" := Validation.JString(StatusOptions[i])]).Success?
  {
    forall v ensures v in StatusOptions <==> ParseStatus(v).Some? {
      if ParseStatus(v).Some? {
        assert StatusValue(ParseStatus(v).value) == v;
      }
    }
    forall i | 0 <= i < |StatusOptions|
      ensures Validation.ValidateUpdateTicket(map["status" := Validation.JString(StatusOptions[i])]).Success?
    {
      ValidationFacts.StatusPatch(StatusOptions[i]);
    }
  }

  /** The board's modal state: the ticket being viewed, the one whose
      conversation is open, and the one awaiting delete confirmation. */
  datatype AdminView = AdminView(
    selected: Option<ClientTicket>,
    conversation: Option<ClientTicket>,
    deleteConfirm: Option<ClientTicket>)

  /** A view change together with the delete request it issues, if any. */
  datatype Step = Step(view: AdminView, deleteRequest: Option<int>)

  /** `handleDeleteTicket`: arms confirmation only for an id in the list. */
  function HandleDelete(v: AdminView, ts: seq<ClientTicket>, id: int): (r: AdminView)
    ensures (forall i :: 0 <= i < |ts| ==> ts[i].id != id) ==> r == v
    ensures (exists i :: 0 <= i < |ts| && ts[i].id == id) ==>
      && r.deleteConfirm.Some? && r.deleteConfirm.value in ts && r.deleteConfirm.value.id == id
      && r.selected == v.selected && r.conversation == v.conversation
  {
    var found := ClientTickets.FindTicket(ts, id);
    if found.Some? then v.(deleteConfirm := found) else v
  }

  /** `confirmDeleteTicket`: one delete for the armed ticket and every modal
      closed; nothing at all when nothing is armed. */
  function ConfirmDelete(v: AdminView): (r: Step)
    ensures v.deleteConfirm.None? ==> r == Step(v, None)
    ensures v.deleteConfirm.Some? ==>
      r.deleteRequest == Some(v.deleteConfirm.value.id) && r.view == AdminView(None, None, None)
  {
    if v.deleteConfirm.Some? then Step(AdminView(None, None, None), Some(v.deleteConfirm.value.id))
    else Step(v, None)
  }

  /** `cancelDeleteTicket`: disarms and issues nothing. */
  function CancelDelete(v: AdminView): (r: Step)
    ensures r.deleteRequest.None? && r.view.deleteConfirm.None?
    ensures r.view.selected == v.selected && r.view.conversation == v.conversation
  {
    Step(v.(deleteConfirm := None), None)
  }

  /** Asking to delete a listed ticket and confirming issues exactly the
      delete for that id; once the server agrees, no entry with the id is
      left and the rest keep their order. Cancelling instead issues nothing. */
  lemma DeleteFlow(h: ClientTickets.TicketsHook, v: AdminView, i: int)
    requires 0 <= i < |h.tickets|
    ensures var id := h.tickets[i].id;
      && ConfirmDelete(HandleDelete(v, h.tickets, id)).deleteRequest == Some(id)
      && CancelDelete(HandleDelete(v, h.tickets, id)).deleteRequest.None?
      && var after := ClientTickets.DeleteTicket(h, id, true).tickets;
         (forall k :: 0 <= k < |after| ==> after[k].id != id) && Seqs.IsSubsequence(after, h.tickets)
  {
  }
}
