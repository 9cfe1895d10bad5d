/** The Spring workflow service (BackendTicketSupport/src/main/java/
    SpringBoot/BackendTicketSupport/TicketWorkflowService.java): a status
    update writes the ticket and appends one history row signed by the
    system user. Only the sequential effect is modelled; the asynchronous
    runner and its sleeps are not. Statuses are the same strings the Node
    server stores. */
module Workflow {
  import opened Wrappers
  import opened Domain

  const SystemUserId: int := 1
  const SystemNote := "Automatic workflow update by system"

  /** A `ticket_status_history` row as the workflow writes it; `changedAt` is
      the clock reading passed in. */
  datatype HistoryRow = HistoryRow(
    ticketId: int,
    oldStatus: string,
    newStatus: string,
    changedAt: int,
    notes: string,
    changedById: int)

  /** Ticket statuses by id, and the history table in insertion order. */
  datatype State = State(tickets: map<int, string>, history: seq<HistoryRow>)

  /** `updateStatus`: nothing at all for an unknown ticket; otherwise the
      ticket takes the new status, no other ticket changes, and exactly one
      row recording the change is appended, even when the status is unchanged. */
  function UpdateStatus(st: State, ticketId: int, newStatus: string, now: int): (r: State)
    ensures ticketId !in st.tickets ==> r == st
    ensures ticketId in st.tickets ==> ticketId in r.tickets && r.tickets[ticketId] == newStatus
    ensures r.tickets.Keys == st.tickets.Keys
    ensures forall id :: id in st.tickets && id != ticketId ==> r.tickets[id] == st.tickets[id]
    ensures ticketId in st.tickets ==>
      && |r.history| == |st.history| + 1
      && r.history[..|st.history|] == st.history
      && r.history[|st.history|].ticketId == ticketId
      && r.history[|st.history|].oldStatus == st.tickets[ticketId]
      && r.history[|st.history|].newStatus == newStatus
      && r.history[|st.history|].notes == SystemNote
      && r.history[|st.history|].changedById == SystemUserId
  {
    if ticketId !in st.tickets then st
    else
      var oldStatus := st.tickets[ticketId];
      var row := HistoryRow(ticketId, oldStatus, newStatus, now, SystemNote, SystemUserId);
      State(st.tickets[ticketId := newStatus], st.history + [row])
  }

  /** The sequential effect of `processTicket`: "in progress", then "resolved". */
  function ProcessTicket(st: State, ticketId: int, first: int, second: int): (r: State)
    ensures ticketId !in st.tickets ==> r == st
    ensures ticketId in st.tickets ==>
      && ticketId in r.tickets && r.tickets[ticketId] == StatusValue(Resolved)
      && |r.history| == |st.history| + 2
      && r.history[..|st.history|] == st.history
      && r.history[|st.history|].oldStatus == st.tickets[ticketId]
      && r.history[|st.history|].newStatus == StatusValue(InProgress)
      && r.history[|st.history| + 1].oldStatus == StatusValue(InProgress)
      && r.history[|st.history| + 1].newStatus == StatusValue(Resolved)
    ensures forall id :: id in st.tickets && id != ticketId ==> id in r.tickets && r.tickets[id] == st.tickets[id]
  {
    var mid := UpdateStatus(st, ticketId, "in progress", first);
    var r := UpdateStatus(mid, ticketId, "resolved", second);
    assert r.history[..|st.history|] == mid.history[..|st.history|];
    r
  }

  /** The newest status recorded for a ticket, if any row concerns it. */
  function LastRecorded(h: seq<HistoryRow>, ticketId: int): (r: Option<string>)
    ensures r.None? <==> forall i :: 0 <= i < |h| ==> h[i].ticketId != ticketId
    ensures r.Some? ==> exists i :: 0 <= i < |h| && h[i].ticketId == ticketId && h[i].newStatus == r.value
  {
    if |h| == 0 then None
    else if h[|h| - 1].ticketId == ticketId then Some(h[|h| - 1].newStatus)
    else
      var rest := LastRecorded(h[..|h| - 1], ticketId);
      assert forall i :: 0 <= i < |h| - 1 ==> h[..|h| - 1][i] == h[i];
      rest
  }

  /** The history agrees with the tickets: where a ticket has rows, the
      newest one records its current status. */
  predicate Agrees(st: State) {
    forall id :: id in st.tickets && LastRecorded(st.history, id).Some? ==>
      LastRecorded(st.history, id).value == st.tickets[id]
  }

  /** `updateStatus` keeps the history in agreement with the tickets, and the
      row it appends continues the ticket's recorded chain: its old status is
      the newest status recorded before. */
  lemma {:induction false} UpdateStatusAgrees(st: State, ticketId: int, newStatus: string, now: int)
    requires Agrees(st)
    ensures Agrees(UpdateStatus(st, ticketId, newStatus, now))
    ensures ticketId in st.tickets && LastRecorded(st.history, ticketId).Some? ==>
      UpdateStatus(st, ticketId, newStatus, now).history[|st.history|].oldStatus == LastRecorded(st.history, ticketId).value
  {
    var r := UpdateStatus(st, ticketId, newStatus, now);
    if ticketId in st.tickets {
      forall id | id in r.tickets && LastRecorded(r.history, id).Some?
        ensures LastRecorded(r.history, id).value == r.tickets[id]
      {
        assert r.history[..|r.history| - 1] == st.history;
        if id != ticketId {
          assert LastRecorded(r.history, id) == LastRecorded(st.history, id);
        }
      }
    }
  }

  /** From a state where history and tickets agree, processing a ticket
      leaves them agreeing, with "resolved" the newest row for it. */
  lemma ProcessTicketAgrees(st: State, ticketId: int, first: int, second: int)
    requires Agrees(st) && ticketId in st.tickets
    ensures Agrees(ProcessTicket(st, ticketId, first, second))
    ensures LastRecorded(ProcessTicket(st, ticketId, first, second).history, ticketId) == Some(StatusValue(Resolved))
  {
    var mid := UpdateStatus(st, ticketId, "in progress", first);
    UpdateStatusAgrees(st, ticketId, "in progress", first);
    UpdateStatusAgrees(mid, ticketId, "resolved", second);
  }
}
