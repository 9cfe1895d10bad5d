/** The tickets endpoints (server/src/tickets/tickets.controller.ts). The
    tickets service behind them is not part of this model: each handler is
    modelled by the service call it makes, or by its refusal. Path ids
    arrive as integers and are handed on as their decimal strings. Only the
    listing is given a meaning: the model's reading of the service. */
module TicketsController {
  import opened Wrappers
  import opened Domain
  import opened Sessions
  import Seqs
  import Validation
  import Numbers

  /** The service call a handler makes, with its arguments. */
  datatype ServiceCall =
    | CreateCall(ticket: Validation.CreateTicketDto, actingUser: int)
    | FindAllCall
    | FindAllForUserCall(owner: int)
    | FindOneCall(id: string)
    | UpdateCall(id: string, changes: Validation.UpdateTicketDto, actingUser: int)
    | HistoryCall(id: string)
    | SuggestionCall(id: string)
    | RemoveCall(id: string)

  /** A handler either refuses with 401 "Not authenticated" or calls the service. */
  datatype Dispatch = Unauthorized | Calls(call: ServiceCall)

  const NotAuthenticated := "Not authenticated"

  /** `POST /tickets`: only for a signed-in session, which becomes the acting user. */
  function Create(s: Session, dto: Validation.CreateTicketDto): (r: Dispatch)
    ensures r.Unauthorized? <==> !SignedIn(s)
    ensures r.Calls? ==> r.call.CreateCall? && r.call.ticket == dto && r.call.actingUser == s.userId.value
  {
    if !SignedIn(s) then Unauthorized else Calls(CreateCall(dto, s.userId.value))
  }

  /** `GET /tickets`: every ticket for the admin role, the caller's own for
      any other role. */
  function FindAll(s: Session): (r: Dispatch)
    ensures r.Unauthorized? <==> !SignedIn(s)
    ensures SignedIn(s) && s.userRole == Some(RoleAdmin) ==> r == Calls(FindAllCall)
    ensures SignedIn(s) && s.userRole != Some(RoleAdmin) ==> r == Calls(FindAllForUserCall(s.userId.value))
  {
    if !SignedIn(s) then Unauthorized
    else if s.userRole == Some(RoleAdmin) then Calls(FindAllCall)
    else Calls(FindAllForUserCall(s.userId.value))
  }

  /** `PATCH /tickets/:id`: only for a signed-in session, which becomes the
      acting user; the id is passed on as text that reads back as the id. */
  function Update(s: Session, id: int, dto: Validation.UpdateTicketDto): (r: Dispatch)
    ensures r.Unauthorized? <==> !SignedIn(s)
    ensures r.Calls? ==> r.call.UpdateCall? && r.call.changes == dto && r.call.actingUser == s.userId.value
    ensures r.Calls? ==> Numbers.ParseInt(r.call.id) == Some(id)
  {
    Numbers.IntRoundTrip(id);
    if !SignedIn(s) then Unauthorized else Calls(UpdateCall(Numbers.IntToString(id), dto, s.userId.value))
  }

  /** `GET /tickets/:id`, `GET /tickets/:id/history`, `GET
      /tickets/:id/ai-suggestion` and `DELETE /tickets/:id` take no session:
      the call depends on the path alone, and different ids give different
      calls. */
  function FindOne(id: int): (r: ServiceCall)
    ensures r.FindOneCall? && Numbers.ParseInt(r.id) == Some(id)
  {
    Numbers.IntRoundTrip(id);
    FindOneCall(Numbers.IntToString(id))
  }

  function History(id: int): (r: ServiceCall)
    ensures r.HistoryCall? && Numbers.ParseInt(r.id) == Some(id)
  {
    Numbers.IntRoundTrip(id);
    HistoryCall(Numbers.IntToString(id))
  }

  function Suggestion(id: int): (r: ServiceCall)
    ensures r.SuggestionCall? && Numbers.ParseInt(r.id) == Some(id)
  {
    Numbers.IntRoundTrip(id);
    SuggestionCall(Numbers.IntToString(id))
  }

  function Remove(id: int): (r: ServiceCall)
    ensures r.RemoveCall? && Numbers.ParseInt(r.id) == Some(id)
  {
    Numbers.IntRoundTrip(id);
    RemoveCall(Numbers.IntToString(id))
  }

  /** The body of `GET /tickets/:id/ai-suggestion`: the suggestion when it is
      truthy, otherwise `suggested_response: null`, the empty string included. */
  function SuggestionReply(suggestion: Option<string>): (r: Option<string>)
    ensures r.Some? <==> suggestion.Some? && suggestion.value != ""
    ensures r.Some? ==> r == suggestion
  {
    if suggestion.Some? && suggestion.value != "" then suggestion else None
  }

  predicate OwnedBy(t: Ticket, owner: int) {
    t.owner == Some(owner)
  }

  /** What the listing returns on the tickets table, in the model's reading
      of the service: all rows for an admin, otherwise the rows owned by the
      caller, in table order. */
  function Listing(table: TicketTable, s: Session): (r: Result<seq<Ticket>, string>)
    ensures r.Failure? <==> !SignedIn(s)
    ensures r.Failure? ==> r.error == NotAuthenticated
    ensures SignedIn(s) && s.userRole == Some(RoleAdmin) ==> r == Success(table.rows)
    ensures SignedIn(s) && s.userRole != Some(RoleAdmin) ==>
      && (forall i :: 0 <= i < |r.value| ==> OwnedBy(r.value[i], s.userId.value))
      && (forall i :: 0 <= i < |table.rows| && OwnedBy(table.rows[i], s.userId.value) ==> table.rows[i] in r.value)
      && Seqs.IsSubsequence(r.value, table.rows)
  {
    match FindAll(s)
    case Unauthorized => Failure(NotAuthenticated)
    case Calls(call) =>
      if call.FindAllCall? then Success(table.rows)
      else
        var owner := s.userId.value;
        var p := (t: Ticket) => OwnedBy(t, owner);
        Seqs.FilterIsSubsequence(table.rows, p);
        Success(Seqs.Filter(table.rows, p))
  }

  /** After logging out every session-gated endpoint refuses. */
  lemma LoggedOutIsRefused(s: Session, dto: Validation.CreateTicketDto, id: int, patch: Validation.UpdateTicketDto, table: TicketTable)
    ensures var out := Logout(s).session;
      && Create(out, dto) == Unauthorized
      && FindAll(out) == Unauthorized
      && Update(out, id, patch) == Unauthorized
      && Listing(table, out) == Failure(NotAuthenticated)
  {
  }
}
