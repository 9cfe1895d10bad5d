/** The enumerations shared by the server, the workflow service and the
    client, with their wire spellings (the server entity files). */
module Domain {
  import opened Wrappers

  /** Ticket status; the wire values are "open", "in progress", "resolved", "closed". */
  datatype TicketStatus = Open | InProgress | Resolved | Closed

  /** Ticket priority; the wire values are "low", "medium", "high". */
  datatype Priority = Low | Medium | High

  /** Declared message type; the wire values are "client", "admin", "system". */
  datatype MessageType = ClientMessage | AdminMessage | SystemMessage

  /** Account role; the wire values are "user", "admin", "system". */
  datatype UserRole = RoleUser | RoleAdmin | RoleSystem

  function StatusValue(s: TicketStatus): string {
    match s
    case Open => "open"
    case InProgress => "in progress"
    case Resolved => "resolved"
    case Closed => "closed"
  }

  function PriorityValue(p: Priority): string {
    match p
    case Low => "low"
    case Medium => "medium"
    case High => "high"
  }

  function MessageTypeValue(t: MessageType): string {
    match t
    case ClientMessage => "client"
    case AdminMessage => "admin"
    case SystemMessage => "system"
  }

  function RoleValue(r: UserRole): string {
    match r
    case RoleUser => "user"
    case RoleAdmin => "admin"
    case RoleSystem => "system"
  }

  /** Enum membership of a wire string (class-validator's IsEnum): succeeds
      exactly on the four status spellings and decodes each to its own status. */
  function ParseStatus(v: string): (r: Option<TicketStatus>)
    ensures r.Some? ==> StatusValue(r.value) == v
    ensures forall s :: StatusValue(s) == v ==> r == Some(s)
  {
    if v == "open" then Some(Open)
    else if v == "in progress" then Some(InProgress)
    else if v == "resolved" then Some(Resolved)
    else if v == "closed" then Some(Closed)
    else None
  }

  function ParsePriority(v: string): (r: Option<Priority>)
    ensures r.Some? ==> PriorityValue(r.value) == v
    ensures forall p :: PriorityValue(p) == v ==> r == Some(p)
  {
    if v == "low" then Some(Low)
    else if v == "medium" then Some(Medium)
    else if v == "high" then Some(High)
    else None
  }

  function ParseMessageType(v: string): (r: Option<MessageType>)
    ensures r.Some? ==> MessageTypeValue(r.value) == v
    ensures forall t :: MessageTypeValue(t) == v ==> r == Some(t)
  {
    if v == "client" then Some(ClientMessage)
    else if v == "admin" then Some(AdminMessage)
    else if v == "system" then Some(SystemMessage)
    else None
  }

  /** A server-side ticket row (server/src/entities/ticket.entity.ts).
      `owner` is the owning user's id, null for an orphaned ticket;
      `createdAt` is the creation instant as an integer. */
  datatype Ticket = Ticket(
    id: nat,
    owner: Option<int>,
    title: string,
    description: string,
    status: TicketStatus,
    priority: Priority,
    response: Option<string>,
    createdAt: int)

  /** The tickets table with its identity counter. */
  datatype TicketTable = TicketTable(rows: seq<Ticket>, nextId: nat)
}
