/** The server's conversation store (server/src/messages/messages.service.ts):
    the messages table as a sequence in insertion order, with its identity
    counter. The storage clock is a parameter of the operations that stamp. */
module MessageStore {
  import opened Wrappers
  import opened Domain
  import Seqs
  import Sorting
  import Validation

  /** A message row (server/src/entities/message.entity.ts); a null sender
      marks a system-authored message. */
  datatype Message = Message(
    id: nat,
    ticketId: int,
    senderId: Option<int>,
    msgType: MessageType,
    content: string,
    isInternal: bool,
    createdAt: int)

  datatype Store = Store(messages: seq<Message>, nextId: nat)

  function MessageId(m: Message): int { m.id }
  function CreatedAt(m: Message): int { m.createdAt }

  /** Generated ids are positive, below the counter, and increase in insertion order. */
  predicate Valid(st: Store) {
    && st.nextId >= 1
    && (forall i :: 0 <= i < |st.messages| ==> 1 <= st.messages[i].id < st.nextId)
    && Seqs.StrictlyIncreasing(st.messages, MessageId)
  }

  const EmptyStore := Store([], 1)

  /** In a valid store an id names at most one message. */
  lemma IdsUnique(st: Store, i: int, j: int)
    requires Valid(st)
    requires 0 <= i < |st.messages| && 0 <= j < |st.messages|
    requires st.messages[i].id == st.messages[j].id
    ensures i == j
  {
  }

  predicate HasId(ms: seq<Message>, id: int) {
    exists i :: 0 <= i < |ms| && ms[i].id == id
  }

  datatype Created = Created(store: Store, message: Message)

  /** `createMessage`: appends one message carrying exactly the arguments;
      the type is stored as given, never derived from the sender. The new id
      is fresh and the store stays valid. */
  function CreateMessage(st: Store, ticketId: int, senderId: Option<int>, content: string,
                         msgType: MessageType, isInternal: bool, now: int): (r: Created)
    ensures r.store.messages == st.messages + [r.message]
    ensures r.message.ticketId == ticketId && r.message.senderId == senderId
    ensures r.message.content == content && r.message.msgType == msgType
    ensures r.message.isInternal == isInternal && r.message.createdAt == now
    ensures Valid(st) ==> Valid(r.store) && !HasId(st.messages, r.message.id)
  {
    var m := Message(st.nextId, ticketId, senderId, msgType, content, isInternal, now);
    Created(Store(st.messages + [m], st.nextId + 1), m)
  }

  /** The controller's `POST /messages`: a validated body becomes a message
      from its sender, internal only when the body says `isInternal: true`. */
  function CreateFromRequest(st: Store, d: Validation.CreateMessageDto, now: int): (r: Created)
    ensures r.store.messages == st.messages + [r.message]
    ensures r.message.senderId == Some(d.senderId) && r.message.ticketId == d.ticketId
    ensures r.message.isInternal <==> d.isInternal == Validation.Given(true)
  {
    var internal := d.isInternal.Given? && d.isInternal.value;
    CreateMessage(st, d.ticketId, Some(d.senderId), d.content, d.msgType, internal, now)
  }

  /** The `WHERE` of `getMessagesByTicketId`. */
  predicate Listed(m: Message, ticketId: int, includeInternal: bool) {
    m.ticketId == ticketId && (includeInternal || !m.isInternal)
  }

  /** `getMessagesByTicketId`: the messages of the ticket, internal ones only
      on request, in non-decreasing creation time (ties in insertion order). */
  function GetMessagesByTicketId(st: Store, ticketId: int, includeInternal: bool): (r: seq<Message>)
    ensures forall i :: 0 <= i < |r| ==> r[i].ticketId == ticketId
    ensures !includeInternal ==> forall i :: 0 <= i < |r| ==> !r[i].isInternal
    ensures forall m :: m in r <==> m in st.messages && Listed(m, ticketId, includeInternal)
    ensures Sorting.SortedBy(r, CreatedAt)
    ensures multiset(r) == multiset(Seqs.Filter(st.messages, m => Listed(m, ticketId, includeInternal)))
  {
    var selected := Seqs.Filter(st.messages, m => Listed(m, ticketId, includeInternal));
    var r := Sorting.SortBy(selected, CreatedAt);
    Sorting.SameElements(r, selected);
    r
  }

  /** `getLatestMessage`: a message of the ticket with the greatest creation
      time, or nothing when the ticket has no message. */
  function GetLatestMessage(ms: seq<Message>, ticketId: int): (r: Option<Message>)
    ensures r.None? <==> forall i :: 0 <= i < |ms| ==> ms[i].ticketId != ticketId
    ensures r.Some? ==> r.value in ms && r.value.ticketId == ticketId
    ensures r.Some? ==> forall i :: 0 <= i < |ms| && ms[i].ticketId == ticketId ==> ms[i].createdAt <= r.value.createdAt
  {
    if |ms| == 0 then None
    else
      var rest := GetLatestMessage(ms[1..], ticketId);
      if ms[0].ticketId != ticketId then rest
      else if rest.Some? && rest.value.createdAt > ms[0].createdAt then rest
      else Some(ms[0])
  }

  /** The first message with the given id (`findOne({ where: { id } })`). */
  function FindById(ms: seq<Message>, id: int): (r: Option<Message>)
    ensures r.None? <==> !HasId(ms, id)
    ensures r.Some? ==> r.value in ms && r.value.id == id
  {
    if |ms| == 0 then None
    else if ms[0].id == id then Some(ms[0])
    else
      var rest := FindById(ms[1..], id);
      assert HasId(ms, id) ==> ms[0].id == id || HasId(ms[1..], id) by {
        if HasId(ms, id) {
          var i :| 0 <= i < |ms| && ms[i].id == id;
          if i > 0 { assert ms[1..][i - 1].id == id; }
        }
      }
      rest
  }

  /** Content replaced on every row with the given id, nothing else touched. */
  function SetContent(ms: seq<Message>, id: int, content: string): (r: seq<Message>)
    ensures |r| == |ms|
    ensures forall i :: 0 <= i < |ms| ==>
      r[i] == if ms[i].id == id then ms[i].(content := content) else ms[i]
  {
    if |ms| == 0 then []
    else [if ms[0].id == id then ms[0].(content := content) else ms[0]] + SetContent(ms[1..], id, content)
  }

  datatype Updated = Updated(store: Store, result: Option<Message>)

  /** `updateMessage`: only the content of the message with that id changes;
      the reply is that message as stored, or null for an unknown id, in which
      case nothing changes at all. */
  function UpdateMessage(st: Store, id: int, content: string): (r: Updated)
    ensures |r.store.messages| == |st.messages| && r.store.nextId == st.nextId
    ensures forall i :: 0 <= i < |st.messages| ==>
      r.store.messages[i] == st.messages[i].(content := r.store.messages[i].content)
    ensures forall i :: 0 <= i < |st.messages| ==>
      r.store.messages[i].content == if st.messages[i].id == id then content else st.messages[i].content
    ensures r.result.None? <==> !HasId(st.messages, id)
    ensures r.result.None? ==> r.store == st
    ensures r.result.Some? ==> r.result.value.id == id && r.result.value.content == content
    ensures r.result.Some? ==> r.result.value in r.store.messages
    ensures Valid(st) ==> Valid(r.store)
  {
    var ms := SetContent(st.messages, id, content);
    SetContentFacts(st, id, content);
    var found := FindById(ms, id);
    if found.None? then
      assert ms == st.messages;
      Updated(st, None)
    else
      Updated(Store(ms, st.nextId), found)
  }

  lemma SetContentFacts(st: Store, id: int, content: string)
    ensures HasId(SetContent(st.messages, id, content), id) <==> HasId(st.messages, id)
    ensures forall m :: m in SetContent(st.messages, id, content) && m.id == id ==> m.content == content
    ensures !HasId(st.messages, id) ==> SetContent(st.messages, id, content) == st.messages
    ensures Valid(st) ==> Valid(Store(SetContent(st.messages, id, content), st.nextId))
  {
    SetContentKeepsIds(st.messages, id, content);
    var ms := SetContent(st.messages, id, content);
    if HasId(st.messages, id) {
      var i :| 0 <= i < |st.messages| && st.messages[i].id == id;
      assert ms[i].id == id;
    }
    forall m | m in ms && m.id == id ensures m.content == content {
      var k :| 0 <= k < |ms| && ms[k] == m;
    }
  }

  /** Setting content keeps every id in place, hence validity. */
  lemma SetContentKeepsIds(ms: seq<Message>, id: int, content: string)
    ensures forall i :: 0 <= i < |ms| ==> SetContent(ms, id, content)[i].id == ms[i].id
    ensures forall n :: Valid(Store(ms, n)) ==> Valid(Store(SetContent(ms, id, content), n))
  {
    var r := SetContent(ms, id, content);
    forall n | Valid(Store(ms, n)) ensures Valid(Store(r, n)) {
      forall i, j | 0 <= i < j < |r| ensures MessageId(r[i]) < MessageId(r[j]) {
        assert MessageId(ms[i]) < MessageId(ms[j]);
      }
    }
  }

  /** `deleteMessage`: the message with that id is gone and every other
      message stays, in its order. */
  function DeleteMessage(st: Store, id: int): (r: Store)
    ensures !HasId(r.messages, id)
    ensures forall m :: m in r.messages <==> m in st.messages && m.id != id
    ensures Seqs.IsSubsequence(r.messages, st.messages)
    ensures r.nextId == st.nextId
    ensures Valid(st) ==> Valid(r)
  {
    var ms := Seqs.Filter(st.messages, (m: Message) => m.id != id);
    Seqs.FilterIsSubsequence(st.messages, (m: Message) => m.id != id);
    assert Valid(st) ==> Seqs.StrictlyIncreasing(ms, MessageId) by {
      if Valid(st) {
        Seqs.FilterKeepsIncreasing(st.messages, (m: Message) => m.id != id, MessageId);
      }
    }
    Store(ms, st.nextId)
  }
}
