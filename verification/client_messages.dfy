/** The client's conversation hook (client/src/hooks/useMessages.ts): the
    local message list and the changes each request makes to it. The
    server's answer is a parameter: `None` for a failed request, otherwise
    what it returned. The list holds the server's table rows; the `sender`
    relation the server's listing joins is not part of a row here. */
module ClientMessages {
  import opened Wrappers
  import opened Domain
  import Seqs
  import Validation
  import MessageStore

  type Message = MessageStore.Message

  datatype MessagesHook = MessagesHook(messages: seq<Message>, loading: bool, error: Option<string>)

  /** On mount the conversation is fetched only for a truthy ticket id. */
  function FetchOnMount(ticketId: Option<int>): (r: bool)
    ensures r <==> ticketId.Some? && ticketId.value != 0
  {
    ticketId.Some? && ticketId.value != 0
  }

  /** `fetchMessages`: the server's list replaces the local one wholesale; a
      failure keeps the list and records the error. */
  function FetchMessages(h: MessagesHook, reply: Option<seq<Message>>): (r: MessagesHook)
    ensures !r.loading
    ensures reply.Some? ==> r.messages == reply.value && r.error.None?
    ensures reply.None? ==> r.messages == h.messages && r.error == Some("Failed to fetch messages")
  {
    if reply.Some? then MessagesHook(reply.value, false, None)
    else MessagesHook(h.messages, false, Some("Failed to fetch messages"))
  }

  /** The body `sendMessage` posts; `isInternal` is false unless given. */
  function SendBody(ticketId: int, senderId: int, content: string, msgType: MessageType,
                    isInternal: Option<bool>): (d: Validation.CreateMessageDto)
    ensures d.ticketId == ticketId && d.senderId == senderId && d.content == content && d.msgType == msgType
    ensures d.isInternal == Validation.Given(isInternal == Some(true))
  {
    Validation.CreateMessageDto(ticketId, senderId, content, msgType,
                                Validation.Given(if isInternal.Some? then isInternal.value else false))
  }

  datatype Sent = Sent(hook: MessagesHook, returned: Option<Message>)

  /** `sendMessage`: the returned message is appended and handed back; a
      failure keeps the list, records the error and returns null. The
      loading flag is never touched, and success keeps the error. */
  function SendMessage(h: MessagesHook, reply: Option<Message>): (r: Sent)
    ensures reply.Some? ==> r.hook.messages == h.messages + [reply.value] && r.returned == reply
    ensures reply.None? ==> r.hook.messages == h.messages && r.returned.None?
    ensures reply.None? ==> r.hook.error == Some("Failed to send message")
    ensures reply.Some? ==> r.hook.error == h.error
    ensures r.hook.loading == h.loading
  {
    if reply.Some? then Sent(h.(messages := h.messages + [reply.value]), reply)
    else Sent(h.(error := Some("Failed to send message")), None)
  }

  function ReplaceWhere(ms: seq<Message>, id: int, m: Message): (r: seq<Message>)
    ensures |r| == |ms|
    ensures forall i :: 0 <= i < |ms| ==> r[i] == if ms[i].id == id then m else ms[i]
  {
    if |ms| == 0 then []
    else [if ms[0].id == id then m else ms[0]] + ReplaceWhere(ms[1..], id, m)
  }

  datatype Edited = Edited(hook: MessagesHook, returned: Option<Message>)

  /** `updateMessage`: entries with that id are replaced by the server's
      message, the rest kept, and the message handed back; a failure keeps
      the list, records the error and returns null. Success keeps the
      error, and no path touches the loading flag. */
  function UpdateMessage(h: MessagesHook, id: int, reply: Option<Message>): (r: Edited)
    ensures |r.hook.messages| == |h.messages|
    ensures reply.Some? ==> forall i :: 0 <= i < |h.messages| ==>
      r.hook.messages[i] == if h.messages[i].id == id then reply.value else h.messages[i]
    ensures reply.Some? ==> r.returned == reply
    ensures reply.None? ==> r.hook.messages == h.messages && r.returned.None?
    ensures reply.None? ==> r.hook.error == Some("Failed to update message")
    ensures reply.Some? ==> r.hook.error == h.error
    ensures r.hook.loading == h.loading
  {
    if reply.Some? then Edited(h.(messages := ReplaceWhere(h.messages, id, reply.value)), reply)
    else Edited(h.(error := Some("Failed to update message")), None)
  }

  datatype Deleted = Deleted(hook: MessagesHook, done: bool)

  /** `deleteMessage`: after an ok reply no entry has that id, the others stay
      in order, and the answer is true; otherwise the list is kept, the error
      recorded, and the answer false. Success keeps the error, and no path
      touches the loading flag. */
  function DeleteMessage(h: MessagesHook, id: int, ok: bool): (r: Deleted)
    ensures r.done == ok
    ensures ok ==> !MessageStore.HasId(r.hook.messages, id)
    ensures ok ==> forall m :: m in r.hook.messages <==> m in h.messages && m.id != id
    ensures ok ==> Seqs.IsSubsequence(r.hook.messages, h.messages)
    ensures !ok ==> r.hook.messages == h.messages && r.hook.error == Some("Failed to delete message")
    ensures ok ==> r.hook.error == h.error
    ensures r.hook.loading == h.loading
  {
    if !ok then Deleted(h.(error := Some("Failed to delete message")), false)
    else
      var p := (m: Message) => m.id != id;
      Seqs.FilterIsSubsequence(h.messages, p);
      Deleted(h.(messages := Seqs.Filter(h.messages, p)), true)
  }

  /** A client list equal to the server's table rows still equals them
      after a send: the row the server creates is the one appended and
      handed back. */
  lemma SendMirrorsServer(st: MessageStore.Store, h: MessagesHook, d: Validation.CreateMessageDto, now: int)
    requires h.messages == st.messages
    ensures var server := MessageStore.CreateFromRequest(st, d, now);
      && SendMessage(h, Some(server.message)).hook.messages == server.store.messages
      && SendMessage(h, Some(server.message)).returned == Some(server.message)
  {
  }

  /** A client list equal to the server's table rows still equals them
      after a delete that both sides apply. */
  lemma DeleteMirrorsServer(st: MessageStore.Store, h: MessagesHook, id: int)
    requires h.messages == st.messages
    ensures DeleteMessage(h, id, true).hook.messages == MessageStore.DeleteMessage(st, id).messages
  {
  }

  /** A client list equal to the server's table rows still equals them
      after an edit that both sides apply: the server's reply replaces
      exactly the row the server changed. */
  lemma {:induction false} EditMirrorsServer(st: MessageStore.Store, h: MessagesHook, id: int, content: string)
    requires MessageStore.Valid(st) && h.messages == st.messages
    requires MessageStore.HasId(st.messages, id)
    ensures var server := MessageStore.UpdateMessage(st, id, content);
      UpdateMessage(h, id, server.result).hook.messages == server.store.messages
  {
    var server := MessageStore.UpdateMessage(st, id, content);
    EditedRows(st, id, content);
    var r := UpdateMessage(h, id, server.result).hook.messages;
    assert |r| == |server.store.messages|;
  }

  /** On a valid store the server's edit replaces exactly the rows with that
      id, and all of them by the message it returns. */
  lemma EditedRows(st: MessageStore.Store, id: int, content: string)
    requires MessageStore.Valid(st) && MessageStore.HasId(st.messages, id)
    ensures var server := MessageStore.UpdateMessage(st, id, content);
      && server.result.Some?
      && forall i :: 0 <= i < |st.messages| ==>
           server.store.messages[i] == if st.messages[i].id == id then server.result.value else st.messages[i]
  {
    var server := MessageStore.UpdateMessage(st, id, content);
    var ms := MessageStore.SetContent(st.messages, id, content);
    assert server.store.messages == ms;
    var m := server.result.value;
    var k :| 0 <= k < |ms| && ms[k] == m;
    forall i | 0 <= i < |ms|
      ensures ms[i] == if st.messages[i].id == id then m else st.messages[i]
    {
      if st.messages[i].id == id {
        MessageStore.IdsUnique(st, i, k);
      }
    }
  }
}
