/** The conversation panel (client/src/components/Conversation.tsx): who may
    edit or delete a message, which type a sent message carries, and the
    send and edit handlers with their blank-draft guards. Each handler
    yields the new composer state and the request it issues, if any; the
    request's outcome is a parameter. */
module Conversation {
  import opened Wrappers
  import opened Domain
  import opened Text
  import Validation
  import ValidationFacts
  import MessageStore
  import ClientMessages

  type Message = MessageStore.Message

  /** The message type the panel sends: "admin" for the admin view, "client"
      otherwise; never "system". */
  function MessageTypeFor(isAdmin: bool): (r: MessageType)
    ensures r != SystemMessage
    ensures r == AdminMessage <==> isAdmin
  {
    if isAdmin then AdminMessage else ClientMessage
  }

  /** `canEditMessage`: an admin may edit everything; anyone else only a
      message whose sender is the signed-in user, never a message without a
      sender. */
  function CanEdit(isAdmin: bool, user: Option<int>, m: Message): (r: bool)
    ensures isAdmin ==> r
    ensures !isAdmin ==> (r <==> user.Some? && m.senderId == user)
    ensures !isAdmin && m.senderId.None? ==> !r
  {
    if isAdmin then true else user.Some? && m.senderId == user
  }

  /** `canDeleteMessage`, written separately in the panel with the same rule. */
  function CanDelete(isAdmin: bool, user: Option<int>, m: Message): (r: bool)
    ensures isAdmin ==> r
    ensures !isAdmin ==> (r <==> user.Some? && m.senderId == user)
  {
    if isAdmin then true else m.senderId.Some? && user.Some? && m.senderId.value == user.value
  }

  /** The two permissions agree on every message, user and view. */
  lemma EditDeleteAgree(isAdmin: bool, user: Option<int>, m: Message)
    ensures CanEdit(isAdmin, user, m) == CanDelete(isAdmin, user, m)
  {
  }

  /** The sender id sent: the user's id, or 0 without a user (`user?.id || 0`;
      an id of 0 also gives 0). */
  function SenderOf(user: Option<int>): (r: int)
    ensures user.Some? ==> r == user.value
    ensures user.None? ==> r == 0
  {
    if user.Some? then user.value else 0
  }

  /** The composer's state: the draft, the message being edited and the
      edited text. */
  datatype Composer = Composer(draft: string, editing: Option<Message>, editContent: string)

  datatype SendStep = SendStep(composer: Composer, request: Option<Validation.CreateMessageDto>)

  /** `handleSendMessage`: nothing for a blank draft; otherwise one message
      with the trimmed draft, the view's type and the user's id, and the
      draft cleared only when the send succeeds. */
  function HandleSend(c: Composer, ticketId: int, isAdmin: bool, user: Option<int>, success: bool): (r: SendStep)
    ensures r.request.None? <==> Trim(c.draft) == ""
    ensures r.request.Some? ==>
      && r.request.value == ClientMessages.SendBody(ticketId, SenderOf(user), Trim(c.draft), MessageTypeFor(isAdmin), None)
      && |r.request.value.content| >= Validation.ContentMin
    ensures r.request.Some? && success ==> r.composer == c.(draft := "")
    ensures r.request.None? || !success ==> r.composer == c
  {
    var content := Trim(c.draft);
    if content == "" then SendStep(c, None)
    else
      var body := ClientMessages.SendBody(ticketId, SenderOf(user), content, MessageTypeFor(isAdmin), None);
      SendStep(if success then c.(draft := "") else c, Some(body))
  }

  /** Without a signed-in user the panel still sends, with sender 0, and the
      create-message check refuses the body. */
  lemma {:induction false} NoUserRejected(c: Composer, ticketId: int, isAdmin: bool, success: bool)
    requires Trim(c.draft) != ""
    ensures var r := HandleSend(c, ticketId, isAdmin, None, success);
      && r.request.Some? && r.request.value.senderId == 0
      && Validation.ValidateCreateMessage(Validation.EncodeCreateMessage(r.request.value)).Failure?
  {
    var d := ClientMessages.SendBody(ticketId, 0, Trim(c.draft), MessageTypeFor(isAdmin), None);
    assert HandleSend(c, ticketId, isAdmin, None, success).request == Some(d);
    ZeroSenderRejected(d);
  }

  lemma ZeroSenderRejected(d: Validation.CreateMessageDto)
    requires d.senderId == 0
    ensures Validation.ValidateCreateMessage(Validation.EncodeCreateMessage(d)).Failure?
  {
    var b := Validation.EncodeCreateMessage(d);
    assert b["senderId"] == Validation.IdJson(0);
    ValidationFacts.SenderRequired(b);
  }

  /** The blank-draft guard and the server measure differently: a draft of a
      lone U+FE0F is not blank, so the panel sends it, and the server finds
      it empty. */
  lemma SelectorDraftRejected(ticketId: int, isAdmin: bool, user: int, success: bool)
    requires ticketId >= 1 && user >= 1
    ensures var r := HandleSend(Composer("\U{FE0F}", None, ""), ticketId, isAdmin, Some(user), success);
      && r.request.Some?
      && Validation.ValidateCreateMessage(Validation.EncodeCreateMessage(r.request.value)).Failure?
  {
    var r := HandleSend(Composer("\U{FE0F}", None, ""), ticketId, isAdmin, Some(user), success);
    assert r.request.Some? && r.request.value.content == "\U{FE0F}" by {
      LoneSelector();
    }
    SelectorBodyRejected(r.request.value);
  }

  lemma SelectorBodyRejected(d: Validation.CreateMessageDto)
    requires d.content == "\U{FE0F}"
    ensures Validation.ValidateCreateMessage(Validation.EncodeCreateMessage(d)).Failure?
  {
    LoneSelector();
    Validation.CreateMessageEncodingPasses(d);
  }

  lemma LoneSelector()
    ensures Trim("\U{FE0F}") == "\U{FE0F}"
    ensures Validation.MeasuredLength("\U{FE0F}") == 0
  {
    TrimKeeps("\U{FE0F}");
    assert "\U{FE0F}"[..0] == "";
  }

  /** `startEditing` and `cancelEditing`. */
  function StartEditing(c: Composer, m: Message): (r: Composer)
    ensures r.editing == Some(m) && r.editContent == m.content && r.draft == c.draft
  {
    c.(editing := Some(m), editContent := m.content)
  }

  function CancelEditing(c: Composer): (r: Composer)
    ensures r.editing.None? && r.editContent == "" && r.draft == c.draft
  {
    c.(editing := None, editContent := "")
  }

  /** An edit request: the message id and the new content. */
  datatype EditRequest = EditRequest(id: int, content: string)

  datatype EditStep = EditStep(composer: Composer, request: Option<EditRequest>)

  /** `handleEditMessage`: nothing when no message is being edited or the
      text is blank; otherwise one edit with the trimmed text, and the
      editor cleared only when it succeeds. */
  function HandleEdit(c: Composer, success: bool): (r: EditStep)
    ensures r.request.None? <==> c.editing.None? || Trim(c.editContent) == ""
    ensures r.request.Some? ==>
      && r.request.value == EditRequest(c.editing.value.id, Trim(c.editContent))
      && |r.request.value.content| >= Validation.ContentMin
    ensures r.request.Some? && success ==> r.composer == CancelEditing(c)
    ensures r.request.None? || !success ==> r.composer == c
  {
    if c.editing.None? || Trim(c.editContent) == "" then EditStep(c, None)
    else
      var req := EditRequest(c.editing.value.id, Trim(c.editContent));
      EditStep(if success then CancelEditing(c) else c, Some(req))
  }

  /** Starting to edit a message and saving its text unchanged sends exactly
      the trimmed text back, unless that text is blank. */
  lemma EditUnchanged(c: Composer, m: Message, success: bool)
    ensures var r := HandleEdit(StartEditing(c, m), success);
      && (r.request.Some? <==> Trim(m.content) != "")
      && (r.request.Some? ==> r.request.value == EditRequest(m.id, Trim(m.content)))
  {
  }
}
