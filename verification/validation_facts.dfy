/** Consequences of the validators: the boundary cases the end-to-end tests
    pin, and the relations between the four DTOs. */
module ValidationFacts {
  import opened Wrappers
  import opened Domain
  import opened Validation
  import JsonNumbers
  import Numbers

  /** `n` copies of the letter A; its measured length is its length. */
  function Repeat(n: nat): (r: string)
    ensures |r| == n && MeasuredLength(r) == n
  {
    var r := seq(n, _ => 'A');
    PlainLength(r);
    r
  }

  /** With a valid description, a create body is accepted exactly when the
      title measures 3..200: the measured length decides, nothing is
      trimmed. */
  lemma TitleLengthDecides(t: string, d: string)
    requires ValidDescription(d)
    ensures ValidateCreateTicket(EncodeCreateTicket(CreateTicketDto(t, d))).Success? <==> 3 <= MeasuredLength(t) <= 200
  {
    CreateTicketEncodingPasses(CreateTicketDto(t, d));
  }

  /** With a valid title, a create body is accepted exactly when the
      description measures 10..5000. */
  lemma DescriptionLengthDecides(t: string, d: string)
    requires ValidTitle(t)
    ensures ValidateCreateTicket(EncodeCreateTicket(CreateTicketDto(t, d))).Success? <==> 10 <= MeasuredLength(d) <= 5000
  {
    CreateTicketEncodingPasses(CreateTicketDto(t, d));
  }

  /** A variation selector adds a character but no length: "ab" followed by
      U+FE0F has three characters and is too short for a title. */
  lemma SelectorNotCounted()
    ensures |"ab\U{FE0F}"| == 3
    ensures ValidateCreateTicket(EncodeCreateTicket(CreateTicketDto("ab\U{FE0F}", "This is a test description"))).Failure?
  {
    assert MeasuredLength("ab\U{FE0F}") == 2 by {
      assert "ab\U{FE0F}"[..2] == "ab";
      assert "ab"[..1] == "a";
      assert "a"[..0] == "";
    }
    PlainLength("This is a test description");
    TitleLengthDecides("ab\U{FE0F}", "This is a test description");
  }

  /** A create body without a title or without a description is rejected,
      and the rejection says which one is required. */
  lemma MissingFieldRejected(b: Body)
    requires "title" !in b || "description" !in b
    ensures ValidateCreateTicket(b).Failure?
    ensures "title" !in b ==> "Title is required" in ValidateCreateTicket(b).error
    ensures "description" !in b ==> "Description is required" in ValidateCreateTicket(b).error
  {
  }

  /** Any property other than title and description rejects a create body. */
  lemma ExtraFieldRejected(b: Body, k: string)
    requires k in b && k !in CreateTicketFields
    ensures ValidateCreateTicket(b).Failure?
    ensures "property " + k + " should not exist" in ValidateCreateTicket(b).error
  {
    assert "property " + k + " should not exist" in ForbiddenErrors(b, CreateTicketFields);
  }

  /** The title cases of the ticket-creation tests: "AB" and 201 characters
      are rejected; three spaces are an acceptable title. */
  lemma TitleTestCases()
    ensures ValidateCreateTicket(EncodeCreateTicket(CreateTicketDto("AB", "This is a test description"))).Failure?
    ensures ValidateCreateTicket(EncodeCreateTicket(CreateTicketDto(Repeat(201), "This is a test description"))).Failure?
    ensures ValidateCreateTicket(EncodeCreateTicket(CreateTicketDto("   ", "This is a test description"))).Success?
  {
    ShortTitle();
    LongTitle();
    BlankTitle();
  }

  lemma ShortTitle()
    ensures ValidateCreateTicket(EncodeCreateTicket(CreateTicketDto("AB", "This is a test description"))).Failure?
  {
    PlainLength("AB");
    TitleCase("AB");
  }

  lemma LongTitle()
    ensures ValidateCreateTicket(EncodeCreateTicket(CreateTicketDto(Repeat(201), "This is a test description"))).Failure?
  {
    TitleCase(Repeat(201));
  }

  lemma BlankTitle()
    ensures ValidateCreateTicket(EncodeCreateTicket(CreateTicketDto("   ", "This is a test description"))).Success?
  {
    PlainLength("   ");
    TitleCase("   ");
  }

  /** With the tests' description, a title is accepted exactly when it
      measures 3..200. */
  lemma TitleCase(t: string)
    ensures ValidateCreateTicket(EncodeCreateTicket(CreateTicketDto(t, "This is a test description"))).Success?
            <==> 3 <= MeasuredLength(t) <= 200
  {
    TestDescriptionValid();
    TitleLengthDecides(t, "This is a test description");
  }

  lemma TestDescriptionValid()
    ensures ValidDescription("This is a test description")
  {
    PlainLength("This is a test description");
  }

  /** The description cases of the ticket-creation tests: "Short" and 5001
      characters are rejected. */
  lemma DescriptionTestCases()
    ensures ValidateCreateTicket(EncodeCreateTicket(CreateTicketDto("Test Ticket Title", "Short"))).Failure?
    ensures ValidateCreateTicket(EncodeCreateTicket(CreateTicketDto("Test Ticket Title", Repeat(5001)))).Failure?
  {
    PlainLength("Test Ticket Title");
    PlainLength("Short");
    DescriptionLengthDecides("Test Ticket Title", "Short");
    DescriptionLengthDecides("Test Ticket Title", Repeat(5001));
  }

  /** The empty patch is valid: every update field is optional. */
  lemma EmptyUpdateAccepted()
    ensures ValidateUpdateTicket(map[]) == Success(UpdateTicketDto(Absent, Absent, Absent, Absent))
  {
    var d := UpdateTicketDto(Absent, Absent, Absent, Absent);
    assert EncodeUpdateTicket(d) == map[];
    UpdateTicketEncodingPasses(d);
  }

  /** A status patch is accepted exactly when the value is one of the four
      status spellings; "in progress" passes and "invalid_status" fails. */
  lemma StatusPatchDecides(v: string)
    ensures ValidateUpdateTicket(map["status" := JString(v)]).Success? <==> ParseStatus(v).Some?
    ensures ValidateUpdateTicket(map["status" := JString("in progress")]).Success?
    ensures ValidateUpdateTicket(map["status" := JString("invalid_status")]).Failure?
  {
    StatusPatch(v);
    InProgressPatch();
    InvalidStatusPatch();
  }

  lemma InProgressPatch()
    ensures ValidateUpdateTicket(map["status" := JString("in progress")]).Success?
  {
    StatusPatch("in progress");
  }

  lemma InvalidStatusPatch()
    ensures ValidateUpdateTicket(map["status" := JString("invalid_status")]).Failure?
  {
    StatusPatch("invalid_status");
  }

  lemma StatusPatch(v: string)
    ensures ValidateUpdateTicket(map["status" := JString(v)]).Success? <==> ParseStatus(v).Some?
  {
    var b := map["status" := JString(v)];
    SettledBody(b, UpdateTicketType);
    if ParseStatus(v).Some? {
      var d := UpdateTicketDto(Absent, Absent, Given(ParseStatus(v).value), Absent);
      UpdateTicketLookups(d);
      assert EncodeUpdateTicket(d) == b;
    } else {
      assert StatusErrors(Lookup(b, "status")) != {};
    }
  }

  /** A priority patch is accepted exactly when the value is low, medium or high. */
  lemma PriorityPatchDecides(v: string)
    ensures ValidateUpdateTicket(map["priority" := JString(v)]).Success? <==> ParsePriority(v).Some?
  {
    var b := map["priority" := JString(v)];
    SettledBody(b, UpdateTicketType);
    if ParsePriority(v).Some? {
      var d := UpdateTicketDto(Absent, Absent, Absent, Given(ParsePriority(v).value));
      UpdateTicketLookups(d);
      assert EncodeUpdateTicket(d) == b;
    } else {
      assert PriorityErrors(Lookup(b, "priority")) != {};
    }
  }

  /** A patch carrying any undeclared property, such as `response`, is rejected. */
  lemma UndeclaredPatchRejected(b: Body, k: string)
    requires k in b && k !in UpdateTicketFields
    ensures ValidateUpdateTicket(b).Failure?
  {
    assert "property " + k + " should not exist" in ForbiddenErrors(b, UpdateTicketFields);
  }

  /** A message body whose sender is missing, null, `false` or a number
      below 1 is rejected: an accepted message always names a positive
      sender. */
  lemma SenderRequired(b: Body)
    requires || "senderId" !in b || b["senderId"] == JNull || b["senderId"] == JBool(false)
             || (b["senderId"].JNumber? && b["senderId"].n.Finite? && JsonNumbers.Value(b["senderId"].n.n) < 1.0)
    ensures ValidateCreateMessage(b).Failure?
  {
    LookupTransform(b, CreateMessageType, "senderId");
    IdConversion("Sender", Lookup(b, "senderId"));
  }

  /** Editing accepts exactly the contents that creation accepts: the two
      DTOs share the 1..10000 bound. */
  lemma ContentRulesAgree(d: CreateMessageDto)
    requires d.ticketId >= 1 && d.senderId >= 1
    ensures ValidateCreateMessage(EncodeCreateMessage(d)).Success?
        <==> ValidateUpdateMessage(EncodeUpdateMessage(UpdateMessageDto(d.content))).Success?
  {
    CreateMessageEncodingPasses(d);
    UpdateMessageEncodingPasses(UpdateMessageDto(d.content));
  }

  // ---------------------------------------------------------------------
  // Implicit conversion at work

  /** A numeric title passes as its text: `{title: 12345, description:
      "0123456789"}` creates a ticket titled "12345". */
  lemma NumericTitleAccepted()
    ensures ValidateCreateTicket(map["title" := JNumber(JsonNumbers.Finite(JsonNumbers.FromInt(12345))),
                                     "description" := JString("0123456789")])
            == Success(CreateTicketDto("12345", "0123456789"))
  {
    FiveDigitText();
    PlainLength("12345");
    PlainLength("0123456789");
    TwoFieldBody(JNumber(JsonNumbers.Finite(JsonNumbers.FromInt(12345))), JString("0123456789"));
  }

  /** A body of a title and a description, neither null nor an array,
      whose texts meet the length rules creates the ticket of those texts. */
  lemma TwoFieldBody(title: Json, description: Json)
    requires !title.JNull? && !title.JArray? && ValidTitle(StringCast(title))
    requires !description.JNull? && !description.JArray? && ValidDescription(StringCast(description))
    ensures ValidateCreateTicket(map["title" := title, "description" := description])
            == Success(CreateTicketDto(StringCast(title), StringCast(description)))
  {
    var b := map["title" := title, "description" := description];
    assert b.Keys == CreateTicketFields;
    CreateTicketConversion(b);
  }

  lemma FiveDigitText()
    ensures JsonNumbers.NumberText(JsonNumbers.FromInt(12345)) == "12345"
  {
    JsonNumbers.Pow10Grows(5, 21);
    assert JsonNumbers.Pow10(5) == 100000;
    JsonNumbers.IntegerText(12345);
    assert Numbers.NatToString(12345) == Numbers.NatToString(1234) + "5";
    assert Numbers.NatToString(1234) == Numbers.NatToString(123) + "4";
    assert Numbers.NatToString(123) == Numbers.NatToString(12) + "3";
    assert Numbers.NatToString(12) == Numbers.NatToString(1) + "2";
  }

  /** An object passes as "[object Object]", which is long enough for a
      description. */
  lemma ObjectDescriptionAccepted()
    ensures ValidateCreateTicket(map["title" := JString("Printer"), "description" := JObject])
            == Success(CreateTicketDto("Printer", "[object Object]"))
  {
    PlainLength("Printer");
    PlainLength("[object Object]");
    TwoFieldBody(JString("Printer"), JObject);
  }

  /** Conversion never makes a status: the number 1 is refused. */
  lemma NumericStatusRefused()
    ensures ValidateUpdateTicket(map["status" := JNumber(JsonNumbers.Finite(JsonNumbers.FromInt(1)))]).Failure?
  {
    var b := map["status" := JNumber(JsonNumbers.Finite(JsonNumbers.FromInt(1)))];
    assert Lookup(b, "status") == Some(JNumber(JsonNumbers.Finite(JsonNumbers.FromInt(1))));
    EnumConversion(Lookup(b, "status"));
    StatusRefused(b);
  }

  /** A patch whose status does not convert to a member is refused. */
  lemma StatusRefused(b: Body)
    requires StatusErrors(Converted(StringType, Lookup(b, "status"))) != {}
    ensures ValidateUpdateTicket(b).Failure?
  {
    LookupTransform(b, UpdateTicketType, "status");
  }

  /** The message body of the examples below, with chosen `ticketId` and
      `isInternal` values. */
  function MessageBody(ticketId: Json, isInternal: Json): Body {
    map["ticketId" := ticketId, "senderId" := JNumber(JsonNumbers.Finite(JsonNumbers.FromInt(2))),
        "content" := JString("Hello"), "type" := JString("client"), "isInternal" := isInternal]
  }

  /** `isInternal: "false"` is a non-empty string, so the message is stored
      as internal. */
  lemma InternalTextIsTrue()
    ensures ValidateCreateMessage(MessageBody(JNumber(JsonNumbers.Finite(JsonNumbers.FromInt(1))), JString("false")))
            == Success(CreateMessageDto(1, 2, "Hello", ClientMessage, Given(true)))
  {
    var d := CreateMessageDto(1, 2, "Hello", ClientMessage, Given(true));
    MessageBodyConverted(JNumber(JsonNumbers.Finite(JsonNumbers.FromInt(1))), JString("false"), d);
  }

  /** An id sent as `true` converts to 1, and one sent as the string "7" to 7. */
  lemma IdsConverted()
    ensures ValidateCreateMessage(MessageBody(JBool(true), JBool(false)))
            == Success(CreateMessageDto(1, 2, "Hello", ClientMessage, Given(false)))
    ensures ValidateCreateMessage(MessageBody(JString("7"), JNull))
            == Success(CreateMessageDto(7, 2, "Hello", ClientMessage, Null))
  {
    BooleanIds();
    TextId();
  }

  /** `ticketId: true` reads as 1 and `isInternal: false` stays false. */
  lemma BooleanIds()
    ensures ValidateCreateMessage(MessageBody(JBool(true), JBool(false)))
            == Success(CreateMessageDto(1, 2, "Hello", ClientMessage, Given(false)))
  {
    var d := CreateMessageDto(1, 2, "Hello", ClientMessage, Given(false));
    HelloMessageValid(d);
    assert Implicit(NumberType, JBool(true)) == IdJson(1);
    MessageBodyConverted(JBool(true), JBool(false), d);
  }

  /** `ticketId: "7"` reads as 7 and a null `isInternal` is left out. */
  lemma TextId()
    ensures ValidateCreateMessage(MessageBody(JString("7"), JNull))
            == Success(CreateMessageDto(7, 2, "Hello", ClientMessage, Null))
  {
    var d := CreateMessageDto(7, 2, "Hello", ClientMessage, Null);
    HelloMessageValid(d);
    SevenText();
    assert Implicit(NumberType, JString("7")) == IdJson(7);
    MessageBodyConverted(JString("7"), JNull, d);
  }

  /** A client message "Hello" from user 2 on a positive ticket is valid. */
  lemma HelloMessageValid(d: CreateMessageDto)
    requires d.ticketId > 0 && d.senderId == 2 && d.content == "Hello" && d.msgType == ClientMessage
    ensures ValidCreateMessage(d)
  {
    PlainLength("Hello");
  }

  lemma SevenText()
    ensures JsonNumbers.StringToNumber("7") == JsonNumbers.Finite(JsonNumbers.FromInt(7))
  {
    assert Numbers.IntToString(7) == "7";
    JsonNumbers.IntTextReadsBack(7);
  }

  /** A message body whose `ticketId` and `isInternal` convert to those of
      a valid message with the body's other fields yields that message. */
  lemma MessageBodyConverted(ticketId: Json, isInternal: Json, d: CreateMessageDto)
    requires ValidCreateMessage(d) && d.senderId == 2 && d.content == "Hello" && d.msgType == ClientMessage
    requires Implicit(NumberType, ticketId) == IdJson(d.ticketId)
    requires FieldJson(d.isInternal, BoolJson) == Some(Implicit(BooleanType, isInternal))
    ensures ValidateCreateMessage(MessageBody(ticketId, isInternal)) == Success(d)
  {
    MessageBodyEncodes(ticketId, isInternal, d);
  }

  /** Such a body converts to the message's encoding. */
  lemma MessageBodyEncodes(ticketId: Json, isInternal: Json, d: CreateMessageDto)
    requires d.senderId == 2 && d.content == "Hello" && d.msgType == ClientMessage
    requires Implicit(NumberType, ticketId) == IdJson(d.ticketId)
    requires FieldJson(d.isInternal, BoolJson) == Some(Implicit(BooleanType, isInternal))
    ensures Transform(MessageBody(ticketId, isInternal), CreateMessageType) == EncodeCreateMessage(d)
  {
    var c := Transform(MessageBody(ticketId, isInternal), CreateMessageType);
    CreateMessageLookups(d);
    MessageBodyConversions(ticketId, isInternal);
    assert MessageTypeValue(ClientMessage) == "client";
    SameMessageLookups(c, EncodeCreateMessage(d));
  }

  /** Two bodies with the message's properties and nothing else are equal
      when they agree on each of those properties. */
  lemma SameMessageLookups(a: Body, b: Body)
    requires a.Keys <= CreateMessageFields && b.Keys <= CreateMessageFields
    requires Lookup(a, "ticketId") == Lookup(b, "ticketId")
    requires Lookup(a, "senderId") == Lookup(b, "senderId")
    requires Lookup(a, "content") == Lookup(b, "content")
    requires Lookup(a, "type") == Lookup(b, "type")
    requires Lookup(a, "isInternal") == Lookup(b, "isInternal")
    ensures a == b
  {
    forall k | k in CreateMessageFields
      ensures Lookup(a, k) == Lookup(b, k)
    {
      if k == "ticketId" {
      } else if k == "senderId" {
      } else if k == "content" {
      } else if k == "type" {
      } else {
        assert k == "isInternal";
      }
    }
    SameLookups(a, b, CreateMessageFields);
  }

  /** What each property of such a body converts to. */
  lemma MessageBodyConversions(ticketId: Json, isInternal: Json)
    ensures var c := Transform(MessageBody(ticketId, isInternal), CreateMessageType);
      && c.Keys == CreateMessageFields
      && Lookup(c, "ticketId") == Some(Implicit(NumberType, ticketId))
      && Lookup(c, "senderId") == Some(IdJson(2))
      && Lookup(c, "content") == Some(JString("Hello"))
      && Lookup(c, "type") == Some(JString("client"))
      && Lookup(c, "isInternal") == Some(Implicit(BooleanType, isInternal))
  {
    var b := MessageBody(ticketId, isInternal);
    LookupTransform(b, CreateMessageType, "ticketId");
    LookupTransform(b, CreateMessageType, "senderId");
    LookupTransform(b, CreateMessageType, "content");
    LookupTransform(b, CreateMessageType, "type");
    LookupTransform(b, CreateMessageType, "isInternal");
  }
}
