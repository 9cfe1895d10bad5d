# Support-ticket assistant: a Dafny model

This project models the core logic of a support-ticket system. It has three parts:

- A NestJS server: tickets, conversation messages, user accounts, sessions and a start-up seed.
- A Spring workflow service that advances a ticket's status and logs the change.
- A React client: ticket lists for users and admins, a conversation panel, a history modal and a date formatter.

Everything is immutable data and pure functions over sequences. Each component has its own module:

| module | component |
|---|---|
| `Domain` | the shared enumerations and the ticket row |
| `Validation`, `ValidationFacts` | the class-validator DTOs under the whitelisting, non-whitelisted-forbidding, implicitly converting validation pipe |
| `JsonNumbers` | JSON numbers as exact decimals, JavaScript's `String(x)` of a number, `Boolean(x)`, and `Number(s)` on a string |
| `Text` | ECMAScript white space and `trim` |
| `MessageStore` | the messages service over a message table |
| `Users`, `Sessions` | the users service and the account endpoints with their `{userId, userRole}` session |
| `Seed` | the seed-once start-up hook |
| `TicketsController` | the tickets endpoints' session gate and listing policy |
| `Workflow` | `updateStatus` and the sequential effect of `processTicket` |
| `ClientTickets`, `ClientMessages` | the two client hooks and their local list updates after each request |
| `AdminTickets`, `UserTickets`, `Conversation` | the handlers and predicates of the three client components |
| `Format`, `Numbers` | the status label, the notes cell, `FormatDate`, and the `String(n)` / `padStart` renderings they use |
| `Seqs`, `Sorting` | the order-preserving filter and the stable sort by an integer key that every listing uses |

Each validator either returns the typed DTO or the set of constraint messages that failed. Each DTO has an encoder. Before validation the pipe converts every declared property to its declared type, as class-transformer's implicit conversion does: a string property receives `String(v)`, an id receives `Number(v)`, a boolean receives `Boolean(v)`; null, arrays and undeclared properties are kept. The validators are specified by one property: a body passes exactly when its conversion is the encoding of a DTO that meets the field rules. Conversion leaves every encoding as it is, so the encoding of a DTO passes exactly when the DTO is valid. String lengths are measured as validator.js's `isLength` measures them, without the variation selectors U+FE0E and U+FE0F.

Client handlers return the next view state together with the request they issue, if any. A request's outcome is a parameter: whether the server answered ok, or the row it returned. A message in the client hook is the server's table row, so the client's local updates can be proved to mirror the server's table. The joined `sender` user is not part of that row (see Left out).

The history modal's `formatStatus` and the list hook's status label are the same expression in the source. They are modelled once, as `Format.StatusLabel`.

## Model

| member | source | states |
|---|---|---|
| Domain.ParseStatus | server/src/entities/ticket.entity.ts:13-18 | reading a wire string gives the status whose value it is, and every status value reads back as that status |
| Domain.ParsePriority | server/src/entities/ticket.entity.ts:20-24 | the same inverse relation for "low", "medium" and "high" |
| Domain.ParseMessageType | server/src/entities/message.entity.ts:12-16 | the same inverse relation for "client", "admin" and "system" |
| Validation.MeasuredLength | server/src/tickets/dto/create-ticket.dto.ts:6-7 | never more than the number of characters |
| Validation.MeasuredLengthCounts | server/src/tickets/dto/create-ticket.dto.ts:6-7 | the measured length is the character count less the occurrences of U+FE0E and U+FE0F |
| Validation.PlainLength | server/src/tickets/dto/create-ticket.dto.ts:6-7 | a text without variation selectors measures its character count |
| Validation.Implicit | server/test/tickets.e2e-spec.ts:74-76 | a non-null, non-array value of a string, number or boolean property becomes a string, number or boolean |
| Validation.ImplicitFixedPoints | server/test/tickets.e2e-spec.ts:74-76 | conversion changes exactly the values that do not already have their property's type (null, arrays and undeclared properties are kept), its result is settled, and converting twice converts nothing more |
| Validation.Transform | server/test/tickets.e2e-spec.ts:74-76 | the converted body has the same properties, each converted by its declared type |
| Validation.SettledBody | server/test/tickets.e2e-spec.ts:74-76 | a body whose values all have their declared types is left unchanged |
| Validation.RequiredStringConversion | server/src/tickets/dto/create-ticket.dto.ts:4-14 | on the value as sent, a required string passes exactly when it is present, neither null nor an array, and its `String()` text measures within bounds |
| Validation.OptionalStringConversion | server/src/tickets/dto/update-ticket.dto.ts:5-14 | on the value as sent, an optional string passes exactly when it is missing or null, or is no array and its `String()` text measures within bounds |
| Validation.NoEnumText | server/src/tickets/dto/update-ticket.dto.ts:17-23 | the `String()` text of a number, boolean, null or object spells no status, priority or message type |
| Validation.EnumConversion | server/src/tickets/dto/update-ticket.dto.ts:17-23 | on the value as sent, a status or priority passes exactly when it is missing or null, or was sent as a string spelling a member |
| Validation.IdConversion | server/src/messages/dto/create-message.dto.ts:6-16 | on the value as sent, an id passes exactly when it is present, neither null nor an array, and `Number()` of it is a finite integer of at least 1 |
| Validation.InternalConversion | server/src/messages/dto/create-message.dto.ts:28-30 | on the value as sent, `isInternal` passes exactly when it is missing or is no array, and a given value becomes its truthiness |
| Validation.LengthErrors | server/src/tickets/dto/create-ticket.dto.ts:4-8 | no message exactly when the converted value is a string whose measured length (characters less variation selectors, untrimmed) is within the bounds |
| Validation.RequiredStringErrors | server/src/tickets/dto/create-ticket.dto.ts:10-14 | a required string field passes exactly when its converted value is present, a string, and of measured length within its bounds |
| Validation.OptionalStringErrors | server/src/tickets/dto/update-ticket.dto.ts:5-9 | an optional string field passes when it is missing or null, or when its converted value is a string of measured length within bounds |
| Validation.IdErrors | server/src/messages/dto/create-message.dto.ts:6-16 | a converted id passes exactly when it is a finite number with an integral value of at least 1; NaN and the infinities fail |
| Validation.ForbiddenErrors | server/test/tickets.e2e-spec.ts:70-79 | no message exactly when the body carries only declared properties |
| Validation.StatusErrors | server/src/tickets/dto/update-ticket.dto.ts:17-19 | an optional status passes exactly when it is missing or null, or is one of the four status strings |
| Validation.PriorityErrors | server/src/tickets/dto/update-ticket.dto.ts:21-23 | an optional priority passes exactly when it is missing or null, or is one of the three priority strings |
| Validation.TypeErrors | server/src/messages/dto/create-message.dto.ts:24-26 | `type` passes exactly when it is present and one of the three message-type strings |
| Validation.InternalErrors | server/src/messages/dto/create-message.dto.ts:28-30 | a converted `isInternal` passes exactly when it is missing or null, or is a boolean |
| Validation.CreateTicketSound | server/src/tickets/dto/create-ticket.dto.ts:4-14 | an accepted body decodes to a valid ticket DTO whose encoding is the body itself |
| Validation.CreateTicketComplete | server/src/tickets/dto/create-ticket.dto.ts:3-15 | every valid ticket DTO's encoding is accepted and decodes back to that DTO |
| Validation.CreateTicketConversion | server/test/tickets.e2e-spec.ts:70-79 | on the body as sent, a ticket is created exactly when the body holds only title and description, neither null nor an array, whose `String()` texts meet the length rules; the ticket holds those texts |
| Validation.CreateTicketEncodingSettled | server/test/tickets.e2e-spec.ts:74-76 | conversion leaves the encoding of every ticket unchanged |
| Validation.CreateTicketEncodingPasses | server/src/tickets/dto/create-ticket.dto.ts:3-15 | a ticket's encoding passes exactly when the ticket is valid, and then yields that ticket |
| Validation.ValidateCreateTicket | server/test/tickets.e2e-spec.ts:199-309 | success exactly when the converted body is the encoding of a valid DTO, yielding that DTO; a failure carries at least one message |
| Validation.UpdateTicketSound | server/src/tickets/dto/update-ticket.dto.ts:5-23 | an accepted patch decodes to a valid patch whose encoding is the body itself |
| Validation.UpdateTicketComplete | server/src/tickets/dto/update-ticket.dto.ts:4-24 | every valid patch's encoding is accepted and decodes back to that patch |
| Validation.UpdateTicketEncodingSettled | server/test/tickets.e2e-spec.ts:74-76 | conversion leaves the encoding of every patch unchanged |
| Validation.UpdateTicketEncodingPasses | server/src/tickets/dto/update-ticket.dto.ts:4-24 | a patch's encoding passes exactly when the patch is valid, and then yields that patch |
| Validation.UpdateTicketEncodingInjective | server/src/tickets/dto/update-ticket.dto.ts:4-24 | two patches with the same encoding are the same patch |
| Validation.ValidateUpdateTicket | server/test/tickets.e2e-spec.ts:420-492 | success exactly when the converted body is the encoding of a valid patch, the empty patch included; a failure carries at least one message |
| Validation.CreateMessageSound | server/src/messages/dto/create-message.dto.ts:6-30 | an accepted message body decodes to a valid message DTO whose encoding is the body |
| Validation.CreateMessageComplete | server/src/messages/dto/create-message.dto.ts:5-31 | every valid message DTO's encoding is accepted and decodes back to that DTO |
| Validation.CreateMessageEncodingSettled | server/src/messages/dto/create-message.dto.ts:6-12 | conversion leaves the encoding of every message unchanged, ids included |
| Validation.CreateMessageEncodingPasses | server/src/messages/dto/create-message.dto.ts:5-31 | a message's encoding passes exactly when the message is valid, and then yields that message |
| Validation.ValidateCreateMessage | server/src/messages/dto/create-message.dto.ts:1-31 | success exactly when the converted body encodes a message with positive integer ids, content measuring 1..10000, a declared type and an optional boolean; a failure carries a message |
| Validation.ValidateUpdateMessage | server/src/messages/dto/update-message.dto.ts:3-8 | success exactly when the converted body holds only a content string measuring 1..10000; a failure carries a message |
| Validation.UpdateMessageEncodingPasses | server/src/messages/dto/update-message.dto.ts:3-8 | an edit's encoding passes exactly when its content measures 1..10000, and then yields that edit |
| ValidationFacts.TitleLengthDecides | server/src/tickets/dto/create-ticket.dto.ts:4-8 | with a valid description, the body is accepted exactly when the title measures 3..200 |
| ValidationFacts.DescriptionLengthDecides | server/src/tickets/dto/create-ticket.dto.ts:10-14 | with a valid title, the body is accepted exactly when the description measures 10..5000 |
| ValidationFacts.MissingFieldRejected | server/test/tickets.e2e-spec.ts:199-259 | a body without a title or a description is rejected, and the errors say which one is required |
| ValidationFacts.ExtraFieldRejected | server/test/tickets.e2e-spec.ts:293-309 | any undeclared property rejects a create body, with a message naming it |
| ValidationFacts.TitleTestCases | server/test/tickets.e2e-spec.ts:214-244 | "AB" and a 201-character title are rejected; three spaces are accepted |
| ValidationFacts.DescriptionTestCases | server/test/tickets.e2e-spec.ts:261-291 | "Short" and a 5001-character description are rejected |
| ValidationFacts.EmptyUpdateAccepted | server/src/tickets/dto/update-ticket.dto.ts:5-23 | the empty body is accepted as the patch with every field absent |
| ValidationFacts.StatusPatchDecides | server/test/tickets.e2e-spec.ts:458-474 | a status patch is accepted exactly for a status value; "in progress" passes and "invalid_status" fails |
| ValidationFacts.PriorityPatchDecides | server/test/tickets.e2e-spec.ts:476-492 | a priority patch is accepted exactly for a priority value |
| ValidationFacts.UndeclaredPatchRejected | server/src/tickets/dto/update-ticket.dto.ts:4-24 | a patch with any property other than the four declared ones is rejected |
| ValidationFacts.SenderRequired | server/src/messages/dto/create-message.dto.ts:12-16 | a message whose sender is missing, null, `false` or a number below 1 is rejected |
| ValidationFacts.ContentRulesAgree | server/src/messages/dto/update-message.dto.ts:4-8 | for valid ids, creating and editing accept exactly the same contents |
| ValidationFacts.SelectorNotCounted | server/src/tickets/dto/create-ticket.dto.ts:6 | "ab" followed by U+FE0F has three characters but is too short for a title |
| ValidationFacts.NumericTitleAccepted | server/test/tickets.e2e-spec.ts:74-76 | `{title: 12345, description: "0123456789"}` creates the ticket titled "12345" |
| ValidationFacts.ObjectDescriptionAccepted | server/test/tickets.e2e-spec.ts:74-76 | an object sent as description is accepted as "[object Object]" |
| ValidationFacts.TwoFieldBody | server/src/tickets/dto/create-ticket.dto.ts:1-15 | a create body of a title and a description, neither null nor an array, whose converted texts meet the length rules, creates the ticket of those texts |
| ValidationFacts.NumericStatusRefused | server/src/tickets/dto/update-ticket.dto.ts:17-19 | the number 1 sent as status is refused |
| ValidationFacts.StatusRefused | server/src/tickets/dto/update-ticket.dto.ts:17-19 | a patch whose status does not convert to a member of the enum is refused |
| ValidationFacts.InternalTextIsTrue | server/src/messages/dto/create-message.dto.ts:28-30 | `isInternal: "false"` yields a message marked internal |
| ValidationFacts.IdsConverted | server/src/messages/dto/create-message.dto.ts:6-10 | a ticket id sent as `true` becomes 1, and one sent as "7" becomes 7 |
| ValidationFacts.MessageBodyConverted | server/src/messages/dto/create-message.dto.ts:6-30 | a body whose ticket id and `isInternal` convert to those of a valid message, the other fields matching, yields that message |
| MessageStore.IdsUnique | server/src/entities/message.entity.ts:18-21 | in a valid store two positions with the same id are the same position |
| MessageStore.CreateMessage | server/src/messages/messages.service.ts:19-35 | appends one message carrying exactly the arguments, under a fresh id; validity is kept |
| MessageStore.CreateFromRequest | server/src/messages/messages.controller.ts:30-39 | a validated body becomes a message with that sender and ticket, internal only when the body says true |
| MessageStore.GetMessagesByTicketId | server/src/messages/messages.service.ts:37-48 | exactly the ticket's messages, internal ones only on request, in non-decreasing creation time, as a permutation of the filtered table |
| MessageStore.GetLatestMessage | server/src/messages/messages.service.ts:51-57 | null exactly when the ticket has no message; otherwise one of its messages with the greatest creation time |
| MessageStore.FindById | server/src/messages/messages.service.ts:65 | null exactly when no message has the id; otherwise a stored message with that id |
| MessageStore.UpdateMessage | server/src/messages/messages.service.ts:63-66 | only the content of the message with that id changes; an unknown id changes nothing and yields null; validity is kept |
| MessageStore.SetContentFacts | server/src/messages/messages.service.ts:64 | the ids present are unchanged, every row with the id carries the new content, and an absent id leaves the table as it is |
| MessageStore.SetContentKeepsIds | server/src/messages/messages.service.ts:64 | every position keeps its id, so a valid store stays valid |
| MessageStore.DeleteMessage | server/src/messages/messages.service.ts:59-61 | no message with the id remains; every other message stays, in order; validity is kept |
| Users.Public | server/src/users/users.service.ts:55-56 | the public user keeps id, username, email and role, and carries no password hash |
| Users.FirstMatch | server/src/users/users.service.ts:16-21 | the first row, in table order, whose username or email matches; none exactly when no row matches |
| Users.Register | server/src/users/users.service.ts:14-38 | refused exactly when the username or email is taken, with the message for whichever is taken; otherwise appends a "user" row with the password's hash, keeping uniqueness and fresh ids |
| Users.Login | server/src/users/users.service.ts:40-57 | success only for a matching row whose hash matches; an unknown identifier and a wrong password give the same error |
| Users.FindById | server/src/users/users.service.ts:59-61 | null exactly when no row has the id; otherwise a row with that id |
| Users.FindByIdUnique | server/src/entities/user.entity.ts:10-13 | in a valid directory the lookup by a row's id returns that row |
| Users.LoginByUniqueName | server/src/users/users.service.ts:42-56 | when exactly one row answers to the identifier, login succeeds exactly when the password matches that row, and returns it |
| Users.RegisterThenLogin | server/src/users/users.service.ts:14-57 | a new user logs in by username with the same password, unless an earlier account has that username as its email |
| Users.RegisterThenLoginByEmail | server/src/users/users.service.ts:16-47 | a new user logs in by email, unless an earlier account has that email as its username |
| Users.UsernameShadowedByEmail | server/src/users/users.service.ts:16-28 | an example where registration takes another account's email as a username, and login by that name reaches the older account |
| Sessions.SessionOf | server/src/users/users.controller.ts:27-28 | the session a sign-in leaves is signed in exactly when the user id is truthy |
| Sessions.Register | server/src/users/users.controller.ts:16-31 | missing fields give "All fields are required"; any failure leaves directory and session unchanged; success signs the new "user" in |
| Sessions.Login | server/src/users/users.controller.ts:33-46 | the directory never changes; any failure leaves the session; success stores that user's id and role |
| Sessions.Me | server/src/users/users.controller.ts:48-56 | null without a signed-in session or for an unknown id; otherwise the stored user with the session's id, without hash |
| Sessions.Logout | server/src/users/users.controller.ts:57-62 | both fields cleared, the reply is null, and `me` then returns null |
| Sessions.RegisterThenMe | server/src/users/users.controller.ts:25-55 | after registering, `me` returns the registered user |
| Sessions.LoginThenMe | server/src/users/users.controller.ts:42-55 | after logging in, `me` returns the user who logged in |
| Seed.SeedUsers | server/src/seed/seed.service.ts:33-53 | three accounts with consecutive ids and the roles system, admin, user |
| Seed.SeedTickets | server/src/seed/seed.service.ts:56-72 | two open tickets, high then medium priority, both owned by the given user |
| Seed.OnModuleInit | server/src/seed/seed.service.ts:23-75 | nothing changes when a user exists; otherwise exactly three accounts and two open tickets owned by "user" are added, and directory validity is kept |
| Seed.SeedIdempotent | server/src/seed/seed.service.ts:26-30 | seeding twice, at any instants, gives the state of seeding once |
| Seed.SeededAccountsLogIn | server/src/seed/seed.service.ts:33-51 | each seeded password opens its account, and "admin" logs in as the admin account |
| Seed.SeededTicketsValid | server/src/seed/seed.service.ts:56-70 | the seeded titles and descriptions satisfy the create-ticket rules |
| TicketsController.Create | server/src/tickets/tickets.controller.ts:22-27 | refused exactly without a signed-in session; otherwise the DTO is handed on with the session user as actor |
| TicketsController.FindAll | server/src/tickets/tickets.controller.ts:29-39 | refused exactly without a signed-in session; all tickets for the admin role, the caller's own otherwise |
| TicketsController.Update | server/src/tickets/tickets.controller.ts:46-55 | refused exactly without a signed-in session; otherwise the patch and the id's decimal text, which reads back as the id |
| TicketsController.FindOne | server/src/tickets/tickets.controller.ts:41-44 | no session needed; the id's text reads back as the id |
| TicketsController.History | server/src/tickets/tickets.controller.ts:57-60 | no session needed; the id's text reads back as the id |
| TicketsController.Suggestion | server/src/tickets/tickets.controller.ts:62-64 | no session needed; the id's text reads back as the id |
| TicketsController.Remove | server/src/tickets/tickets.controller.ts:68-71 | no session needed; the id's text reads back as the id |
| TicketsController.SuggestionReply | server/src/tickets/tickets.controller.ts:65 | the suggestion is returned exactly when it is a non-empty string, and null otherwise |
| TicketsController.Listing | server/test/tickets.e2e-spec.ts:332-385 | 401 without a session; every row for an admin; for anyone else only the caller's rows, all of them, in table order |
| TicketsController.LoggedOutIsRefused | server/src/tickets/tickets.controller.ts:24-53 | after logout, create, list and update all refuse |
| Workflow.UpdateStatus | BackendTicketSupport/src/main/java/SpringBoot/BackendTicketSupport/TicketWorkflowService.java:70-87 | unknown ticket: nothing changes; otherwise only that ticket's status changes and exactly one system-signed row (old, new) is appended, even for an unchanged status |
| Workflow.ProcessTicket | BackendTicketSupport/src/main/java/SpringBoot/BackendTicketSupport/TicketWorkflowService.java:48-64 | an existing ticket ends "resolved" after two rows: old to "in progress", then "in progress" to "resolved"; other tickets are untouched |
| Workflow.LastRecorded | BackendTicketSupport/src/main/java/SpringBoot/BackendTicketSupport/TicketWorkflowService.java:79-86 | none exactly when no row concerns the ticket; otherwise a status some row of the ticket recorded |
| Workflow.UpdateStatusAgrees | BackendTicketSupport/src/main/java/SpringBoot/BackendTicketSupport/TicketWorkflowService.java:75-86 | the newest history row of every ticket keeps matching its status, and a new row's old status continues the recorded chain |
| Workflow.ProcessTicketAgrees | BackendTicketSupport/src/main/java/SpringBoot/BackendTicketSupport/TicketWorkflowService.java:48-64 | processing keeps history and tickets in agreement, and the newest recorded status is "resolved" |
| Format.ToLower | client/src/components/TicketsList.tsx:128 | same length, each character lower-cased |
| Format.IndexOf | client/src/hooks/useTickets.ts:31 | -1 exactly when the character is absent; otherwise its first position |
| Format.ReplaceFirst | client/src/hooks/useTickets.ts:31 | only the first occurrence is replaced; every other position is unchanged |
| Format.StatusLabel | client/src/hooks/useTickets.ts:29-31 | same length; the first character upper-cased; in the rest only the first "_" becomes a space; "" stays "" |
| Format.StatusLabelAt | client/src/components/TicketHistoryModal.tsx:50-52 | position by position, past the first, the label differs from the value only at the first underscore |
| Format.LabelLowersBack | client/src/hooks/useTickets.ts:29-31 | a lower-case value without "_" is recovered by lower-casing its label |
| Format.StatusLabelRoundTrip | server/src/entities/ticket.entity.ts:13-18 | every stored status value is recovered by lower-casing its label |
| Format.LabelWithoutUnderscore | client/src/components/TicketHistoryModal.tsx:51 | without "_" after the first character, the label is just the capitalised value |
| Format.OnlyFirstUnderscore | client/src/hooks/useTickets.ts:31 | "a_b_c" is labelled "A b_c": a later underscore survives |
| Format.NotesCell | client/src/components/TicketHistoryModal.tsx:142 | the notes when non-empty, "-" otherwise; never empty |
| Format.ShouldFetchHistory | client/src/components/TicketHistoryModal.tsx:22-26 | fetches exactly when the modal is open and the ticket id is truthy |
| Format.Rem24 | client/src/utils/fct.tsx:23 | JavaScript's remainder by 24: congruent to the hour modulo 24, in 0..23 for a non-negative hour and the identity there below 24, in -23..0 for a negative one |
| Format.DateTextFields | client/src/utils/fct.tsx:25 | with the field widths given, each field sits at a fixed offset behind the fixed separators |
| Format.FormatDate | client/src/utils/fct.tsx:14-27 | nothing exactly for an empty date string; otherwise text ending in the meridiem suffix |
| Format.FormatDateLayout | client/src/utils/fct.tsx:17-25 | for in-range components and a four-digit year: 19 characters, with the padded month+1, day, hour and minute reading back at their offsets |
| Format.AfternoonKeeps24Hour | client/src/utils/fct.tsx:20-24 | 15:05 is rendered "15:05 PM": the hour stays on the 24-hour clock |
| Numbers.NatToString | client/src/utils/fct.tsx:17 | only digits, one exactly below 10, and no leading zero from 10 on |
| Numbers.ReadNatToString | client/src/utils/fct.tsx:17 | reading the digits back gives the number |
| Numbers.IntToString | server/src/tickets/tickets.controller.ts:43 | a minus sign exactly for negatives, digits otherwise |
| Numbers.IntRoundTrip | server/src/tickets/tickets.controller.ts:43 | parsing the decimal text of an integer gives the integer back |
| Numbers.IntToStringInjective | server/src/tickets/tickets.controller.ts:54 | distinct ids give distinct texts |
| Numbers.PadStart | client/src/utils/fct.tsx:18-21 | fill characters in front up to the width; the original text is the suffix; a long enough text is unchanged |
| Numbers.Pad2RoundTrip | client/src/utils/fct.tsx:18-24 | a number below 100 padded to two digits reads back as itself |
| Numbers.FourDigits | client/src/utils/fct.tsx:17 | a year of 1000..9999 renders as four characters |
| Seqs.Filter | client/src/components/AdminTicketsList.tsx:68-74 | keeps exactly the elements that satisfy the predicate |
| Seqs.FilterIsSubsequence | client/src/hooks/useTickets.ts:53 | the filtered list keeps the original order |
| Seqs.FilterAll | client/src/components/AdminTicketsList.tsx:63-74 | a predicate true of every element filters nothing |
| Seqs.FilterKeepsIncreasing | server/src/messages/messages.service.ts:59-61 | removing rows keeps ids strictly increasing |
| Sorting.Insert | client/src/components/AdminTicketsList.tsx:77-104 | inserting into a sorted list adds exactly that element and keeps it sorted |
| Sorting.SortBy | client/src/components/AdminTicketsList.tsx:77-79 | a permutation of its input, non-decreasing in the key |
| Sorting.SameElements | client/src/components/TicketsList.tsx:40-42 | a permutation holds the same elements both ways |
| ClientTickets.FromBackend | client/src/hooks/useTickets.ts:26-38 | copies id, priority and response, renames title and description, and labels the status so that lower-casing gives back the stored value |
| ClientTickets.Loaded | client/src/hooks/useTickets.ts:18-46 | every fetched row mapped, in server order; a failed fetch leaves the list empty with "Failed to fetch tickets" |
| ClientTickets.FindTicket | client/src/components/AdminTicketsList.tsx:111 | none exactly when no entry has the id; otherwise a listed entry with it |
| ClientTickets.DeleteTicket | client/src/hooks/useTickets.ts:48-57 | on ok no entry has the id and the rest keep their order; otherwise the list is kept and "Failed to delete ticket" recorded |
| ClientTickets.MapAll | client/src/hooks/useTickets.ts:26-38 | the mapped list has one entry per fetched row, in order, each the client form of that row |
| ClientTickets.Merge | client/src/hooks/useTickets.ts:72 | the given fields overwrite, every other field stays |
| ClientTickets.MergeWhere | client/src/hooks/useTickets.ts:71-73 | same length; each entry with the id becomes its merge with the changes, every other entry is unchanged |
| ClientTickets.UpdateTicket | client/src/hooks/useTickets.ts:59-77 | on ok the length and the error are kept, each entry with the id becomes its merge with the changes, others are unchanged; otherwise the list is kept and "Failed to update ticket" recorded; the loading flag never changes |
| ClientTickets.CreateBody | client/src/hooks/useTickets.ts:85-94 | subject sent as title, message as description; undefined fields are left out of the body |
| ClientTickets.CreateTicket | client/src/hooks/useTickets.ts:79-114 | a created row is appended once, at the end, mapped like a fetched row, and returned; a failure keeps the list and returns null |
| ClientTickets.CreateBodyAccepted | server/test/tickets.e2e-spec.ts:293-309 | the form's body is accepted exactly when it holds only subject and message within the create-ticket bounds |
| ClientTickets.CreatedEntryEchoesDraft | client/src/hooks/useTickets.ts:98-106 | when the server echoes title and description, the new entry shows the typed subject and message |
| ClientMessages.FetchOnMount | client/src/hooks/useMessages.ts:132-136 | messages are fetched on mount exactly for a truthy ticket id |
| ClientMessages.FetchMessages | client/src/hooks/useMessages.ts:26-50 | the server's list replaces the local one; a failure keeps it and records "Failed to fetch messages" |
| ClientMessages.SendBody | client/src/hooks/useMessages.ts:52-71 | the posted body carries the arguments, with isInternal false unless given true |
| ClientMessages.SendMessage | client/src/hooks/useMessages.ts:52-86 | the returned message is appended and handed back, keeping the error; a failure keeps the list, records "Failed to send message" and returns null; the loading flag never changes |
| ClientMessages.ReplaceWhere | client/src/hooks/useMessages.ts:104-106 | same length; each entry with the id becomes the given message, every other entry is unchanged |
| ClientMessages.UpdateMessage | client/src/hooks/useMessages.ts:89-112 | same length; entries with the id become the server's message, others stay, the error is kept and the message returned; a failure keeps the list, records "Failed to update message" and returns null; the loading flag never changes |
| ClientMessages.DeleteMessage | client/src/hooks/useMessages.ts:114-130 | on ok no entry has the id, the rest stay in order, the error is kept and true is returned; otherwise the list is kept, "Failed to delete message" recorded and false returned; the loading flag never changes |
| ClientMessages.SendMirrorsServer | client/src/hooks/useMessages.ts:80-82 | a client list equal to the server's table rows still equals them after a send, and the created row is handed back |
| ClientMessages.DeleteMirrorsServer | client/src/hooks/useMessages.ts:124 | a client list equal to the server's table rows still equals them after both sides delete |
| ClientMessages.EditMirrorsServer | client/src/hooks/useMessages.ts:103-107 | a client list equal to the server's table rows still equals them after an edit, with the server's reply placed where the server changed the row |
| ClientMessages.EditedRows | server/src/messages/messages.service.ts:63-66 | on a valid store the edit replaces exactly the rows with the id, each by the returned message |
| AdminTickets.PriorityOrder | client/src/components/AdminTicketsList.tsx:41 | high ranks 0, low ranks 2, medium between |
| AdminTickets.FilterTickets | client/src/components/AdminTicketsList.tsx:68-74 | exactly the tickets passing both filters, in their original order, never more than the list; with both filters at "all" the whole list |
| AdminTickets.StatusFilterMatchesBackend | client/src/components/AdminTicketsList.tsx:69-70 | on a mapped server row a status filter matches exactly the rows stored with that value |
| AdminTickets.SortTickets | client/src/components/AdminTicketsList.tsx:77-104 | every mode returns a permutation: newest first, oldest first, low first, or high first for "priority" and any unknown mode |
| AdminTickets.DefaultBoard | client/src/components/AdminTicketsList.tsx:63-65 | with the default filters and order, nothing is lost or invented and every high ticket comes before every other |
| AdminTickets.StatusOptionsAccepted | client/src/components/AdminTicketsList.tsx:43-48 | the selector offers exactly the stored status values, and each update it issues passes the update-ticket check |
| AdminTickets.HandleDelete | client/src/components/AdminTicketsList.tsx:110-115 | arms confirmation only for a listed id, with a listed entry with that id |
| AdminTickets.ConfirmDelete | client/src/components/AdminTicketsList.tsx:117-124 | one delete for the armed ticket and every modal closed; nothing when nothing is armed |
| AdminTickets.CancelDelete | client/src/components/AdminTicketsList.tsx:126-128 | disarms, issues nothing, keeps the other modals |
| AdminTickets.DeleteFlow | client/src/components/AdminTicketsList.tsx:110-128 | asking about a listed ticket then confirming deletes exactly it, and no entry with its id is left; cancelling issues nothing |
| UserTickets.Newest | client/src/components/TicketsList.tsx:40-42 | a permutation of the list in non-increasing creation time |
| UserTickets.CanActBackend | client/src/components/TicketsList.tsx:128-145 | on a mapped server row, Respond and Close are offered exactly when the stored status is not closed |
| UserTickets.Select | client/src/components/TicketsList.tsx:124 | the eye button views the ticket and touches no other modal |
| UserTickets.HandleRespond | client/src/components/TicketsList.tsx:44-46 | Respond opens the conversation, not the response form |
| UserTickets.HandleClose | client/src/components/TicketsList.tsx:48-53 | arms close confirmation only for a listed id |
| UserTickets.ConfirmClose | client/src/components/TicketsList.tsx:55-62 | one `{status: "closed"}` update for the armed ticket, clearing the armed, viewed and response state; nothing when nothing is armed |
| UserTickets.CancelClose | client/src/components/TicketsList.tsx:64-66 | disarms and issues nothing |
| UserTickets.SubmitResponse | client/src/components/TicketsList.tsx:68-78 | for an open form, one update carrying only the response, then form, view and draft reset; nothing otherwise |
| UserTickets.CloseFlow | client/src/components/TicketsList.tsx:48-62 | closing a listed ticket issues its close update, after which no entry with its id offers Respond or Close |
| UserTickets.RequestBodies | client/src/components/TicketsList.tsx:57-73 | the close body passes the update-ticket check; a response body does not |
| UserTickets.RespondStaysClosed | client/src/components/TicketsList.tsx:33-78 | no handler opens the response form, so no response is ever submitted |
| Text.TrimStart | client/src/components/Conversation.tsx:32 | a suffix of the input; all removed characters are white space; it starts with a non-space |
| Text.TrimEnd | client/src/components/Conversation.tsx:32 | a prefix of the input; all removed characters are white space; it ends with a non-space |
| Text.Trim | client/src/components/Conversation.tsx:32 | empty exactly for all-white-space input; otherwise no white space at either end |
| Text.TrimIdempotent | client/src/components/Conversation.tsx:35 | trimming a trimmed text changes nothing |
| Text.TrimKeeps | client/src/components/Conversation.tsx:35 | a text with no white space at either end is its own trim |
| Text.TrimPadding | client/src/components/Conversation.tsx:35 | white space around a text with non-space ends is removed exactly |
| JsonNumbers.FromInt | server/src/messages/dto/create-message.dto.ts:6 | the decimal of an integer has that integer's value |
| JsonNumbers.IntegerExactly | server/src/messages/dto/create-message.dto.ts:7 | a decimal is an integer in the canonical form exactly when its value equals its floor |
| JsonNumbers.AtLeastOneExactly | server/src/messages/dto/create-message.dto.ts:8 | the test on the canonical form holds exactly when the value is at least 1 |
| JsonNumbers.NumberText | server/test/tickets.e2e-spec.ts:74-76 | the `String()` text of a number is non-empty, starts with a minus sign exactly for a negative number, and otherwise with a digit |
| JsonNumbers.IntegerText | server/test/tickets.e2e-spec.ts:74-76 | an integer of magnitude below 10^21 renders as its plain decimal digits |
| JsonNumbers.NumberTextExamples | server/test/tickets.e2e-spec.ts:74-76 | 1.5, 0.000001, 1e-7 and -2.5 render as in JavaScript |
| JsonNumbers.LargeIntegerText | server/test/tickets.e2e-spec.ts:74-76 | 10^21 renders in exponent form, "1e+21" |
| JsonNumbers.JsText | server/test/tickets.e2e-spec.ts:74-76 | the text of any number is non-empty; a finite one starts with a sign or a digit |
| JsonNumbers.Truthy | server/src/messages/dto/create-message.dto.ts:28-30 | false exactly for NaN and for zero |
| JsonNumbers.Normalize | server/src/messages/dto/create-message.dto.ts:6 | the canonical form keeps the value of the decimal it normalises |
| JsonNumbers.Negate | server/src/messages/dto/create-message.dto.ts:6 | the negation has the opposite value |
| JsonNumbers.StringToNumber | server/src/messages/dto/create-message.dto.ts:6 | a blank or white-space-only string reads as 0 |
| JsonNumbers.DigitsReadBack | server/src/messages/dto/create-message.dto.ts:6 | reading the decimal digits of a natural number gives that number |
| JsonNumbers.IntTextReadsBack | server/src/messages/dto/create-message.dto.ts:6 | `Number()` of an integer's decimal text is that integer |
| JsonNumbers.IntegerRoundTrip | server/test/tickets.e2e-spec.ts:74-76 | an integer of magnitude below 10^21 survives `Number(String(i))` |
| JsonNumbers.SpaceIgnored | server/src/messages/dto/create-message.dto.ts:6 | surrounding white space never changes what a string reads as |
| JsonNumbers.PaddedDigits | server/src/messages/dto/create-message.dto.ts:6 | " 42\n" reads as 42 |
| JsonNumbers.HexLiteral | server/src/messages/dto/create-message.dto.ts:6 | "0x1A" reads as 26 |
| JsonNumbers.ExponentLiteral | server/src/messages/dto/create-message.dto.ts:6 | "1e3" reads as 1000 |
| JsonNumbers.IncompleteExponent | server/src/messages/dto/create-message.dto.ts:6 | "1e" reads as NaN |
| JsonNumbers.SignedHex | server/src/messages/dto/create-message.dto.ts:6 | "-0x1A" reads as NaN: a radix literal takes no sign |
| JsonNumbers.Letters | server/src/messages/dto/create-message.dto.ts:6 | "abc" reads as NaN |
| JsonNumbers.SignedInfinity | server/src/messages/dto/create-message.dto.ts:6 | "-Infinity" reads as negative infinity |
| Conversation.MessageTypeFor | client/src/components/Conversation.tsx:34 | "admin" exactly for the admin view, "client" otherwise, never "system" |
| Conversation.CanEdit | client/src/components/Conversation.tsx:70-73 | admins edit everything; others only messages whose sender is them, never a sender-less message |
| Conversation.CanDelete | client/src/components/Conversation.tsx:75-78 | admins delete everything; others only messages whose sender is them |
| Conversation.EditDeleteAgree | client/src/components/Conversation.tsx:70-78 | the two permissions agree on every input |
| Conversation.SenderOf | client/src/components/Conversation.tsx:35 | the user's id, or 0 without a user |
| Conversation.HandleSend | client/src/components/Conversation.tsx:30-40 | nothing for a blank draft; otherwise the trimmed draft with the view's type and the user's id; the draft is cleared only on success |
| Conversation.NoUserRejected | client/src/components/Conversation.tsx:35 | without a user the panel still sends, with sender 0, and the create-message check refuses it |
| Conversation.SelectorDraftRejected | client/src/components/Conversation.tsx:30-40 | a draft of a lone U+FE0F is not blank, so it is sent, and the server rejects it as empty |
| Conversation.StartEditing | client/src/components/Conversation.tsx:54-57 | the message is being edited and its text is loaded; the draft is untouched |
| Conversation.CancelEditing | client/src/components/Conversation.tsx:59-62 | nothing is being edited and the edit text is empty |
| Conversation.HandleEdit | client/src/components/Conversation.tsx:42-52 | nothing without a message or with blank text; otherwise one edit with the trimmed text; the editor is cleared only on success |
| Conversation.EditUnchanged | client/src/components/Conversation.tsx:42-57 | saving an untouched message sends its trimmed text back, unless that text is blank |

## Left out

- HTTP, routing, CORS, the session middleware and the bootstrap are not modelled. A session is the pair of fields the handlers read.
- Validation runs only where the end-to-end test installs the whitelisting, converting pipe (server/test/tickets.e2e-spec.ts:70-79). The model states what that pipe decides.
- Numbers are exact decimals. IEEE-754 doubles are not modelled: there is no rounding of long literals (more than 15 to 17 significant digits), no overflow to infinity (`1e400`) and no negative zero. `Number(s)` and `String(x)` are exact on the values they produce.
- Arrays and nested objects are opaque values. Conversion of array elements and an object's own `toString` or `valueOf` are not modelled; an object converts as a plain object does.
- A string is a sequence of code points, so a lone surrogate cannot be written. `isLength` counts a surrogate pair once, which is what a code point count gives.
- The tickets service is not part of this model. Its calls from the controller are uninterpreted, and only the listing gets a meaning. This covers ticket creation, AI results, status history on the Node side, and lookup by id.
- TicketsController.Listing: the end-to-end test checks less than the contract states. It checks only that an admin receives at least two rows and that every row a user receives is that user's own. That a user receives all of their rows, in table order, is this model's reading of the service.
- The OpenAI call is not modelled. The suggestion is a parameter.
- bcrypt hashing and comparison are a `Crypto` parameter with the single assumption that a password matches its own hash.
- Date parsing, time zones, `toISOString` and `getTime` are left out. An instant is an integer; the rendering of `createdAt` and the reading of `created` are parameters. `FormatDate` takes its components as given integers.
- The empty-`createdAt` fallback in the ticket mapping is not modelled: every row carries a creation instant.
- The workflow's asynchronous runner, its sleeps and its exception handling are left out. `ProcessTicket` is the sequential effect of its two updates, with the two clock readings as parameters.
- Case mapping covers ASCII letters only. `toLowerCase` and `toUpperCase` on other scripts are not modelled.
- The message's `sender` relation is not modelled. The server's listing (server/src/messages/messages.service.ts:40) and `getLatestMessage` (:55) join the sender user, but the row that `createMessage` saves (:26-34) and the row that `updateMessage` reads back (:66) carry none. So after a send or an edit the client's row has no `sender`, and the conversation panel labels it "System" (client/src/components/Conversation.tsx:169) until the next fetch. The mirror lemmas compare table rows, which is what both sides hold apart from that join.
- Message `createdAt` values are given by the caller. The order of rows with equal creation times is taken as insertion order.
- TypeORM's `findOne` with two alternatives is modelled as the first match in table order. Database unique constraints are expressed as an invariant, not enforced by the operations.
- Non-string bodies sent to the account endpoints are not modelled: each field is an optional string.
- The user `createdAt` column and the null status a Java ticket might have are not modelled.
- JSX rendering, modals, scrolling, `window.confirm`, the login page, the ticket form, local storage and routing are left out.
- A failed request's error text is the fixed message each hook throws. Network errors carrying other messages are not modelled.
- Text.Trim: does not state that the trimmed text is a contiguous slice of the draft, only that it is empty exactly for white space and has non-space ends.
- Sorting.SortBy: is stated as a sorted permutation. The stability of JavaScript's sort is built into the definition but not stated as a property.
- JsonNumbers.StringToNumber: its own contract states only that a blank string reads as 0. The grammar is pinned by the round-trip lemmas (`IntTextReadsBack`, `IntegerRoundTrip`, `SpaceIgnored`) and by the literal examples, not by one closed-form property.
