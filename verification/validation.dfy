/** The request-body validators: the class-validator decorators of the four
    DTOs, applied as the ValidationPipe of the end-to-end test applies them
    (whitelist, forbid non-whitelisted properties, implicit conversion). The
    body is first converted property by property to the declared types, as
    class-transformer does, and the converted body is validated. Each
    validator either yields the typed DTO or the set of constraint messages
    that failed; each DTO has an encoder, and a body validates exactly when
    its conversion is the encoding of a DTO that satisfies the field rules. */
module Validation {
  import opened Wrappers
  import opened Domain
  import JsonNumbers

  /** A JSON value as it reaches the pipe, or after conversion. JSON text
      only yields finite numbers; `Number(v)` can also give NaN or an
      infinity. Arrays and nested objects are opaque. */
  datatype Json =
    | JString(s: string)
    | JNumber(n: JsonNumbers.JsNumber)
    | JBool(b: bool)
    | JNull
    | JArray
    | JObject

  /** A request body: the properties that are present, by name. */
  type Body = map<string, Json>

  /** An `@IsOptional()` field: missing, explicitly null, or given. */
  datatype Optional<T> = Absent | Null | Given(value: T)

  const TitleMin: nat := 3
  const TitleMax: nat := 200
  const DescriptionMin: nat := 10
  const DescriptionMax: nat := 5000
  const ContentMin: nat := 1
  const ContentMax: nat := 10000

  const StatusMessage := "Status must be one of: open, in progress, resolved, closed"
  const PriorityMessage := "Priority must be one of: low, medium, high"
  const TypeMessage := "Type must be one of: client, admin, system"

  /** U+FE0E and U+FE0F select a glyph's presentation; validator.js's
      `isLength` does not count them. */
  predicate IsVariationSelector(c: char) {
    c == '\U{FE0E}' || c == '\U{FE0F}'
  }

  /** The length `isLength` measures: characters, minus variation selectors.
      A surrogate pair counts once there and is one `char` here. */
  function MeasuredLength(s: string): (r: nat)
    ensures r <= |s|
  {
    if |s| == 0 then 0
    else MeasuredLength(s[..|s| - 1]) + (if IsVariationSelector(s[|s| - 1]) then 0 else 1)
  }

  predicate ValidTitle(t: string) { TitleMin <= MeasuredLength(t) <= TitleMax }
  predicate ValidDescription(d: string) { DescriptionMin <= MeasuredLength(d) <= DescriptionMax }
  predicate ValidContent(c: string) { ContentMin <= MeasuredLength(c) <= ContentMax }

  /** The measured length is the length less the number of selectors. */
  lemma {:induction false} MeasuredLengthCounts(s: string)
    ensures MeasuredLength(s) == |s| - multiset(s)['\U{FE0E}'] - multiset(s)['\U{FE0F}']
  {
    if |s| > 0 {
      var init := s[..|s| - 1];
      MeasuredLengthCounts(init);
      assert s == init + [s[|s| - 1]];
      assert multiset(s) == multiset(init) + multiset{s[|s| - 1]};
    }
  }

  /** Without variation selectors the measured length is the length. */
  lemma {:induction false} PlainLength(s: string)
    requires forall i :: 0 <= i < |s| ==> !IsVariationSelector(s[i])
    ensures MeasuredLength(s) == |s|
  {
    if |s| > 0 {
      PlainLength(s[..|s| - 1]);
    }
  }

  // ---------------------------------------------------------------------
  // class-transformer's implicit conversion (plainToInstance)

  /** The type a DTO property converts to: `@Type(() => Number)` on the ids,
      otherwise the reflected design type, which is String for strings and
      string enums and Boolean for booleans. Properties a DTO does not
      declare have no type and are left alone. */
  datatype PropertyType = StringType | NumberType | BooleanType | Undeclared

  /** `String(v)` on a non-array value. */
  function StringCast(v: Json): string
    requires !v.JArray?
  {
    match v
    case JString(s) => s
    case JNumber(x) => JsonNumbers.JsText(x)
    case JBool(b) => if b then "true" else "false"
    case JNull => "null"
    case JObject => "[object Object]"
  }

  /** `Number(v)` on a non-array value. */
  function NumberCast(v: Json): JsonNumbers.JsNumber
    requires !v.JArray?
  {
    match v
    case JString(s) => JsonNumbers.StringToNumber(s)
    case JNumber(x) => x
    case JBool(b) => JsonNumbers.Finite(JsonNumbers.FromInt(if b then 1 else 0))
    case JNull => JsonNumbers.Finite(JsonNumbers.FromInt(0))
    case JObject => JsonNumbers.NaN
  }

  /** `Boolean(v)` on a non-array value. */
  function BooleanCast(v: Json): bool
    requires !v.JArray?
  {
    match v
    case JString(s) => s != ""
    case JNumber(x) => JsonNumbers.Truthy(x)
    case JBool(b) => b
    case JNull => false
    case JObject => true
  }

  /** The value a property of type `t` holds after conversion: null and
      arrays are kept (array elements are converted, which the opaque
      `JArray` does not show), an undeclared property is kept, and any
      other value becomes `String(v)`, `Number(v)` or `Boolean(v)`. */
  function Implicit(t: PropertyType, v: Json): (r: Json)
    ensures t.StringType? && !v.JNull? && !v.JArray? ==> r.JString?
    ensures t.NumberType? && !v.JNull? && !v.JArray? ==> r.JNumber?
    ensures t.BooleanType? && !v.JNull? && !v.JArray? ==> r.JBool?
  {
    if v.JNull? || v.JArray? then v
    else match t
      case StringType => JString(StringCast(v))
      case NumberType => JNumber(NumberCast(v))
      case BooleanType => JBool(BooleanCast(v))
      case Undeclared => v
  }

  /** A value conversion leaves as it is: null, an array, an undeclared
      property, or a value that already has its property's type. */
  predicate Settled(t: PropertyType, v: Json) {
    || v.JNull? || v.JArray? || t.Undeclared?
    || (t.StringType? && v.JString?)
    || (t.NumberType? && v.JNumber?)
    || (t.BooleanType? && v.JBool?)
  }

  /** Conversion changes exactly the values that are not settled, and what
      it yields is settled: converting twice converts nothing more. */
  lemma ImplicitFixedPoints(t: PropertyType, v: Json)
    ensures Implicit(t, v) == v <==> Settled(t, v)
    ensures Settled(t, Implicit(t, v))
    ensures Implicit(t, Implicit(t, v)) == Implicit(t, v)
  {
  }

  /** The body after conversion, property by property. */
  function Transform(b: Body, typeOf: string -> PropertyType): (r: Body)
    ensures r.Keys == b.Keys
    ensures forall k :: k in b ==> r[k] == Implicit(typeOf(k), b[k])
  {
    map k | k in b :: Implicit(typeOf(k), b[k])
  }

  /** A body whose values are all settled is not changed by conversion. */
  lemma SettledBody(b: Body, typeOf: string -> PropertyType)
    requires forall k :: k in b ==> Settled(typeOf(k), b[k])
    ensures Transform(b, typeOf) == b
  {
    forall k | k in b
      ensures Implicit(typeOf(k), b[k]) == b[k]
    {
      ImplicitFixedPoints(typeOf(k), b[k]);
    }
  }

  lemma LookupTransform(b: Body, typeOf: string -> PropertyType, k: string)
    ensures Lookup(Transform(b, typeOf), k) == Converted(typeOf(k), Lookup(b, k))
  {
  }

  /** A looked-up property after conversion. */
  function Converted(t: PropertyType, v: Option<Json>): Option<Json> {
    if v.Some? then Some(Implicit(t, v.value)) else None
  }

  // ---------------------------------------------------------------------
  // class-validator checks on a property that may be missing (None)

  /** `@IsNotEmpty()`: fails on undefined, null and "". */
  predicate NotEmpty(v: Option<Json>) {
    v.Some? && v.value != JNull && v.value != JString("")
  }

  /** `@IsOptional()`: all other checks are skipped on undefined or null. */
  predicate Skipped(v: Option<Json>) {
    v.None? || v.value == JNull
  }

  /** `@IsString()`, `@MinLength(min)`, `@MaxLength(max)` on a converted
      value: the length is measured as `isLength` measures it, without
      trimming; a value that is not a string (after conversion, only null, an
      array or a missing property) fails all three. */
  function LengthErrors(name: string, v: Option<Json>, min: nat, max: nat,
                        tooShort: string, tooLong: string): (r: set<string>)
    ensures r == {} <==> v.Some? && v.value.JString? && min <= MeasuredLength(v.value.s) <= max
  {
    if v.Some? && v.value.JString? then
      var n := MeasuredLength(v.value.s);
      (if n < min then {tooShort} else {}) + (if n > max then {tooLong} else {})
    else
      {name + " must be a string", tooShort, tooLong}
  }

  /** A required string field: the length checks plus `@IsNotEmpty()`. */
  function RequiredStringErrors(name: string, v: Option<Json>, required: string, min: nat, max: nat,
                                tooShort: string, tooLong: string): (r: set<string>)
    requires min >= 1
    ensures r == {} <==> v.Some? && v.value.JString? && min <= MeasuredLength(v.value.s) <= max
  {
    LengthErrors(name, v, min, max, tooShort, tooLong) + (if NotEmpty(v) then {} else {required})
  }

  function OptionalStringErrors(name: string, v: Option<Json>, min: nat, max: nat,
                                tooShort: string, tooLong: string): (r: set<string>)
    ensures r == {} <==> Skipped(v) || (v.value.JString? && min <= MeasuredLength(v.value.s) <= max)
  {
    if Skipped(v) then {} else LengthErrors(name, v, min, max, tooShort, tooLong)
  }

  /** `@IsEnum(...)` on a value decoded by `parse`. */
  function EnumErrors<E>(v: Option<Json>, parse: string -> Option<E>, message: string): set<string> {
    if v.Some? && v.value.JString? && parse(v.value.s).Some? then {} else {message}
  }

  /** A converted id: a finite number, with its value. */
  predicate IsFinite(v: Option<Json>) {
    v.Some? && v.value.JNumber? && v.value.n.Finite?
  }

  function NumberValue(v: Option<Json>): real
    requires IsFinite(v)
  {
    JsonNumbers.Value(v.value.n.n)
  }

  /** `@IsInt()`, `@Min(1)`, `@IsNotEmpty()` on a converted id field:
      `Number.isInteger` fails on NaN and the infinities, `min` holds for
      +Infinity. */
  function IdErrors(field: string, v: Option<Json>): (r: set<string>)
    ensures r == {} <==> IsFinite(v) && NumberValue(v).Floor as real == NumberValue(v) && NumberValue(v) >= 1.0
  {
    IdDecided(v);
    var isInt := IsFinite(v) && JsonNumbers.IsInteger(v.value.n.n);
    var positive := (IsFinite(v) && JsonNumbers.AtLeastOne(v.value.n.n))
                    || (v.Some? && v.value == JNumber(JsonNumbers.Infinity(false)));
    (if isInt then {} else {field + " ID must be a valid integer"})
    + (if positive then {} else {field + " ID must be a positive integer"})
    + (if NotEmpty(v) then {} else {field + " ID is required"})
  }

  /** The id checks, decided on the canonical decimal. */
  lemma IdDecided(v: Option<Json>)
    ensures IsFinite(v) ==> (JsonNumbers.IsInteger(v.value.n.n) <==> NumberValue(v).Floor as real == NumberValue(v))
    ensures IsFinite(v) ==> (JsonNumbers.AtLeastOne(v.value.n.n) <==> NumberValue(v) >= 1.0)
  {
    if IsFinite(v) {
      JsonNumbers.IntegerExactly(v.value.n.n);
      JsonNumbers.AtLeastOneExactly(v.value.n.n);
    }
  }

  /** forbidNonWhitelisted: one message per property the DTO does not declare. */
  function ForbiddenErrors(b: Body, declared: set<string>): (r: set<string>)
    ensures r == {} <==> b.Keys <= declared
  {
    var r := set k | k in b.Keys && k !in declared :: "property " + k + " should not exist";
    assert r == {} ==> b.Keys <= declared by {
      forall k | k in b.Keys && k !in declared
        ensures "property " + k + " should not exist" in r
      {
      }
    }
    r
  }

  function Lookup(b: Body, k: string): Option<Json> {
    if k in b then Some(b[k]) else None
  }

  /** The string held by a property, "" when it holds none. */
  function Str(v: Option<Json>): string {
    if v.Some? && v.value.JString? then v.value.s else ""
  }

  // ---------------------------------------------------------------------
  // The field rules on the value as sent, before conversion

  /** A required string property passes exactly when it is present, neither
      null nor an array, and its `String()` text has a measured length within
      bounds: numbers, booleans and objects pass as their text. */
  lemma RequiredStringConversion(name: string, v: Option<Json>, required: string, min: nat, max: nat,
                                 tooShort: string, tooLong: string)
    requires min >= 1
    ensures RequiredStringErrors(name, Converted(StringType, v), required, min, max, tooShort, tooLong) == {}
            <==> v.Some? && !v.value.JNull? && !v.value.JArray? && min <= MeasuredLength(StringCast(v.value)) <= max
  {
  }

  /** An optional string property passes exactly when it is missing or null,
      or is not an array and its `String()` text is within bounds. */
  lemma OptionalStringConversion(name: string, v: Option<Json>, min: nat, max: nat,
                                 tooShort: string, tooLong: string)
    ensures OptionalStringErrors(name, Converted(StringType, v), min, max, tooShort, tooLong) == {}
            <==> Skipped(v) || (!v.value.JArray? && min <= MeasuredLength(StringCast(v.value)) <= max)
  {
  }

  /** No `String()` text of a value other than a string spells an enum
      member: numbers start with a digit or a sign, or read NaN or Infinity,
      and the rest are "true", "false", "null" and "[object Object]". */
  lemma NoEnumText(v: Json)
    requires !v.JString? && !v.JArray?
    ensures ParseStatus(StringCast(v)) == None
    ensures ParsePriority(StringCast(v)) == None
    ensures ParseMessageType(StringCast(v)) == None
  {
    if v.JNumber? && v.n.Finite? {
      var t := StringCast(v);
      assert t[0] == '-' || '0' <= t[0] <= '9';
      assert forall e :: e in EnumSpellings ==> t != e by {
        forall e | e in EnumSpellings
          ensures t != e
        {
          assert 'a' <= e[0] <= 'z';
        }
      }
    }
  }

  /** Every member spelling of the three enums. */
  const EnumSpellings: set<string> :=
    {"open", "in progress", "resolved", "closed", "low", "medium", "high", "client", "admin", "system"}

  /** An optional enum property passes exactly when it is missing or null,
      or was sent as a string spelling a member: conversion lets no other
      value through. */
  lemma EnumConversion(v: Option<Json>)
    ensures StatusErrors(Converted(StringType, v)) == {} <==> Skipped(v) || (v.value.JString? && ParseStatus(v.value.s).Some?)
    ensures PriorityErrors(Converted(StringType, v)) == {} <==> Skipped(v) || (v.value.JString? && ParsePriority(v.value.s).Some?)
  {
    if v.Some? && !v.value.JString? && !v.value.JArray? {
      NoEnumText(v.value);
    }
  }

  /** An id property passes exactly when it is present, neither null nor an
      array, and `Number()` of it is an integer of at least 1: booleans
      convert to 0 or 1, strings are read as numeric literals. */
  lemma IdConversion(field: string, v: Option<Json>)
    ensures IdErrors(field, Converted(NumberType, v)) == {}
            <==> && v.Some? && !v.value.JNull? && !v.value.JArray?
                 && var x := NumberCast(v.value);
                    x.Finite? && JsonNumbers.Value(x.n).Floor as real == JsonNumbers.Value(x.n)
                    && JsonNumbers.Value(x.n) >= 1.0
  {
  }

  /** `isInternal` passes exactly when it is missing, or is anything but an
      array: every other value converts to its truthiness. */
  lemma InternalConversion(v: Option<Json>)
    ensures InternalErrors(Converted(BooleanType, v)) == {} <==> v.None? || !v.value.JArray?
    ensures v.Some? && !v.value.JNull? && !v.value.JArray? ==> Converted(BooleanType, v) == Some(JBool(BooleanCast(v.value)))
  {
  }

  // ---------------------------------------------------------------------
  // CreateTicketDto (server/src/tickets/dto/create-ticket.dto.ts)

  datatype CreateTicketDto = CreateTicketDto(title: string, description: string)

  predicate ValidCreateTicket(d: CreateTicketDto) {
    ValidTitle(d.title) && ValidDescription(d.description)
  }

  const CreateTicketFields: set<string> := {"title", "description"}

  function CreateTicketType(k: string): PropertyType {
    if k in CreateTicketFields then StringType else Undeclared
  }

  function EncodeCreateTicket(d: CreateTicketDto): Body {
    map["title" := JString(d.title), "description" := JString(d.description)]
  }

  function TitleErrors(v: Option<Json>): set<string> {
    RequiredStringErrors("title", v, "Title is required", TitleMin, TitleMax,
      "Title must be at least 3 characters long", "Title must not exceed 200 characters")
  }

  function DescriptionErrors(v: Option<Json>): set<string> {
    RequiredStringErrors("description", v, "Description is required", DescriptionMin, DescriptionMax,
      "Description must be at least 10 characters long", "Description must not exceed 5000 characters")
  }

  predicate CreateTicketAccepts(b: Body) {
    && TitleErrors(Lookup(b, "title")) == {}
    && DescriptionErrors(Lookup(b, "description")) == {}
    && ForbiddenErrors(b, CreateTicketFields) == {}
  }

  function CreateTicketErrors(b: Body): set<string> {
    TitleErrors(Lookup(b, "title")) + DescriptionErrors(Lookup(b, "description"))
    + ForbiddenErrors(b, CreateTicketFields)
  }

  function DecodeCreateTicket(b: Body): CreateTicketDto {
    CreateTicketDto(Str(Lookup(b, "title")), Str(Lookup(b, "description")))
  }

  lemma CreateTicketSound(b: Body)
    requires CreateTicketAccepts(b)
    ensures ValidCreateTicket(DecodeCreateTicket(b))
    ensures EncodeCreateTicket(DecodeCreateTicket(b)) == b
  {
    var e := EncodeCreateTicket(DecodeCreateTicket(b));
    assert e.Keys == b.Keys;
  }

  lemma CreateTicketComplete(d: CreateTicketDto)
    requires ValidCreateTicket(d)
    ensures CreateTicketAccepts(EncodeCreateTicket(d))
    ensures DecodeCreateTicket(EncodeCreateTicket(d)) == d
  {
  }

  /** Only one valid DTO encodes to a given body, and that body is accepted. */
  lemma CreateTicketUnique(b: Body)
    ensures forall d :: ValidCreateTicket(d) && EncodeCreateTicket(d) == b ==> CreateTicketAccepts(b) && DecodeCreateTicket(b) == d
  {
    forall d | ValidCreateTicket(d) && EncodeCreateTicket(d) == b
      ensures CreateTicketAccepts(b) && DecodeCreateTicket(b) == d
    {
      CreateTicketComplete(d);
    }
  }

  /** A create-ticket body passes exactly when its conversion is the
      encoding of a ticket whose title and description meet the length
      rules; otherwise the failure names at least one broken rule. */
  function ValidateCreateTicket(b: Body): (r: Result<CreateTicketDto, set<string>>)
    ensures r.Success? ==> ValidCreateTicket(r.value) && EncodeCreateTicket(r.value) == Transform(b, CreateTicketType)
    ensures forall d :: ValidCreateTicket(d) && EncodeCreateTicket(d) == Transform(b, CreateTicketType) ==> r == Success(d)
    ensures r.Failure? ==> r.error != {}
  {
    var c := Transform(b, CreateTicketType);
    CreateTicketUnique(c);
    if CreateTicketAccepts(c) then
      CreateTicketSound(c);
      Success(DecodeCreateTicket(c))
    else
      Failure(CreateTicketErrors(c))
  }

  /** On the body as sent: a ticket is created exactly when the body holds
      only a title and a description, neither null nor an array, whose
      `String()` texts meet the length rules; the ticket holds those texts. */
  lemma CreateTicketConversion(b: Body)
    ensures ValidateCreateTicket(b).Success?
            <==> && b.Keys <= CreateTicketFields && "title" in b && "description" in b
                 && !b["title"].JNull? && !b["title"].JArray? && ValidTitle(StringCast(b["title"]))
                 && !b["description"].JNull? && !b["description"].JArray? && ValidDescription(StringCast(b["description"]))
    ensures ValidateCreateTicket(b).Success?
            ==> ValidateCreateTicket(b).value == CreateTicketDto(StringCast(b["title"]), StringCast(b["description"]))
  {
    var c := Transform(b, CreateTicketType);
    LookupTransform(b, CreateTicketType, "title");
    LookupTransform(b, CreateTicketType, "description");
    RequiredStringConversion("title", Lookup(b, "title"), "Title is required", TitleMin, TitleMax,
      "Title must be at least 3 characters long", "Title must not exceed 200 characters");
    RequiredStringConversion("description", Lookup(b, "description"), "Description is required", DescriptionMin, DescriptionMax,
      "Description must be at least 10 characters long", "Description must not exceed 5000 characters");
  }

  /** Conversion leaves the encoding of any ticket as it is. */
  lemma CreateTicketEncodingSettled(d: CreateTicketDto)
    ensures Transform(EncodeCreateTicket(d), CreateTicketType) == EncodeCreateTicket(d)
  {
    SettledBody(EncodeCreateTicket(d), CreateTicketType);
  }

  /** The encoding of a ticket passes exactly when the ticket is valid, and
      then yields that ticket. */
  lemma CreateTicketEncodingPasses(d: CreateTicketDto)
    ensures ValidateCreateTicket(EncodeCreateTicket(d)).Success? <==> ValidCreateTicket(d)
    ensures ValidCreateTicket(d) ==> ValidateCreateTicket(EncodeCreateTicket(d)) == Success(d)
  {
    CreateTicketEncodingSettled(d);
    var r := ValidateCreateTicket(EncodeCreateTicket(d));
    if r.Success? {
      CreateTicketComplete(r.value);
    }
  }

  // ---------------------------------------------------------------------
  // UpdateTicketDto (server/src/tickets/dto/update-ticket.dto.ts)

  datatype UpdateTicketDto = UpdateTicketDto(
    title: Optional<string>,
    description: Optional<string>,
    status: Optional<TicketStatus>,
    priority: Optional<Priority>)

  predicate ValidUpdateTicket(d: UpdateTicketDto) {
    && (d.title.Given? ==> ValidTitle(d.title.value))
    && (d.description.Given? ==> ValidDescription(d.description.value))
  }

  const UpdateTicketFields: set<string> := {"title", "description", "status", "priority"}

  /** The enums are string enums, so every declared property converts to a
      string. */
  function UpdateTicketType(k: string): PropertyType {
    if k in UpdateTicketFields then StringType else Undeclared
  }

  /** Sets property `k` of `b` according to an optional field. */
  function Put<T>(b: Body, k: string, f: Optional<T>, enc: T -> Json): Body {
    match f
    case Absent => b
    case Null => b[k := JNull]
    case Given(v) => b[k := enc(v)]
  }

  function StringJson(s: string): Json { JString(s) }
  function StatusJson(s: TicketStatus): Json { JString(StatusValue(s)) }
  function PriorityJson(p: Priority): Json { JString(PriorityValue(p)) }

  function EncodeUpdateTicket(d: UpdateTicketDto): Body {
    var b1 := Put(map[], "title", d.title, StringJson);
    var b2 := Put(b1, "description", d.description, StringJson);
    var b3 := Put(b2, "status", d.status, StatusJson);
    Put(b3, "priority", d.priority, PriorityJson)
  }

  function StatusErrors(v: Option<Json>): (r: set<string>)
    ensures r == {} <==> Skipped(v) || (v.value.JString? && ParseStatus(v.value.s).Some?)
  {
    if Skipped(v) then {} else EnumErrors(v, ParseStatus, StatusMessage)
  }

  function PriorityErrors(v: Option<Json>): (r: set<string>)
    ensures r == {} <==> Skipped(v) || (v.value.JString? && ParsePriority(v.value.s).Some?)
  {
    if Skipped(v) then {} else EnumErrors(v, ParsePriority, PriorityMessage)
  }

  function OptionalTitleErrors(v: Option<Json>): set<string> {
    OptionalStringErrors("title", v, TitleMin, TitleMax,
      "Title must be at least 3 characters long", "Title must not exceed 200 characters")
  }

  function OptionalDescriptionErrors(v: Option<Json>): set<string> {
    OptionalStringErrors("description", v, DescriptionMin, DescriptionMax,
      "Description must be at least 10 characters long", "Description must not exceed 5000 characters")
  }

  predicate UpdateTicketAccepts(b: Body) {
    && OptionalTitleErrors(Lookup(b, "title")) == {}
    && OptionalDescriptionErrors(Lookup(b, "description")) == {}
    && StatusErrors(Lookup(b, "status")) == {}
    && PriorityErrors(Lookup(b, "priority")) == {}
    && ForbiddenErrors(b, UpdateTicketFields) == {}
  }

  function UpdateTicketErrors(b: Body): set<string> {
    OptionalTitleErrors(Lookup(b, "title")) + OptionalDescriptionErrors(Lookup(b, "description"))
    + StatusErrors(Lookup(b, "status")) + PriorityErrors(Lookup(b, "priority"))
    + ForbiddenErrors(b, UpdateTicketFields)
  }

  /** Reads an optional property back, given a decoder for its value. */
  function Take<T>(v: Option<Json>, dec: Json -> T): Optional<T> {
    match v
    case None => Absent
    case Some(JNull) => Null
    case Some(j) => Given(dec(j))
  }

  function StringOf(j: Json): string { if j.JString? then j.s else "" }
  function StatusOf(j: Json): TicketStatus {
    if j.JString? && ParseStatus(j.s).Some? then ParseStatus(j.s).value else Open
  }
  function PriorityOf(j: Json): Priority {
    if j.JString? && ParsePriority(j.s).Some? then ParsePriority(j.s).value else Low
  }

  function DecodeUpdateTicket(b: Body): UpdateTicketDto {
    UpdateTicketDto(
      Take(Lookup(b, "title"), StringOf),
      Take(Lookup(b, "description"), StringOf),
      Take(Lookup(b, "status"), StatusOf),
      Take(Lookup(b, "priority"), PriorityOf))
  }

  lemma UpdateTicketSound(b: Body)
    requires UpdateTicketAccepts(b)
    ensures ValidUpdateTicket(DecodeUpdateTicket(b))
    ensures EncodeUpdateTicket(DecodeUpdateTicket(b)) == b
  {
    UpdateTicketSoundValid(b);
    UpdateTicketReadBack(b);
  }

  lemma UpdateTicketSoundValid(b: Body)
    requires UpdateTicketAccepts(b)
    ensures ValidUpdateTicket(DecodeUpdateTicket(b))
  {
  }

  lemma UpdateTicketReadBack(b: Body)
    requires UpdateTicketAccepts(b)
    ensures EncodeUpdateTicket(DecodeUpdateTicket(b)) == b
  {
    assert OptionalTitleErrors(Lookup(b, "title")) == {};
    assert OptionalDescriptionErrors(Lookup(b, "description")) == {};
    UpdateTicketFieldsReadBack(b);
  }

  lemma UpdateTicketFieldsReadBack(b: Body)
    requires b.Keys <= UpdateTicketFields
    requires Skipped(Lookup(b, "title")) || Lookup(b, "title").value.JString?
    requires Skipped(Lookup(b, "description")) || Lookup(b, "description").value.JString?
    requires StatusErrors(Lookup(b, "status")) == {}
    requires PriorityErrors(Lookup(b, "priority")) == {}
    ensures EncodeUpdateTicket(DecodeUpdateTicket(b)) == b
  {
    var d := DecodeUpdateTicket(b);
    UpdateTicketLookups(d);
    var e := EncodeUpdateTicket(d);
    StringReadBack(Lookup(b, "title"));
    StringReadBack(Lookup(b, "description"));
    StatusReadBack(Lookup(b, "status"));
    PriorityReadBack(Lookup(b, "priority"));
    assert Lookup(e, "title") == Lookup(b, "title");
    assert Lookup(e, "description") == Lookup(b, "description");
    assert Lookup(e, "status") == Lookup(b, "status");
    assert Lookup(e, "priority") == Lookup(b, "priority");
    SameLookups(e, b, UpdateTicketFields);
  }

  lemma StringReadBack(v: Option<Json>)
    requires Skipped(v) || v.value.JString?
    ensures FieldJson(Take(v, StringOf), StringJson) == v
  {
    ReadBack(v, StringJson, StringOf);
  }

  lemma StatusReadBack(v: Option<Json>)
    requires StatusErrors(v) == {}
    ensures FieldJson(Take(v, StatusOf), StatusJson) == v
  {
    ReadBack(v, StatusJson, StatusOf);
  }

  lemma PriorityReadBack(v: Option<Json>)
    requires PriorityErrors(v) == {}
    ensures FieldJson(Take(v, PriorityOf), PriorityJson) == v
  {
    ReadBack(v, PriorityJson, PriorityOf);
  }

  /** Encoding what was read from a property gives the property back. */
  lemma ReadBack<T>(v: Option<Json>, enc: T -> Json, dec: Json -> T)
    requires v.Some? && v.value != JNull ==> enc(dec(v.value)) == v.value
    ensures FieldJson(Take(v, dec), enc) == v
  {
  }

  /** Two bodies over the same declared keys are equal when every key looks
      up alike. */
  lemma SameLookups(a: Body, b: Body, keys: set<string>)
    requires a.Keys <= keys && b.Keys <= keys
    requires forall k :: k in keys ==> Lookup(a, k) == Lookup(b, k)
    ensures a == b
  {
    assert forall k :: k in a.Keys <==> k in b.Keys by {
      forall k ensures k in a.Keys <==> k in b.Keys {
        if k in a.Keys || k in b.Keys {
          assert Lookup(a, k) == Lookup(b, k);
        }
      }
    }
  }

  /** The property an optional field puts into a body. */
  function FieldJson<T>(f: Optional<T>, enc: T -> Json): Option<Json> {
    match f
    case Absent => None
    case Null => Some(JNull)
    case Given(v) => Some(enc(v))
  }

  lemma LookupPut<T>(b: Body, k: string, f: Optional<T>, enc: T -> Json)
    requires k !in b
    ensures forall k' :: Lookup(Put(b, k, f, enc), k') == if k' == k then FieldJson(f, enc) else Lookup(b, k')
    ensures Put(b, k, f, enc).Keys <= b.Keys + {k}
  {
  }

  lemma UpdateTicketLookups(d: UpdateTicketDto)
    ensures Lookup(EncodeUpdateTicket(d), "title") == FieldJson(d.title, StringJson)
    ensures Lookup(EncodeUpdateTicket(d), "description") == FieldJson(d.description, StringJson)
    ensures Lookup(EncodeUpdateTicket(d), "status") == FieldJson(d.status, StatusJson)
    ensures Lookup(EncodeUpdateTicket(d), "priority") == FieldJson(d.priority, PriorityJson)
    ensures EncodeUpdateTicket(d).Keys <= UpdateTicketFields
  {
    var b1 := Put(map[], "title", d.title, StringJson);
    LookupPut(map[], "title", d.title, StringJson);
    var b2 := Put(b1, "description", d.description, StringJson);
    LookupPut(b1, "description", d.description, StringJson);
    var b3 := Put(b2, "status", d.status, StatusJson);
    LookupPut(b2, "status", d.status, StatusJson);
    LookupPut(b3, "priority", d.priority, PriorityJson);
  }

  /** Reading back an encoded optional field gives the field. */
  lemma TakeFieldJson<T>(f: Optional<T>, enc: T -> Json, dec: Json -> T)
    requires f.Given? ==> enc(f.value) != JNull && dec(enc(f.value)) == f.value
    ensures Take(FieldJson(f, enc), dec) == f
  {
  }

  lemma UpdateTicketComplete(d: UpdateTicketDto)
    requires ValidUpdateTicket(d)
    ensures UpdateTicketAccepts(EncodeUpdateTicket(d))
    ensures DecodeUpdateTicket(EncodeUpdateTicket(d)) == d
  {
    UpdateTicketEncodingAccepted(d);
    UpdateTicketLookups(d);
    TakeFieldJson(d.title, StringJson, StringOf);
    TakeFieldJson(d.description, StringJson, StringOf);
    TakeFieldJson(d.status, StatusJson, StatusOf);
    TakeFieldJson(d.priority, PriorityJson, PriorityOf);
  }

  lemma UpdateTicketEncodingAccepted(d: UpdateTicketDto)
    requires ValidUpdateTicket(d)
    ensures UpdateTicketAccepts(EncodeUpdateTicket(d))
  {
    UpdateTicketLookups(d);
    EncodedTitleAccepted(d.title);
    EncodedDescriptionAccepted(d.description);
    EncodedStatusAccepted(d.status);
    EncodedPriorityAccepted(d.priority);
  }

  lemma EncodedTitleAccepted(f: Optional<string>)
    requires f.Given? ==> ValidTitle(f.value)
    ensures OptionalTitleErrors(FieldJson(f, StringJson)) == {}
  {
  }

  lemma EncodedDescriptionAccepted(f: Optional<string>)
    requires f.Given? ==> ValidDescription(f.value)
    ensures OptionalDescriptionErrors(FieldJson(f, StringJson)) == {}
  {
  }

  lemma EncodedStatusAccepted(f: Optional<TicketStatus>)
    ensures StatusErrors(FieldJson(f, StatusJson)) == {}
  {
  }

  lemma EncodedPriorityAccepted(f: Optional<Priority>)
    ensures PriorityErrors(FieldJson(f, PriorityJson)) == {}
  {
  }

  /** Only one valid DTO encodes to a given body, and that body is accepted. */
  lemma UpdateTicketUnique(b: Body)
    ensures forall d :: ValidUpdateTicket(d) && EncodeUpdateTicket(d) == b ==> UpdateTicketAccepts(b) && DecodeUpdateTicket(b) == d
  {
    forall d | ValidUpdateTicket(d) && EncodeUpdateTicket(d) == b
      ensures UpdateTicketAccepts(b) && DecodeUpdateTicket(b) == d
    {
      UpdateTicketComplete(d);
    }
  }

  /** A patch body passes exactly when its conversion is the encoding of a
      patch whose present fields meet their rules (the empty body is the
      empty patch); otherwise the failure names at least one broken rule. */
  function ValidateUpdateTicket(b: Body): (r: Result<UpdateTicketDto, set<string>>)
    ensures r.Success? ==> ValidUpdateTicket(r.value) && EncodeUpdateTicket(r.value) == Transform(b, UpdateTicketType)
    ensures forall d :: ValidUpdateTicket(d) && EncodeUpdateTicket(d) == Transform(b, UpdateTicketType) ==> r == Success(d)
    ensures r.Failure? ==> r.error != {}
  {
    var c := Transform(b, UpdateTicketType);
    UpdateTicketUnique(c);
    if UpdateTicketAccepts(c) then
      UpdateTicketSound(c);
      Success(DecodeUpdateTicket(c))
    else
      Failure(UpdateTicketErrors(c))
  }

  /** Conversion leaves the encoding of any patch as it is. */
  lemma UpdateTicketEncodingSettled(d: UpdateTicketDto)
    ensures Transform(EncodeUpdateTicket(d), UpdateTicketType) == EncodeUpdateTicket(d)
  {
    var b := EncodeUpdateTicket(d);
    UpdateTicketLookups(d);
    forall k | k in b
      ensures Settled(UpdateTicketType(k), b[k])
    {
      assert Lookup(b, k) == Some(b[k]);
    }
    SettledBody(b, UpdateTicketType);
  }

  /** The encoding of a patch passes exactly when the patch is valid, and
      then yields that patch. */
  lemma UpdateTicketEncodingPasses(d: UpdateTicketDto)
    ensures ValidateUpdateTicket(EncodeUpdateTicket(d)).Success? <==> ValidUpdateTicket(d)
    ensures ValidUpdateTicket(d) ==> ValidateUpdateTicket(EncodeUpdateTicket(d)) == Success(d)
  {
    UpdateTicketEncodingSettled(d);
    var r := ValidateUpdateTicket(EncodeUpdateTicket(d));
    if r.Success? {
      UpdateTicketComplete(r.value);
      UpdateTicketEncodingInjective(d, r.value);
    }
  }

  /** Two patches with one encoding are the same patch. */
  lemma UpdateTicketEncodingInjective(d: UpdateTicketDto, e: UpdateTicketDto)
    requires EncodeUpdateTicket(d) == EncodeUpdateTicket(e)
    ensures d == e
  {
    UpdateTicketLookups(d);
    UpdateTicketLookups(e);
    assert FieldJson(d.title, StringJson) == FieldJson(e.title, StringJson);
    assert FieldJson(d.description, StringJson) == FieldJson(e.description, StringJson);
    assert FieldJson(d.status, StatusJson) == FieldJson(e.status, StatusJson);
    assert FieldJson(d.priority, PriorityJson) == FieldJson(e.priority, PriorityJson);
    TakeFieldJson(d.title, StringJson, StringOf);
    TakeFieldJson(e.title, StringJson, StringOf);
    TakeFieldJson(d.description, StringJson, StringOf);
    TakeFieldJson(e.description, StringJson, StringOf);
    TakeFieldJson(d.status, StatusJson, StatusOf);
    TakeFieldJson(e.status, StatusJson, StatusOf);
    TakeFieldJson(d.priority, PriorityJson, PriorityOf);
    TakeFieldJson(e.priority, PriorityJson, PriorityOf);
  }

  // ---------------------------------------------------------------------
  // CreateMessageDto (server/src/messages/dto/create-message.dto.ts)

  datatype CreateMessageDto = CreateMessageDto(
    ticketId: int,
    senderId: int,
    content: string,
    msgType: MessageType,
    isInternal: Optional<bool>)

  predicate ValidCreateMessage(d: CreateMessageDto) {
    d.ticketId >= 1 && d.senderId >= 1 && ValidContent(d.content)
  }

  const CreateMessageFields: set<string> := {"ticketId", "senderId", "content", "type", "isInternal"}

  function CreateMessageType(k: string): PropertyType {
    if k == "ticketId" || k == "senderId" then NumberType
    else if k == "isInternal" then BooleanType
    else if k == "content" || k == "type" then StringType
    else Undeclared
  }

  function IdJson(id: int): Json {
    JNumber(JsonNumbers.Finite(JsonNumbers.FromInt(id)))
  }

  function BoolJson(b: bool): Json { JBool(b) }

  function EncodeCreateMessage(d: CreateMessageDto): Body {
    var b := map["ticketId" := IdJson(d.ticketId), "senderId" := IdJson(d.senderId),
                 "content" := JString(d.content), "type" := JString(MessageTypeValue(d.msgType))];
    Put(b, "isInternal", d.isInternal, BoolJson)
  }

  function ContentErrors(v: Option<Json>): set<string> {
    RequiredStringErrors("content", v, "Content is required", ContentMin, ContentMax,
      "Content must not be empty", "Content must not exceed 10000 characters")
  }

  /** `@IsEnum(MessageType)` and `@IsNotEmpty()` on `type`. */
  function TypeErrors(v: Option<Json>): (r: set<string>)
    ensures r == {} <==> v.Some? && v.value.JString? && ParseMessageType(v.value.s).Some?
  {
    EnumErrors(v, ParseMessageType, TypeMessage) + (if NotEmpty(v) then {} else {"Type is required"})
  }

  /** `@IsBoolean()` under `@IsOptional()` on `isInternal`. */
  function InternalErrors(v: Option<Json>): (r: set<string>)
    ensures r == {} <==> Skipped(v) || v.value.JBool?
  {
    if Skipped(v) || v.value.JBool? then {} else {"isInternal must be a boolean value"}
  }

  predicate CreateMessageAccepts(b: Body) {
    && IdErrors("Ticket", Lookup(b, "ticketId")) == {}
    && IdErrors("Sender", Lookup(b, "senderId")) == {}
    && ContentErrors(Lookup(b, "content")) == {}
    && TypeErrors(Lookup(b, "type")) == {}
    && InternalErrors(Lookup(b, "isInternal")) == {}
    && ForbiddenErrors(b, CreateMessageFields) == {}
  }

  function CreateMessageErrors(b: Body): set<string> {
    IdErrors("Ticket", Lookup(b, "ticketId")) + IdErrors("Sender", Lookup(b, "senderId"))
    + ContentErrors(Lookup(b, "content")) + TypeErrors(Lookup(b, "type"))
    + InternalErrors(Lookup(b, "isInternal")) + ForbiddenErrors(b, CreateMessageFields)
  }

  function BoolOf(j: Json): bool { j.JBool? && j.b }

  function IdOf(v: Option<Json>): int {
    if IsFinite(v) then v.value.n.n.mantissa else 0
  }

  function TypeOf(v: Option<Json>): MessageType {
    var t := ParseMessageType(Str(v));
    if t.Some? then t.value else ClientMessage
  }

  function DecodeCreateMessage(b: Body): CreateMessageDto {
    CreateMessageDto(
      IdOf(Lookup(b, "ticketId")), IdOf(Lookup(b, "senderId")), Str(Lookup(b, "content")),
      TypeOf(Lookup(b, "type")), Take(Lookup(b, "isInternal"), BoolOf))
  }

  lemma CreateMessageSound(b: Body)
    requires CreateMessageAccepts(b)
    ensures ValidCreateMessage(DecodeCreateMessage(b))
    ensures EncodeCreateMessage(DecodeCreateMessage(b)) == b
  {
    var e := EncodeCreateMessage(DecodeCreateMessage(b));
    forall k | k in CreateMessageFields
      ensures (k in e <==> k in b) && (k in b ==> e[k] == b[k])
    {
    }
    assert e.Keys == b.Keys;
  }

  lemma CreateMessageComplete(d: CreateMessageDto)
    requires ValidCreateMessage(d)
    ensures CreateMessageAccepts(EncodeCreateMessage(d))
    ensures DecodeCreateMessage(EncodeCreateMessage(d)) == d
  {
    CreateMessageLookups(d);
    TakeFieldJson(d.isInternal, BoolJson, BoolOf);
    assert ParseMessageType(MessageTypeValue(d.msgType)) == Some(d.msgType);
  }

  lemma CreateMessageLookups(d: CreateMessageDto)
    ensures Lookup(EncodeCreateMessage(d), "ticketId") == Some(IdJson(d.ticketId))
    ensures Lookup(EncodeCreateMessage(d), "senderId") == Some(IdJson(d.senderId))
    ensures Lookup(EncodeCreateMessage(d), "content") == Some(JString(d.content))
    ensures Lookup(EncodeCreateMessage(d), "type") == Some(JString(MessageTypeValue(d.msgType)))
    ensures Lookup(EncodeCreateMessage(d), "isInternal") == FieldJson(d.isInternal, BoolJson)
    ensures EncodeCreateMessage(d).Keys <= CreateMessageFields
  {
    var b := map["ticketId" := IdJson(d.ticketId), "senderId" := IdJson(d.senderId),
                 "content" := JString(d.content), "type" := JString(MessageTypeValue(d.msgType))];
    LookupPut(b, "isInternal", d.isInternal, BoolJson);
  }

  /** Only one valid DTO encodes to a given body, and that body is accepted. */
  lemma CreateMessageUnique(b: Body)
    ensures forall d :: ValidCreateMessage(d) && EncodeCreateMessage(d) == b ==> CreateMessageAccepts(b) && DecodeCreateMessage(b) == d
  {
    forall d | ValidCreateMessage(d) && EncodeCreateMessage(d) == b
      ensures CreateMessageAccepts(b) && DecodeCreateMessage(b) == d
    {
      CreateMessageComplete(d);
    }
  }

  /** A message body passes exactly when its conversion is the encoding of
      a message with positive integer ids, content of 1..10000 characters,
      one of the three declared types and an optional boolean `isInternal`. */
  function ValidateCreateMessage(b: Body): (r: Result<CreateMessageDto, set<string>>)
    ensures r.Success? ==> ValidCreateMessage(r.value) && EncodeCreateMessage(r.value) == Transform(b, CreateMessageType)
    ensures forall d :: ValidCreateMessage(d) && EncodeCreateMessage(d) == Transform(b, CreateMessageType) ==> r == Success(d)
    ensures r.Failure? ==> r.error != {}
  {
    var c := Transform(b, CreateMessageType);
    CreateMessageUnique(c);
    if CreateMessageAccepts(c) then
      CreateMessageSound(c);
      Success(DecodeCreateMessage(c))
    else
      Failure(CreateMessageErrors(c))
  }

  /** Conversion leaves the encoding of any message as it is. */
  lemma CreateMessageEncodingSettled(d: CreateMessageDto)
    ensures Transform(EncodeCreateMessage(d), CreateMessageType) == EncodeCreateMessage(d)
  {
    var b := EncodeCreateMessage(d);
    CreateMessageLookups(d);
    forall k | k in b
      ensures Settled(CreateMessageType(k), b[k])
    {
      assert Lookup(b, k) == Some(b[k]);
    }
    SettledBody(b, CreateMessageType);
  }

  /** The encoding of a message passes exactly when the message is valid,
      and then yields that message. */
  lemma CreateMessageEncodingPasses(d: CreateMessageDto)
    ensures ValidateCreateMessage(EncodeCreateMessage(d)).Success? <==> ValidCreateMessage(d)
    ensures ValidCreateMessage(d) ==> ValidateCreateMessage(EncodeCreateMessage(d)) == Success(d)
  {
    CreateMessageEncodingSettled(d);
    var r := ValidateCreateMessage(EncodeCreateMessage(d));
    if r.Success? {
      CreateMessageLookups(d);
      CreateMessageLookups(r.value);
      TakeFieldJson(d.isInternal, BoolJson, BoolOf);
      TakeFieldJson(r.value.isInternal, BoolJson, BoolOf);
      assert Lookup(EncodeCreateMessage(d), "content") == Lookup(EncodeCreateMessage(r.value), "content");
      assert Lookup(EncodeCreateMessage(d), "ticketId") == Lookup(EncodeCreateMessage(r.value), "ticketId");
      assert Lookup(EncodeCreateMessage(d), "senderId") == Lookup(EncodeCreateMessage(r.value), "senderId");
      assert d.content == r.value.content;
      assert d.ticketId == r.value.ticketId;
      assert d.senderId == r.value.senderId;
    }
  }

  // ---------------------------------------------------------------------
  // UpdateMessageDto (server/src/messages/dto/update-message.dto.ts)

  datatype UpdateMessageDto = UpdateMessageDto(content: string)

  const UpdateMessageFields: set<string> := {"content"}

  function UpdateMessageType(k: string): PropertyType {
    if k in UpdateMessageFields then StringType else Undeclared
  }

  function EncodeUpdateMessage(d: UpdateMessageDto): Body {
    map["content" := JString(d.content)]
  }

  predicate UpdateMessageAccepts(b: Body) {
    ContentErrors(Lookup(b, "content")) == {} && ForbiddenErrors(b, UpdateMessageFields) == {}
  }

  /** An edit body passes exactly when its conversion carries only a
      content string of 1..10000 characters; otherwise the failure names a
      broken rule. */
  function ValidateUpdateMessage(b: Body): (r: Result<UpdateMessageDto, set<string>>)
    ensures r.Success? ==> ValidContent(r.value.content) && EncodeUpdateMessage(r.value) == Transform(b, UpdateMessageType)
    ensures forall d: UpdateMessageDto :: ValidContent(d.content) && EncodeUpdateMessage(d) == Transform(b, UpdateMessageType) ==> r == Success(d)
    ensures r.Failure? ==> r.error != {}
  {
    var c := Transform(b, UpdateMessageType);
    if UpdateMessageAccepts(c) then
      var d := UpdateMessageDto(Str(Lookup(c, "content")));
      assert EncodeUpdateMessage(d).Keys == c.Keys;
      Success(d)
    else
      Failure(ContentErrors(Lookup(c, "content")) + ForbiddenErrors(c, UpdateMessageFields))
  }

  /** The encoding of an edit passes exactly when its content is valid, and
      then yields that edit. */
  lemma UpdateMessageEncodingPasses(d: UpdateMessageDto)
    ensures ValidateUpdateMessage(EncodeUpdateMessage(d)).Success? <==> ValidContent(d.content)
    ensures ValidContent(d.content) ==> ValidateUpdateMessage(EncodeUpdateMessage(d)) == Success(d)
  {
    SettledBody(EncodeUpdateMessage(d), UpdateMessageType);
    var r := ValidateUpdateMessage(EncodeUpdateMessage(d));
    if r.Success? {
      assert EncodeUpdateMessage(r.value)["content"] == EncodeUpdateMessage(d)["content"];
    }
  }
}
