/**
 The transaction, its validation and the payload its fingerprint is the hash of. Two valid
 transactions have one payload exactly when their submitted content agrees.
 */
module Domain {
  import opened Wrappers
  import opened JsonText
  import opened CanonicalJson
  import opened Timestamps

  datatype Plate = Plate(number: string, jurisdiction: string)

  /** Raw objects are the submitted bytes; an absent object has none. */
  datatype Transaction = Transaction(
    id: string,
    source: string,
    sourceReference: string,
    transactionType: string,
    time: Time,
    offset: int,
    baseAmount: string,
    currency: string,
    plate: Option<Plate>,
    transponder: string,
    locationRaw: string,
    metadataRaw: string)

  datatype Invalid =
    | BadSource | BadReference | NoType | UnknownType | NoTime | NotUtc | BadAmount | LongCurrency
    | NoVehicle | BadPlate | LongTransponder | BadLocation | BadMetadata

  predicate Bounded(s: string, min: nat, max: nat) {
    min <= |s| <= max
  }

  /** An optional minus sign, digits, and optionally a point with digits behind it. */
  predicate IsDecimal(s: string) {
    var digits := if s != "" && s[0] == '-' then s[1..] else s;
    var n := DigitCount(digits);
    n > 0 && (n == |digits| ||
      (digits[n] == '.' && n + 1 < |digits| && DigitCount(digits[n + 1..]) == |digits| - n - 1))
  }

  predicate IsSpace(c: char) {
    '\t' <= c <= '\r' || c == ' ' || c == '\U{0085}' || c == '\U{00A0}' || c == '\U{1680}' || '\U{2000}' <= c <= '\U{200A}'
    || c == '\U{2028}' || c == '\U{2029}' || c == '\U{202F}' || c == '\U{205F}' || c == '\U{3000}'
  }

  predicate Blank(s: string) {
    forall i | 0 <= i < |s| :: IsSpace(s[i])
  }

  /** The first rule the transaction breaks, if any. */
  function Validate(t: Transaction, allowedTypes: set<string>): Option<Invalid> {
    if !Bounded(t.source, 1, 64) then Some(BadSource)
    else if !Bounded(t.sourceReference, 1, 128) then Some(BadReference)
    else if t.transactionType == "" then Some(NoType)
    else if t.transactionType !in allowedTypes then Some(UnknownType)
    else if t.time == ZERO then Some(NoTime)
    else if t.offset != 0 then Some(NotUtc)
    else if !IsDecimal(t.baseAmount) then Some(BadAmount)
    else if |t.currency| > 8 then Some(LongCurrency)
    else if t.plate.None? && Blank(t.transponder) then Some(NoVehicle)
    else if t.plate.Some? && !(Bounded(t.plate.value.number, 1, 16) && Bounded(t.plate.value.jurisdiction, 1, 8)) then Some(BadPlate)
    else if |t.transponder| > 64 then Some(LongTransponder)
    else if CanonicalObject(t.locationRaw).Failure? then Some(BadLocation)
    else if CanonicalObject(t.metadataRaw).Failure? then Some(BadMetadata)
    else None
  }

  // ----- The fingerprint payload

  /** A field of a marshalled struct; an omitted field has no value. */
  datatype Field = Field(name: string, value: Option<Cst>)

  function TextField(name: string, s: string): Field {
    Field(name, Some(Text(Encode(s))))
  }

  function PlateTree(p: Plate): Cst {
    Object(MoreMembers("", Encode("number"), "", "", Text(Encode(p.number)), "",
      LastMember("", Encode("jurisdiction"), "", "", Text(Encode(p.jurisdiction)), "")))
  }

  /** A raw message: canonical text is embedded as it is, empty text is omitted. */
  function RawField(name: string, raw: string): Field
    requires CanonicalObject(raw).Success?
  {
    var text := CanonicalObject(raw).value;
    if text == "" then Field(name, None)
    else
      CanonicalTextParses(raw);
      Field(name, Some(ParseValue(text).value))
  }

  lemma CanonicalTextParses(raw: string)
    requires CanonicalObject(raw).Success? && raw != ""
    ensures CanonicalObject(raw).value != ""
    ensures var p := ParseValue(CanonicalObject(raw).value);
            p.Got? && p.rest == "" && Valid(p.value) && CanonicalObject(raw).value == Write(p.value, "")
  {
    var p := ParseValue(raw[WsLength(raw)..]);
    WriteOfParse(raw[WsLength(raw)..]);
    MeaningIsGood(p.value);
    MeaningOfCanon(Meaning(p.value));
    WriteStart(Canon(Meaning(p.value)), "");
    ParseOfWrite(Canon(Meaning(p.value)), "");
  }

  function PlateField(plate: Option<Plate>): Field {
    Field("plate", if plate.None? then None else Some(PlateTree(plate.value)))
  }

  function TransponderField(transponder: string): Field {
    Field("transponder_number", if transponder == "" then None else Some(Text(Encode(transponder))))
  }

  predicate ObjectsValid(t: Transaction) {
    CanonicalObject(t.locationRaw).Success? && CanonicalObject(t.metadataRaw).Success?
  }

  function Fields(t: Transaction): seq<Field>
    requires ObjectsValid(t)
  {
    TextFields(t) + [PlateField(t.plate), TransponderField(t.transponder),
                     RawField("location", t.locationRaw), RawField("metadata", t.metadataRaw)]
  }

  function TextFields(t: Transaction): seq<Field> {
    [ TextField("source", t.source),
      TextField("source_reference", t.sourceReference),
      TextField("transaction_type", t.transactionType),
      TextField("transaction_time_utc", Timestamp(t.time)),
      TextField("base_amount", t.baseAmount),
      TextField("currency", t.currency) ]
  }

  predicate ValidFields(fields: seq<Field>) {
    forall i | 0 <= i < |fields| :: fields[i].value.Some? ==> Valid(fields[i].value.value)
  }

  /** The fields that are not omitted. */
  function Present(fields: seq<Field>): seq<Field> {
    if fields == [] then []
    else if fields[0].value.None? then Present(fields[1..])
    else [fields[0]] + Present(fields[1..])
  }

  /** A struct is written with its fields in their order and without whitespace. */
  function FieldMembers(fields: seq<Field>): (m: Members)
    requires fields != [] && forall i | 0 <= i < |fields| :: fields[i].value.Some?
  {
    var f := fields[0];
    if |fields| == 1 then LastMember("", Encode(f.name), "", "", f.value.value, "")
    else MoreMembers("", Encode(f.name), "", "", f.value.value, "", FieldMembers(fields[1..]))
  }

  function PayloadTree(t: Transaction): Cst
    requires ObjectsValid(t)
  {
    var fields := Fields(t);
    PresentIsSome(fields);
    assert Present(fields) != [] by { assert fields[0].value.Some?; }
    Object(FieldMembers(Present(fields)))
  }

  lemma {:induction false} PresentIsSome(fields: seq<Field>)
    ensures forall i | 0 <= i < |Present(fields)| :: Present(fields)[i].value.Some? && Present(fields)[i] in fields
  {
    if fields != [] {
      PresentIsSome(fields[1..]);
    }
  }

  /**
   The payload of a valid transaction. The stored fingerprint is its SHA-256 digest; the
   model keeps the payload itself.
   */
  function Fingerprint(t: Transaction, allowedTypes: set<string>): Result<string, Invalid> {
    if Validate(t, allowedTypes).Some? then Failure(Validate(t, allowedTypes).value)
    else Success(Write(PayloadTree(t), ""))
  }

  // ----- Equal payloads mean equal content

  ghost predicate SameObject(raw1: string, raw2: string) {
    if raw1 == "" || raw2 == "" then raw1 == raw2
    else exists v :: Denotes(raw1, v) && Denotes(raw2, v)
  }

  /** The submitted content: everything but the system's ID. */
  ghost predicate SameContent(t: Transaction, u: Transaction) {
    && t.source == u.source
    && t.sourceReference == u.sourceReference
    && t.transactionType == u.transactionType
    && t.time == u.time
    && t.baseAmount == u.baseAmount
    && t.currency == u.currency
    && t.plate == u.plate
    && t.transponder == u.transponder
    && SameObject(t.locationRaw, u.locationRaw)
    && SameObject(t.metadataRaw, u.metadataRaw)
  }

  lemma {:induction false} EncodeInjective(s: string, t: string)
    requires Encode(s) == Encode(t)
    ensures s == t
  {
    DecodeEncode(s);
    DecodeEncode(t);
  }

  lemma {:induction false} FieldMembersInjective(f: seq<Field>, g: seq<Field>)
    requires f != [] && forall i | 0 <= i < |f| :: f[i].value.Some?
    requires g != [] && forall i | 0 <= i < |g| :: g[i].value.Some?
    requires FieldMembers(f) == FieldMembers(g)
    ensures f == g
    decreases |f|
  {
    EncodeInjective(f[0].name, g[0].name);
    if |f| > 1 {
      FieldMembersInjective(f[1..], g[1..]);
      assert f == [f[0]] + f[1..] && g == [g[0]] + g[1..];
    }
  }

  predicate SameNames(f: seq<Field>, g: seq<Field>) {
    |f| == |g| && forall i | 0 <= i < |f| :: f[i].name == g[i].name
  }

  predicate DistinctNames(f: seq<Field>) {
    forall i, j | 0 <= i < j < |f| :: f[i].name != f[j].name
  }

  /** Which fields of a struct were omitted can be read off the fields that are present. */
  lemma {:induction false} PresentInjective(f: seq<Field>, g: seq<Field>)
    requires SameNames(f, g) && DistinctNames(f) && Present(f) == Present(g)
    ensures f == g
  {
    if f != [] {
      if f[0].value.Some? != g[0].value.Some? {
        AbsentHead(f, g);
      }
      if f[0].value.Some? {
        assert Present(f)[1..] == Present(f[1..]) && Present(g)[1..] == Present(g[1..]);
      }
      PresentInjective(f[1..], g[1..]);
      assert f == [f[0]] + f[1..] && g == [g[0]] + g[1..];
    }
  }

  lemma {:induction false} AbsentHead(f: seq<Field>, g: seq<Field>)
    requires f != [] && SameNames(f, g) && DistinctNames(f)
    requires f[0].value.Some? != g[0].value.Some?
    ensures Present(f) != Present(g)
  {
    PresentIsSome(f[1..]);
    PresentIsSome(g[1..]);
    var tail := if f[0].value.Some? then g[1..] else f[1..];
    var head := if f[0].value.Some? then f[0] else g[0];
    assert forall i | 0 <= i < |tail| :: tail[i].name != head.name;
    assert head !in tail && head !in Present(tail);
    assert (if f[0].value.Some? then Present(f) else Present(g))[0] == head;
  }

  const FIELD_NAMES: seq<string> := [
    "source", "source_reference", "transaction_type", "transaction_time_utc", "base_amount",
    "currency", "plate", "transponder_number", "location", "metadata" ]

  lemma FieldNamesDistinct()
    ensures |FIELD_NAMES| == 10
    ensures forall i, j | 0 <= i < j < |FIELD_NAMES| :: FIELD_NAMES[i] != FIELD_NAMES[j]
  {
    assert "source_reference"[0] != "transaction_type"[0];
    assert "currency"[0] != "location"[0] && "currency"[0] != "metadata"[0] && "location"[0] != "metadata"[0];
  }

  lemma TextFieldNames(t: Transaction)
    ensures |TextFields(t)| == 6 && forall i | 0 <= i < 6 :: TextFields(t)[i].name == FIELD_NAMES[i]
  {
    hide Encode, Timestamp;
  }

  lemma FieldNames(t: Transaction)
    requires ObjectsValid(t)
    ensures |Fields(t)| == 10 && forall i | 0 <= i < 10 :: Fields(t)[i].name == FIELD_NAMES[i]
  {
    hide TextFields, CanonicalObject, PlateTree, Encode;
    TextFieldNames(t);
  }

  lemma {:induction false} PresentFieldsInjective(f: seq<Field>, g: seq<Field>)
    requires SameNames(f, g) && DistinctNames(f) && f != []
    requires Present(f) != [] && Present(g) != []
    requires forall i | 0 <= i < |Present(f)| :: Present(f)[i].value.Some?
    requires forall i | 0 <= i < |Present(g)| :: Present(g)[i].value.Some?
    requires FieldMembers(Present(f)) == FieldMembers(Present(g))
    ensures f == g
  {
    FieldMembersInjective(Present(f), Present(g));
    PresentInjective(f, g);
  }

  lemma PayloadTreeInjective(t: Transaction, u: Transaction)
    requires ObjectsValid(t) && ObjectsValid(u)
    requires PayloadTree(t) == PayloadTree(u)
    ensures Fields(t) == Fields(u)
  {
    hide PlateField, TransponderField, RawField, CanonicalObject, FieldMembers, Encode;
    FieldNamesDistinct();
    FieldNames(t);
    FieldNames(u);
    PresentIsSome(Fields(t));
    PresentIsSome(Fields(u));
    PresentFieldsInjective(Fields(t), Fields(u));
  }

  lemma RawFieldValid(name: string, raw: string)
    requires CanonicalObject(raw).Success?
    ensures var f := RawField(name, raw); f.value.Some? ==> Valid(f.value.value)
  {
    if raw != "" {
      CanonicalTextParses(raw);
    }
  }

  lemma FieldsAreValid(t: Transaction)
    requires ObjectsValid(t)
    ensures ValidFields(Fields(t))
  {
    hide TextFields, TransponderField, RawField, PlateTree, CanonicalObject;
    RawFieldValid("location", t.locationRaw);
    RawFieldValid("metadata", t.metadataRaw);
    PlateFieldValid(t.plate);
    TransponderFieldValid(t.transponder);
    TextFieldsValid(t);
  }

  lemma TextFieldsValid(t: Transaction)
    ensures ValidFields(TextFields(t))
  {
  }

  lemma TransponderFieldValid(transponder: string)
    ensures var f := TransponderField(transponder); f.value.Some? ==> Valid(f.value.value)
  {
  }

  lemma PlateFieldValid(plate: Option<Plate>)
    ensures plate.Some? ==> Valid(PlateTree(plate.value))
  {
    hide Encode;
    if plate.Some? {
      var m := PlateTree(plate.value).members;
      assert Valid(m.value) && Valid(m.rest.value);
      assert ValidMembers(m.rest);
      assert ValidMembers(m);
    }
  }

  lemma {:induction false} FieldMembersValid(fields: seq<Field>)
    requires fields != [] && ValidFields(fields) && forall i | 0 <= i < |fields| :: fields[i].value.Some?
    ensures ValidMembers(FieldMembers(fields))
  {
    if |fields| > 1 {
      FieldMembersValid(fields[1..]);
    }
  }

  lemma PayloadTreeValid(t: Transaction)
    requires ObjectsValid(t)
    ensures Valid(PayloadTree(t))
  {
    var fields := Fields(t);
    FieldsAreValid(t);
    PresentIsSome(fields);
    assert ValidFields(Present(fields)) by {
      forall i | 0 <= i < |Present(fields)| ensures Valid(Present(fields)[i].value.value) {
        assert Present(fields)[i] in fields;
      }
    }
    FieldMembersValid(Present(fields));
  }

  lemma RawFieldDecides(name: string, raw1: string, raw2: string)
    requires CanonicalObject(raw1).Success? && CanonicalObject(raw2).Success?
    ensures RawField(name, raw1) == RawField(name, raw2) <==> SameObject(raw1, raw2)
  {
    if raw1 != "" {
      CanonicalTextParses(raw1);
    }
    if raw2 != "" {
      CanonicalTextParses(raw2);
    }
    if raw1 != "" && raw2 != "" {
      CanonicalObjectCorrect(raw1, JNull);
      CanonicalObjectCorrect(raw2, JNull);
      var v :| Denotes(raw1, v);
      var w :| Denotes(raw2, w);
      CanonicalTextDecidesValue(raw1, v, raw2, w);
      if SameObject(raw1, raw2) {
        var x :| Denotes(raw1, x) && Denotes(raw2, x);
        DenotesUnique(raw1, v, x);
        DenotesUnique(raw2, w, x);
      }
    }
  }

  lemma TextFieldInjective(name: string, s: string, t: string)
    requires TextField(name, s) == TextField(name, t)
    ensures s == t
  {
    EncodeInjective(s, t);
  }

  lemma PlateFieldInjective(p: Option<Plate>, q: Option<Plate>)
    requires PlateField(p) == PlateField(q)
    ensures p == q
  {
    if p.Some? && q.Some? {
      EncodeInjective(p.value.number, q.value.number);
      EncodeInjective(p.value.jurisdiction, q.value.jurisdiction);
    }
  }

  lemma TransponderFieldInjective(s: string, t: string)
    requires TransponderField(s) == TransponderField(t)
    ensures s == t
  {
    if s != "" && t != "" {
      EncodeInjective(s, t);
    }
  }

  lemma EqualFields(t: Transaction, u: Transaction)
    requires ObjectsValid(t) && ObjectsValid(u) && Fields(t) == Fields(u)
    ensures TextField("source", t.source) == TextField("source", u.source)
    ensures TextField("source_reference", t.sourceReference) == TextField("source_reference", u.sourceReference)
    ensures TextField("transaction_type", t.transactionType) == TextField("transaction_type", u.transactionType)
    ensures TextField("transaction_time_utc", Timestamp(t.time)) == TextField("transaction_time_utc", Timestamp(u.time))
    ensures TextField("base_amount", t.baseAmount) == TextField("base_amount", u.baseAmount)
    ensures TextField("currency", t.currency) == TextField("currency", u.currency)
    ensures PlateField(t.plate) == PlateField(u.plate)
    ensures TransponderField(t.transponder) == TransponderField(u.transponder)
    ensures RawField("location", t.locationRaw) == RawField("location", u.locationRaw)
    ensures RawField("metadata", t.metadataRaw) == RawField("metadata", u.metadataRaw)
  {
    hide CanonicalObject, Timestamp, TextField, PlateField, TransponderField, RawField;
    var f, g := Fields(t), Fields(u);
    assert f[0] == g[0] && f[1] == g[1] && f[2] == g[2] && f[3] == g[3] && f[4] == g[4];
    assert f[5] == g[5] && f[6] == g[6] && f[7] == g[7] && f[8] == g[8] && f[9] == g[9];
  }

  lemma EqualFieldsDecide(t: Transaction, u: Transaction)
    requires ObjectsValid(t) && ObjectsValid(u) && Fields(t) == Fields(u)
    ensures SameContent(t, u)
  {
    EqualFields(t, u);
    TextFieldInjective("source", t.source, u.source);
    TextFieldInjective("source_reference", t.sourceReference, u.sourceReference);
    TextFieldInjective("transaction_type", t.transactionType, u.transactionType);
    TextFieldInjective("transaction_time_utc", Timestamp(t.time), Timestamp(u.time));
    TimestampInjective(t.time, u.time);
    TextFieldInjective("base_amount", t.baseAmount, u.baseAmount);
    TextFieldInjective("currency", t.currency, u.currency);
    PlateFieldInjective(t.plate, u.plate);
    TransponderFieldInjective(t.transponder, u.transponder);
    RawFieldDecides("location", t.locationRaw, u.locationRaw);
    RawFieldDecides("metadata", t.metadataRaw, u.metadataRaw);
  }

  lemma SameContentSameFields(t: Transaction, u: Transaction)
    requires ObjectsValid(t) && ObjectsValid(u) && SameContent(t, u)
    ensures Fields(t) == Fields(u)
  {
    RawFieldDecides("location", t.locationRaw, u.locationRaw);
    RawFieldDecides("metadata", t.metadataRaw, u.metadataRaw);
  }

  lemma SamePayloadSameTree(t: Transaction, u: Transaction)
    requires ObjectsValid(t) && ObjectsValid(u)
    requires Write(PayloadTree(t), "") == Write(PayloadTree(u), "")
    ensures PayloadTree(t) == PayloadTree(u)
  {
    PayloadTreeValid(t);
    PayloadTreeValid(u);
    ParseOfWrite(PayloadTree(t), "");
    ParseOfWrite(PayloadTree(u), "");
  }

  /** Valid transactions have one fingerprint payload exactly when their submitted content agrees. */
  lemma FingerprintDecidesContent(t: Transaction, u: Transaction, allowedTypes: set<string>)
    requires Validate(t, allowedTypes).None? && Validate(u, allowedTypes).None?
    ensures Fingerprint(t, allowedTypes).Success? && Fingerprint(u, allowedTypes).Success?
    ensures Fingerprint(t, allowedTypes) == Fingerprint(u, allowedTypes) <==> SameContent(t, u)
  {
    hide Bounded, IsDecimal, Blank, Timestamp, CanonicalObject, Write;
    assert ObjectsValid(t) && ObjectsValid(u);
    if SameContent(t, u) {
      SameContentSameFields(t, u);
    }
    if Fingerprint(t, allowedTypes) == Fingerprint(u, allowedTypes) {
      SamePayloadSameTree(t, u);
      PayloadTreeInjective(t, u);
      EqualFieldsDecide(t, u);
    }
  }
}
