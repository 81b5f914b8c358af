/**
 The wire form of a transport record, its decoding, and the byte strings a record object memoises.
 */
module Wire {
  import opened Outcomes
  import opened Octets
  import opened Base64
  import Clock

  // ---------------------------------------------------------------- payload trees

  /** The keys of the wire format, and every other key a payload may carry. */
  datatype Name =
    | Protocol | Version | RecordId | Fields | Authentication
    | TargetFieldId | ContextKey | EnvelopeKey
    | Epk | Nonce | Ciphertext
    | Algorithm | KeyId | SignatureKey
    | Tenant | SourceConnector | DestinationConnector | FieldId | SchemaVersion | TransferId
    | PlanId | PlanDigest | ProtocolVersion | RecipientKeyId | IssuedAt | ExpiresAt
    | Other(text: string)

  datatype Json =
    | Null | Bool(bool) | Num(int) | Str(text: string) | Arr(items: seq<Json>) | Obj(members: map<Name, Json>)

  /** Python's `str()` and `int()`, its canonical JSON printer and SHA-256. */
  datatype Host = Host(str: Json -> string, toInt: string -> Option<int>, dumps: Json -> Bytes, sha256: Bytes -> string)

  function Text(h: Host, j: Json): string {
    if j.Str? then j.text else h.str(j)
  }

  /** `str(payload[name])`. */
  function Required(h: Host, p: map<Name, Json>, name: Name): Result<string> {
    if name in p then Ok(Text(h, p[name])) else Err(KeyError)
  }

  /** `str(payload.get(name, ""))`. */
  function Optional(h: Host, p: map<Name, Json>, name: Name): string {
    if name in p then Text(h, p[name]) else ""
  }

  /** A version number: an integer or its spelling, but no boolean; missing means zero. */
  function ReadVersion(h: Host, p: map<Name, Json>, name: Name): Result<int> {
    if name !in p then Ok(0)
    else
      match p[name]
      case Num(n) => Ok(n)
      case Str(s) => if h.toInt(s).Some? then Ok(h.toInt(s).value) else Err(ProtocolError)
      case _ => Err(ProtocolError)
  }

  predicate Hex64(s: string) {
    |s| == 64 && forall i :: 0 <= i < |s| ==> '0' <= s[i] <= '9' || 'a' <= s[i] <= 'f'
  }

  // ---------------------------------------------------------------- contexts

  datatype Context = Context(
    tenant: string, source: string, destination: string, field: string, schema: string, record: string,
    transfer: string, plan: string, planDigest: string, version: int, recipient: string,
    issued: Option<Clock.Utc>, expires: Option<Clock.Utc>)

  predicate ValidContext(c: Context) {
    && (c.version == 2 ==> c.recipient == "")
    && (c.recipient != "" ==> Hex64(c.recipient))
    && (c.issued.Some? && c.expires.Some? ==> !Clock.Before(c.expires.value, c.issued.value))
  }

  function TimeText(t: Option<Clock.Utc>): Json {
    if t.Some? then Str(Clock.Iso(t.value)) else Null
  }

  const CONTEXT_NAMES := {Tenant, SourceConnector, DestinationConnector, FieldId, SchemaVersion, RecordId, TransferId,
                          PlanId, PlanDigest, ProtocolVersion, RecipientKeyId, IssuedAt, ExpiresAt}

  /** What `aad_payload` writes under a key, if it writes that key. */
  function ContextMember(c: Context, name: Name): Option<Json> {
    match name
    case Tenant => Some(Str(c.tenant))
    case SourceConnector => Some(Str(c.source))
    case DestinationConnector => Some(Str(c.destination))
    case FieldId => Some(Str(c.field))
    case SchemaVersion => Some(Str(c.schema))
    case RecordId => Some(Str(c.record))
    case TransferId => Some(Str(c.transfer))
    case PlanId => Some(Str(c.plan))
    case PlanDigest => Some(Str(c.planDigest))
    case ProtocolVersion => Some(Num(c.version))
    case RecipientKeyId => if c.recipient == "" then None else Some(Str(c.recipient))
    case IssuedAt => if c.issued.None? then None else Some(TimeText(c.issued))
    case ExpiresAt => if c.expires.None? then None else Some(TimeText(c.expires))
    case _ => None
  }

  /** `TransferContext.to_wire`. */
  function ContextToWire(c: Context): map<Name, Json> {
    map n | n in CONTEXT_NAMES && ContextMember(c, n).Some? :: ContextMember(c, n).value
  }

  function ReadTime(h: Host, p: map<Name, Json>, name: Name): Result<Option<Clock.Utc>> {
    if name !in p || p[name] == Null || p[name] == Str("") then Ok(None)
    else
      var t := Clock.Parse(Text(h, p[name]));
      if t.None? then Err(ProtocolError) else Ok(Some(t.value))
  }

  /** `TransferContext.from_wire`. */
  function ContextFromWire(h: Host, p: map<Name, Json>): Result<Context> {
    var version :- ReadVersion(h, p, ProtocolVersion);
    var tenant :- Required(h, p, Tenant);
    var source :- Required(h, p, SourceConnector);
    var destination :- Required(h, p, DestinationConnector);
    var field :- Required(h, p, FieldId);
    var schema :- Required(h, p, SchemaVersion);
    var record :- Required(h, p, RecordId);
    var transfer :- Required(h, p, TransferId);
    var issued :- ReadTime(h, p, IssuedAt);
    var expires :- ReadTime(h, p, ExpiresAt);
    var c := Context(tenant, source, destination, field, schema, record, transfer,
                     Optional(h, p, PlanId), Optional(h, p, PlanDigest), version, Optional(h, p, RecipientKeyId),
                     issued, expires);
    if ValidContext(c) then Ok(c) else Err(ProtocolError)
  }

  lemma TimeRoundTrip(h: Host, p: map<Name, Json>, name: Name, t: Option<Clock.Utc>)
    requires if t.Some? then name in p && p[name] == TimeText(t) else name !in p
    ensures ReadTime(h, p, name) == Ok(t)
  {
    if t.Some? {
      Clock.IsoRoundTrip(t.value);
      assert |Clock.Iso(t.value)| > 0;
      hide Clock.Iso, Clock.Parse;
    }
  }

  lemma ContextLookup(c: Context, name: Name)
    requires name in CONTEXT_NAMES
    ensures var p := ContextToWire(c);
            && (name in p <==> ContextMember(c, name).Some?)
            && (name in p ==> p[name] == ContextMember(c, name).value)
  {
  }

  lemma ContextRequired(h: Host, c: Context, name: Name, text: string)
    requires name in CONTEXT_NAMES && ContextMember(c, name) == Some(Str(text))
    ensures Required(h, ContextToWire(c), name) == Ok(text) && Optional(h, ContextToWire(c), name) == text
  {
    ContextLookup(c, name);
  }

  lemma ContextExtras(h: Host, c: Context)
    ensures var p := ContextToWire(c);
            && ReadVersion(h, p, ProtocolVersion) == Ok(c.version)
            && Optional(h, p, RecipientKeyId) == c.recipient
            && ReadTime(h, p, IssuedAt) == Ok(c.issued) && ReadTime(h, p, ExpiresAt) == Ok(c.expires)
  {
    hide ContextToWire, Clock.Iso, Clock.Parse, ReadTime;
    var p := ContextToWire(c);
    ContextLookup(c, ProtocolVersion);
    ContextLookup(c, RecipientKeyId);
    ContextLookup(c, IssuedAt);
    ContextLookup(c, ExpiresAt);
    TimeRoundTrip(h, p, IssuedAt, c.issued);
    TimeRoundTrip(h, p, ExpiresAt, c.expires);
  }

  lemma ContextRoundTrip(h: Host, c: Context)
    requires ValidContext(c)
    ensures ContextFromWire(h, ContextToWire(c)) == Ok(c)
  {
    hide ContextToWire, ReadTime, Required, Optional, ReadVersion, ValidContext, Clock.Iso;
    ContextRequired(h, c, Tenant, c.tenant);
    ContextRequired(h, c, SourceConnector, c.source);
    ContextRequired(h, c, DestinationConnector, c.destination);
    ContextRequired(h, c, FieldId, c.field);
    ContextRequired(h, c, SchemaVersion, c.schema);
    ContextRequired(h, c, RecordId, c.record);
    ContextRequired(h, c, TransferId, c.transfer);
    ContextRequired(h, c, PlanId, c.plan);
    ContextRequired(h, c, PlanDigest, c.planDigest);
    ContextExtras(h, c);
  }

  /** The key is there exactly when there is something to say, and says it. */
  predicate Says(p: map<Name, Json>, name: Name, there: bool, value: Json) {
    (name in p <==> there) && (there ==> name in p && p[name] == value)
  }

  /** Every part of a context is on the wire under its own key; the optional ones only when they are there. */
  lemma ContextKeys(c: Context)
    ensures var p := ContextToWire(c);
            && Says(p, Tenant, true, Str(c.tenant)) && Says(p, SourceConnector, true, Str(c.source))
            && Says(p, DestinationConnector, true, Str(c.destination)) && Says(p, FieldId, true, Str(c.field))
            && Says(p, SchemaVersion, true, Str(c.schema)) && Says(p, RecordId, true, Str(c.record))
            && Says(p, TransferId, true, Str(c.transfer)) && Says(p, PlanId, true, Str(c.plan))
            && Says(p, PlanDigest, true, Str(c.planDigest)) && Says(p, ProtocolVersion, true, Num(c.version))
            && Says(p, RecipientKeyId, c.recipient != "", Str(c.recipient))
            && Says(p, IssuedAt, c.issued.Some?, if c.issued.Some? then Str(Clock.Iso(c.issued.value)) else Null)
            && Says(p, ExpiresAt, c.expires.Some?, if c.expires.Some? then Str(Clock.Iso(c.expires.value)) else Null)
  {
    hide ContextToWire, Clock.Iso;
    ContextLookup(c, Tenant);
    ContextLookup(c, SourceConnector);
    ContextLookup(c, DestinationConnector);
    ContextLookup(c, FieldId);
    ContextLookup(c, SchemaVersion);
    ContextLookup(c, RecordId);
    ContextLookup(c, TransferId);
    ContextLookup(c, PlanId);
    ContextLookup(c, PlanDigest);
    ContextLookup(c, ProtocolVersion);
    ContextLookup(c, RecipientKeyId);
    ContextLookup(c, IssuedAt);
    ContextLookup(c, ExpiresAt);
  }

  // ---------------------------------------------------------------- envelopes and fields

  datatype Envelope = Envelope(epk: Bytes, nonce: Bytes, ciphertext: Bytes)

  predicate ValidEnvelope(e: Envelope) {
    |e.epk| == 32 && |e.nonce| == 12 && |e.ciphertext| >= 16
  }

  function EnvelopeToWire(e: Envelope): map<Name, Json> {
    map[Epk := Str(Encode(e.epk)), Nonce := Str(Encode(e.nonce)), Ciphertext := Str(Encode(e.ciphertext))]
  }

  predicate AllStrings(p: map<Name, Json>) {
    forall n :: n in p ==> p[n].Str?
  }

  function EnvelopeFromWire(p: map<Name, Json>, maxCiphertext: nat): Result<Envelope>
    requires AllStrings(p)
  {
    if Epk !in p || Nonce !in p || Ciphertext !in p then Err(KeyError)
    else
      var epk :- DecodeBounded(p[Epk].text, 32);
      var nonce :- DecodeBounded(p[Nonce].text, 12);
      var ciphertext :- DecodeBounded(p[Ciphertext].text, maxCiphertext);
      var e := Envelope(epk, nonce, ciphertext);
      if ValidEnvelope(e) then Ok(e) else Err(ProtocolError)
  }

  datatype Limits = Limits(maxFields: nat, maxCiphertext: nat, maxWireBytes: nat)

  datatype SealedField = SealedField(target: string, context: Context, envelope: Envelope)

  predicate ValidField(f: SealedField) {
    ValidContext(f.context) && ValidEnvelope(f.envelope)
  }

  function FieldToWire(f: SealedField): Json {
    Obj(map[TargetFieldId := Str(f.target), ContextKey := Obj(ContextToWire(f.context)),
            EnvelopeKey := Obj(EnvelopeToWire(f.envelope))])
  }

  function FieldFromWire(h: Host, j: Json, limits: Limits): Result<SealedField> {
    if !j.Obj? then Err(ValueError)
    else
      var p := j.members;
      if ContextKey !in p || !p[ContextKey].Obj? then Err(ProtocolError)
      else if EnvelopeKey !in p || !p[EnvelopeKey].Obj? || !AllStrings(p[EnvelopeKey].members) then Err(ProtocolError)
      else
        var context :- ContextFromWire(h, p[ContextKey].members);
        var envelope :- EnvelopeFromWire(p[EnvelopeKey].members, limits.maxCiphertext);
        var target :- Required(h, p, TargetFieldId);
        Ok(SealedField(target, context, envelope))
  }

  lemma FieldRoundTrip(h: Host, f: SealedField, limits: Limits)
    requires ValidField(f)
    ensures FieldFromWire(h, FieldToWire(f), limits) ==
            if |f.envelope.ciphertext| <= limits.maxCiphertext then Ok(f) else Err(ProtocolError)
  {
    hide ContextFromWire, ContextToWire, Encode, DecodeBounded;
    ContextRoundTrip(h, f.context);
    GuardIsExact(f.envelope.epk, 32);
    GuardIsExact(f.envelope.nonce, 12);
    GuardIsExact(f.envelope.ciphertext, limits.maxCiphertext);
  }

  function FieldsToWire(fs: seq<SealedField>): seq<Json> {
    if fs == [] then [] else [FieldToWire(fs[0])] + FieldsToWire(fs[1..])
  }

  function FieldsFromWire(h: Host, js: seq<Json>, limits: Limits): Result<seq<SealedField>> {
    if js == [] then Ok([])
    else
      var first :- FieldFromWire(h, js[0], limits);
      var rest :- FieldsFromWire(h, js[1..], limits);
      Ok([first] + rest)
  }

  predicate FitsLimit(fs: seq<SealedField>, limits: Limits) {
    forall i :: 0 <= i < |fs| ==> |fs[i].envelope.ciphertext| <= limits.maxCiphertext
  }

  lemma {:induction false} FieldsRoundTrip(h: Host, fs: seq<SealedField>, limits: Limits)
    requires forall i :: 0 <= i < |fs| ==> ValidField(fs[i])
    ensures |FieldsToWire(fs)| == |fs|
    ensures FieldsFromWire(h, FieldsToWire(fs), limits) == if FitsLimit(fs, limits) then Ok(fs) else Err(ProtocolError)
  {
    hide FieldFromWire, FieldToWire, ValidField;
    if fs != [] {
      FieldRoundTrip(h, fs[0], limits);
      FieldsRoundTrip(h, fs[1..], limits);
      assert FieldsToWire(fs)[1..] == FieldsToWire(fs[1..]);
      assert fs == [fs[0]] + fs[1..];
      assert FitsLimit(fs, limits) <==>
             |fs[0].envelope.ciphertext| <= limits.maxCiphertext && FitsLimit(fs[1..], limits);
    }
  }

  // ---------------------------------------------------------------- records

  datatype SourceAuth = SourceAuth(keyId: string, signature: Bytes, algorithm: string)

  predicate ValidAuth(a: SourceAuth) {
    a.algorithm == "ed25519" && Hex64(a.keyId) && |a.signature| == 64
  }

  function AuthToWire(a: SourceAuth): Json {
    Obj(map[Algorithm := Str(a.algorithm), KeyId := Str(a.keyId), SignatureKey := Str(Encode(a.signature))])
  }

  function AuthFromWire(h: Host, p: map<Name, Json>): Result<SourceAuth> {
    if SignatureKey !in p || KeyId !in p then Err(ProtocolError)
    else
      var signature := Decode(Text(h, p[SignatureKey]));
      if signature.None? then Err(ProtocolError)
      else
        var a := SourceAuth(Text(h, p[KeyId]), signature.value, Optional(h, p, Algorithm));
        if ValidAuth(a) then Ok(a) else Err(ProtocolError)
  }

  lemma AuthRoundTrip(h: Host, a: SourceAuth)
    requires ValidAuth(a)
    ensures AuthFromWire(h, AuthToWire(a).members) == Ok(a)
  {
    hide Encode, Decode, Hex64;
    DecodeEncode(a.signature);
  }

  datatype Record = Record(id: string, fields: seq<SealedField>, auth: Option<SourceAuth>, allowBlank: bool)

  /** The part of a context that every field of a record shares. */
  function Shared(c: Context): Context {
    c.(field := "")
  }

  /** The field at `i` belongs to the record and repeats no earlier target. */
  ghost predicate BelongsAt(r: Record, i: nat)
    requires i < |r.fields|
  {
    && (forall j :: 0 <= j < i ==> r.fields[j].target != r.fields[i].target)
    && r.fields[i].target == r.fields[i].context.field
    && r.fields[i].context.record == r.id
    && Shared(r.fields[i].context) == Shared(r.fields[0].context)
  }

  predicate VersionPolicy(first: Context, auth: Option<SourceAuth>, allowBlank: bool) {
    && (first.version == 2 ==> auth.None? && first.recipient == "" && !allowBlank)
    && (first.version == 3 && first.recipient == "" ==> allowBlank)
  }

  /** The invariant of `BlindTransportRecord`. */
  ghost predicate ValidRecord(r: Record) {
    && r.fields != []
    && r.fields[0].context.version in {2, 3}
    && (forall i :: 0 <= i < |r.fields| ==> BelongsAt(r, i))
    && VersionPolicy(r.fields[0].context, r.auth, r.allowBlank)
  }

  /** `__post_init__`, with its set of the targets seen so far. */
  method CheckRecord(r: Record) returns (ok: bool)
    ensures ok <==> ValidRecord(r)
  {
    if r.fields == [] { return false; }
    var first := r.fields[0].context;
    if first.version !in {2, 3} { return false; }
    var seen: set<string> := {};
    for i := 0 to |r.fields|
      invariant seen == set j | 0 <= j < i :: r.fields[j].target
      invariant forall j :: 0 <= j < i ==> BelongsAt(r, j)
    {
      var item := r.fields[i];
      if item.target in seen {
        assert !BelongsAt(r, i);
        return false;
      }
      seen := seen + {item.target};
      if item.target != item.context.field || item.context.record != r.id || Shared(item.context) != Shared(first) {
        assert !BelongsAt(r, i);
        return false;
      }
      assert BelongsAt(r, i);
    }
    return VersionPolicy(first, r.auth, r.allowBlank);
  }

  /**
   Whichever field of a record is asked, it names the same tenant, connectors, transfer, plan, schema, version,
   recipient and validity, and the record's own id; and no two fields have one target.
   */
  lemma FieldsSpeakForTheRecord(r: Record, i: nat, j: nat)
    requires ValidRecord(r) && i < |r.fields| && j < |r.fields|
    ensures var a, b := r.fields[i].context, r.fields[j].context;
            && a.tenant == b.tenant && a.source == b.source && a.destination == b.destination
            && a.transfer == b.transfer && a.plan == b.plan && a.planDigest == b.planDigest && a.schema == b.schema
            && a.version == b.version && a.recipient == b.recipient && a.issued == b.issued && a.expires == b.expires
            && a.record == b.record == r.id && a.field == r.fields[i].target
    ensures i != j ==> r.fields[i].target != r.fields[j].target
    ensures r.fields[i].context.version == 2 || r.fields[i].context.version == 3
  {
    assert BelongsAt(r, i) && BelongsAt(r, j);
  }

  function ContentWire(r: Record): map<Name, Json>
    requires r.fields != []
  {
    map[Protocol := Str("opaque-record"), Version := Num(r.fields[0].context.version), RecordId := Str(r.id),
        Fields := Arr(FieldsToWire(r.fields))]
  }

  /** `to_wire`. */
  function ToWire(r: Record): map<Name, Json>
    requires r.fields != []
  {
    ContentWire(r) + (if r.auth.Some? then map[Authentication := AuthToWire(r.auth.value)] else map[])
  }

  /** `from_wire`. */
  ghost function FromWire(h: Host, p: map<Name, Json>, limits: Limits, allowUnsigned: bool, allowBlank: bool)
    : Result<Record>
  {
    if Protocol !in p || p[Protocol] != Str("opaque-record") then Err(ProtocolError)
    else
      var version :- ReadVersion(h, p, Version);
      if version !in {2, 3} || (version == 2 && !allowUnsigned) then Err(ProtocolError)
      else if Fields !in p || !p[Fields].Arr? || p[Fields].items == [] then Err(ProtocolError)
      else if |p[Fields].items| > limits.maxFields || |h.dumps(Obj(p))| > limits.maxWireBytes then Err(ProtocolError)
      else
        var fields :- FieldsFromWire(h, p[Fields].items, limits);
        var auth :- ReadAuth(h, p, version);
        var id :- Required(h, p, RecordId);
        Assemble(id, fields, auth, version, allowBlank)
  }

  /** The constructor call at the end of `from_wire`, and the version check behind it. */
  ghost function Assemble(
      id: string, fields: seq<SealedField>, auth: Option<SourceAuth>, version: int, allowBlank: bool)
    : Result<Record>
  {
    var r := Record(id, fields, auth, version == 3 && fields != [] && fields[0].context.recipient == "" && allowBlank);
    if !ValidRecord(r) || r.fields[0].context.version != version then Err(ProtocolError) else Ok(r)
  }

  function ReadAuth(h: Host, p: map<Name, Json>, version: int): Result<Option<SourceAuth>> {
    if version == 3 then
      if Authentication !in p || !p[Authentication].Obj? then Err(ProtocolError)
      else
        var a :- AuthFromWire(h, p[Authentication].members);
        Ok(Some(a))
    else if Authentication in p && p[Authentication] != Null then Err(ProtocolError)
    else Ok(None)
  }

  /** A record as its parts allow it to be built: every part passed its own checks. */
  ghost predicate WellFormed(r: Record) {
    ValidRecord(r) && (forall i :: 0 <= i < |r.fields| ==> ValidField(r.fields[i])) &&
    (r.auth.Some? ==> ValidAuth(r.auth.value))
  }

  ghost predicate WithinLimits(h: Host, r: Record, limits: Limits)
    requires r.fields != []
  {
    |r.fields| <= limits.maxFields && FitsLimit(r.fields, limits) && |h.dumps(Obj(ToWire(r)))| <= limits.maxWireBytes
  }

  /** The receiver's policy admits the record: signed when v3, unsigned or with a blank recipient only by permission. */
  predicate Admitted(r: Record, allowUnsigned: bool, allowBlank: bool)
    requires r.fields != []
  {
    var first := r.fields[0].context;
    if first.version == 2 then allowUnsigned
    else r.auth.Some? && r.allowBlank == (first.recipient == "" && allowBlank)
  }

  lemma WireShape(h: Host, r: Record)
    requires r.fields != []
    ensures var p := ToWire(r);
            && Protocol in p && p[Protocol] == Str("opaque-record")
            && ReadVersion(h, p, Version) == Ok(r.fields[0].context.version)
            && Required(h, p, RecordId) == Ok(r.id)
            && Fields in p && p[Fields] == Arr(FieldsToWire(r.fields))
            && (Authentication in p <==> r.auth.Some?)
            && (r.auth.Some? ==> p[Authentication] == AuthToWire(r.auth.value))
  {
    hide FieldsToWire, AuthToWire;
  }

  lemma AuthReadBack(h: Host, r: Record)
    requires WellFormed(r)
    ensures var version := r.fields[0].context.version;
            ReadAuth(h, ToWire(r), version) == if version == 3 && r.auth.None? then Err(ProtocolError) else Ok(r.auth)
  {
    hide AuthFromWire, FieldsToWire;
    if r.auth.Some? { AuthRoundTrip(h, r.auth.value); }
  }

  /**
   Decoding what a record encodes gives back that record exactly when it is within the limits and
   the receiver's policy admits it. In particular every signed v3 record with a recipient key id
   and without the blank-recipient flag round-trips; with the flag set it does not.
   */
  lemma RecordRoundTrip(h: Host, r: Record, limits: Limits, allowUnsigned: bool, allowBlank: bool)
    requires WellFormed(r)
    ensures FromWire(h, ToWire(r), limits, allowUnsigned, allowBlank) == Ok(r) <==>
            WithinLimits(h, r, limits) && Admitted(r, allowUnsigned, allowBlank)
  {
    WireShape(h, r);
    AuthReadBack(h, r);
    FieldsRoundTrip(h, r.fields, limits);
    AssembledRecord(r, allowBlank);
    hide ToWire, FieldsToWire, FieldsFromWire, ReadVersion, ReadAuth, Required, AuthToWire,
         FitsLimit, Assemble, ValidRecord, WellFormed;
  }

  /** A signed v3 record with a recipient key id, built with the blank-recipient flag nevertheless. */
  function FlaggedRecord(): Record {
    var digest := seq(64, _ => '0');
    var context := Context("tenant", "crm", "erp", "email", "1", "r-1", "t-1", "", "", 3, digest, None, None);
    var envelope := Envelope(seq(32, _ => 0), seq(12, _ => 0), seq(16, _ => 0));
    Record("r-1", [SealedField("email", context, envelope)], Some(SourceAuth(digest, seq(64, _ => 0), "ed25519")), true)
  }

  /** It is well-formed, and no receiver decodes it to itself: the flag is not on the wire. */
  lemma FlagIsLostOnTheWire(h: Host, limits: Limits, allowUnsigned: bool, allowBlank: bool)
    ensures WellFormed(FlaggedRecord())
    ensures FromWire(h, ToWire(FlaggedRecord()), limits, allowUnsigned, allowBlank) != Ok(FlaggedRecord())
  {
    var r := FlaggedRecord();
    hide FromWire, ToWire;
    assert BelongsAt(r, 0);
    RecordRoundTrip(h, r, limits, allowUnsigned, allowBlank);
  }

  lemma AssembledRecord(r: Record, allowBlank: bool)
    requires WellFormed(r)
    ensures r.fields != [] && r.fields[0].context.version in {2, 3}
    ensures var first := r.fields[0].context;
            && (first.version == 2 ==> r.auth.None? && !r.allowBlank)
            && (Assemble(r.id, r.fields, r.auth, first.version, allowBlank) == Ok(r) <==>
                  first.version == 2 || r.allowBlank == (first.recipient == "" && allowBlank))
  {
    BlankFlagOnlyMattersForV3(r, allowBlank);
    hide WellFormed;
  }

  lemma BlankFlagOnlyMattersForV3(r: Record, allowBlank: bool)
    requires WellFormed(r)
    ensures var first := r.fields[0].context;
            var flag := first.version == 3 && first.recipient == "" && allowBlank;
            && (ValidRecord(r.(allowBlank := flag)) <==>
                  first.version == 2 || first.recipient != "" || allowBlank)
            && (first.version == 2 ==> !r.allowBlank)
  {
    var first := r.fields[0].context;
    var other := r.(allowBlank := first.version == 3 && first.recipient == "" && allowBlank);
    forall i | 0 <= i < |r.fields| ensures BelongsAt(other, i) { assert BelongsAt(r, i); }
  }

  // ---------------------------------------------------------------- digests and signatures

  function Ascii(s: string): Bytes {
    if s == "" then [] else [s[0] as int % 256] + Ascii(s[1..])
  }

  const AUTH_DOMAIN := Ascii("angusu.bridge/opaque-record/source-auth/v3") + [0]

  function WireBytes(h: Host, r: Record): Bytes
    requires r.fields != []
  {
    h.dumps(Obj(ToWire(r)))
  }

  function DigestOf(h: Host, r: Record): string
    requires r.fields != []
  {
    h.sha256(h.dumps(Obj(ContentWire(r))))
  }

  function AuthBytes(h: Host, r: Record, keyId: string, algorithm: string): Bytes
    requires r.fields != []
  {
    var named := Obj(map[Algorithm := Str(algorithm), KeyId := Str(keyId)]);
    AUTH_DOMAIN + h.dumps(Obj(ContentWire(r)[Authentication := named]))
  }

  datatype Signer = Signer(keyId: string, sign: Bytes -> Bytes)

  predicate Printable(s: string, max: nat) {
    |s| <= max && forall i :: 0 <= i < |s| ==> ' ' <= s[i] <= '~'
  }

  predicate Named(s: string, max: nat) {
    Printable(s, max) && exists i :: 0 <= i < |s| && s[i] != ' '
  }

  /** `validate_new_metadata`. */
  predicate Issuable(c: Context) {
    && Named(c.tenant, 128) && Named(c.source, 128) && Named(c.destination, 128) && Named(c.field, 256)
    && Named(c.schema, 128) && Named(c.record, 256) && Named(c.transfer, 256)
    && Printable(c.plan, 256) && (c.planDigest != "" ==> Hex64(c.planDigest))
  }

  predicate MaySign(r: Record)
    requires r.fields != []
  {
    r.fields[0].context.version == 3 && r.auth.None? &&
    forall i :: 0 <= i < |r.fields| ==> Issuable(r.fields[i].context)
  }

  /** The record with the signature over its authentication bytes. */
  function SignedRecord(h: Host, r: Record, signer: Signer): Record
    requires r.fields != []
  {
    r.(auth := Some(SourceAuth(signer.keyId, signer.sign(AuthBytes(h, r, signer.keyId, "ed25519")), "ed25519")))
  }

  /** Authenticating a v3 record changes neither its invariant nor the bytes its digest and signature cover. */
  lemma AuthenticationIsNotContent(h: Host, r: Record, auth: Option<SourceAuth>, keyId: string)
    requires ValidRecord(r) && r.fields[0].context.version == 3
    ensures ValidRecord(r.(auth := auth)) && DigestOf(h, r.(auth := auth)) == DigestOf(h, r)
    ensures AuthBytes(h, r.(auth := auth), keyId, "ed25519") == AuthBytes(h, r, keyId, "ed25519")
  {
    hide Ascii, FieldsToWire;
    forall i | 0 <= i < |r.fields| ensures BelongsAt(r.(auth := auth), i) { assert BelongsAt(r, i); }
  }

  /**
   Signing keeps the invariant and the digest; the signature is over the bytes a verifier of the
   signed record recomputes; and the signed record survives the wire.
   */
  lemma SigningIsSound(h: Host, r: Record, signer: Signer, limits: Limits, allowUnsigned: bool, allowBlank: bool)
    requires WellFormed(r) && MaySign(r)
    requires ValidAuth(SignedRecord(h, r, signer).auth.value)
    ensures var signed := SignedRecord(h, r, signer);
            && WellFormed(signed) && DigestOf(h, signed) == DigestOf(h, r)
            && signed.auth.value.signature == signer.sign(AuthBytes(h, signed, signer.keyId, "ed25519"))
            && (WithinLimits(h, signed, limits) && !r.allowBlank && r.fields[0].context.recipient != "" ==>
                  FromWire(h, ToWire(signed), limits, allowUnsigned, allowBlank) == Ok(signed))
  {
    var signed := SignedRecord(h, r, signer);
    AuthenticationIsNotContent(h, r, signed.auth, signer.keyId);
    hide Ascii, AuthBytes, DigestOf, FromWire, ToWire, BelongsAt;
    RecordRoundTrip(h, signed, limits, allowUnsigned, allowBlank);
  }

  /** Bounded text of printable ASCII; `named` if it may not be blank. */
  ghost predicate IsMetadata(s: string, max: nat, named: bool) {
    && |s| <= max && (forall c :: c in s ==> 0x20 <= c as int <= 0x7E)
    && (named ==> exists c :: c in s && c != ' ')
  }

  lemma MetadataIsPrintable(s: string, max: nat)
    ensures Printable(s, max) <==> IsMetadata(s, max, false)
    ensures Named(s, max) <==> IsMetadata(s, max, true)
  {
    assert forall i :: 0 <= i < |s| ==> s[i] in s;
  }

  /** What a context has to say before anything is sealed or signed under it. */
  ghost predicate IsDescribed(c: Context) {
    && IsMetadata(c.tenant, 128, true) && IsMetadata(c.source, 128, true) && IsMetadata(c.destination, 128, true)
    && IsMetadata(c.field, 256, true) && IsMetadata(c.schema, 128, true) && IsMetadata(c.record, 256, true)
    && IsMetadata(c.transfer, 256, true) && IsMetadata(c.plan, 256, false)
    && (c.planDigest != "" ==> |c.planDigest| == 64 && forall x :: x in c.planDigest ==> x in "0123456789abcdef")
  }

  lemma HexDigits(s: string)
    ensures Hex64(s) <==> |s| == 64 && forall x :: x in s ==> x in "0123456789abcdef"
  {
    assert forall x: char :: x in "0123456789abcdef" <==> '0' <= x <= '9' || 'a' <= x <= 'f';
    assert forall i :: 0 <= i < |s| ==> s[i] in s;
  }

  lemma IssuableIffDescribed(c: Context)
    ensures Issuable(c) <==> IsDescribed(c)
  {
    hide Printable, Named, IsMetadata, Hex64;
    MetadataIsPrintable(c.tenant, 128);
    MetadataIsPrintable(c.source, 128);
    MetadataIsPrintable(c.destination, 128);
    MetadataIsPrintable(c.field, 256);
    MetadataIsPrintable(c.schema, 128);
    MetadataIsPrintable(c.record, 256);
    MetadataIsPrintable(c.transfer, 256);
    MetadataIsPrintable(c.plan, 256);
    HexDigits(c.planDigest);
  }

  /** A record can be signed exactly when it is an unsigned v3 record whose metadata is bounded and printable. */
  lemma SigningNeedsMetadata(r: Record)
    requires r.fields != []
    ensures MaySign(r) <==>
            && r.fields[0].context.version == 3 && r.auth.None?
            && forall i :: 0 <= i < |r.fields| ==> IsDescribed(r.fields[i].context)
  {
    hide Issuable, IsDescribed;
    forall i | 0 <= i < |r.fields| ensures Issuable(r.fields[i].context) <==> IsDescribed(r.fields[i].context) {
      IssuableIffDescribed(r.fields[i].context);
    }
  }

  // ---------------------------------------------------------------- what decoding lets through

  lemma BoundedIsBounded(s: string, max: nat)
    ensures DecodeBounded(s, max).Ok? ==> |DecodeBounded(s, max).value| <= max
  {
    hide Decode;
  }

  lemma DecodedFieldIsValid(h: Host, j: Json, limits: Limits)
    requires FieldFromWire(h, j, limits).Ok?
    ensures var f := FieldFromWire(h, j, limits).value;
            && ValidField(f) && |f.envelope.epk| == 32 && |f.envelope.nonce| == 12
            && 16 <= |f.envelope.ciphertext| <= limits.maxCiphertext
            && (f.context.recipient != "" ==> Hex64(f.context.recipient) && f.context.version != 2)
            && (f.context.issued.Some? && f.context.expires.Some? ==>
                  Clock.Micros(f.context.issued.value) <= Clock.Micros(f.context.expires.value))
  {
    hide DecodeBounded, ReadTime, ReadVersion, Hex64, Clock.Micros, Clock.Before;
    var c := FieldFromWire(h, j, limits).value.context;
    if c.issued.Some? && c.expires.Some? { Clock.MicrosOrder(c.expires.value, c.issued.value); }
    var e := j.members[EnvelopeKey].members;
    BoundedIsBounded(e[Ciphertext].text, limits.maxCiphertext);
  }

  lemma {:induction false} DecodedFieldsAreValid(h: Host, js: seq<Json>, limits: Limits)
    requires FieldsFromWire(h, js, limits).Ok?
    ensures var fs := FieldsFromWire(h, js, limits).value;
            |fs| == |js| && FitsLimit(fs, limits) && forall i :: 0 <= i < |fs| ==> ValidField(fs[i])
  {
    hide FieldFromWire, ValidField;
    if js != [] {
      DecodedFieldIsValid(h, js[0], limits);
      DecodedFieldsAreValid(h, js[1..], limits);
    }
  }

  lemma DecodedAuthIsValid(h: Host, p: map<Name, Json>, version: int)
    requires ReadAuth(h, p, version).Ok?
    ensures var a := ReadAuth(h, p, version).value;
            && (a.Some? <==> version == 3)
            && (a.Some? ==> ValidAuth(a.value) && a.value.algorithm == "ed25519" && |a.value.signature| == 64)
            && (version != 3 ==> Authentication !in p || p[Authentication] == Null)
  {
  }

  /**
   Whatever the payload: a record that decoding accepts is well-formed, within the limits, signed if it is v3, v2 only
   by permission and then without authentication, and without a recipient key only by permission.
   */
  lemma DecodingAdmitsOnly(h: Host, p: map<Name, Json>, limits: Limits, allowUnsigned: bool, allowBlank: bool)
    requires FromWire(h, p, limits, allowUnsigned, allowBlank).Ok?
    ensures var r := FromWire(h, p, limits, allowUnsigned, allowBlank).value;
            && WellFormed(r) && |r.fields| <= limits.maxFields && FitsLimit(r.fields, limits)
            && |h.dumps(Obj(p))| <= limits.maxWireBytes && Protocol in p && p[Protocol] == Str("opaque-record")
            && var first := r.fields[0].context;
               && ReadVersion(h, p, Version) == Ok(first.version)
               && (first.version == 3 ==> r.auth.Some?)
               && (first.version == 2 ==>
                     allowUnsigned && r.auth.None? && (Authentication !in p || p[Authentication] == Null))
               && (first.version == 3 && first.recipient == "" ==> allowBlank)
  {
    hide FieldsFromWire, ReadAuth, ReadVersion, Required, ValidField, ValidAuth, BelongsAt, FitsLimit;
    DecodedFieldsAreValid(h, p[Fields].items, limits);
    DecodedAuthIsValid(h, p, ReadVersion(h, p, Version).value);
  }

  // ---------------------------------------------------------------- what the digest and the signature cover

  /** Two texts, or two trees, never share a digest or a printing. */
  ghost predicate Injective(h: Host) {
    && (forall x, y :: h.sha256(x) == h.sha256(y) ==> x == y)
    && (forall x, y :: h.dumps(x) == h.dumps(y) ==> x == y)
  }

  /** A ciphertext limit that all the fields are within. */
  function LongestCiphertext(fs: seq<SealedField>): (n: nat)
    ensures forall i :: 0 <= i < |fs| ==> |fs[i].envelope.ciphertext| <= n
  {
    if fs == [] then 0
    else
      var rest := LongestCiphertext(fs[1..]);
      if rest < |fs[0].envelope.ciphertext| then |fs[0].envelope.ciphertext| else rest
  }

  /** The wire form of a list of fields determines it. */
  lemma FieldsAreDetermined(h: Host, a: seq<SealedField>, b: seq<SealedField>)
    requires forall i :: 0 <= i < |a| ==> ValidField(a[i])
    requires forall i :: 0 <= i < |b| ==> ValidField(b[i])
    requires FieldsToWire(a) == FieldsToWire(b)
    ensures a == b
  {
    hide FieldsToWire, FieldsFromWire, ValidField;
    var limits := Limits(0, LongestCiphertext(a) + LongestCiphertext(b), 0);
    FieldsRoundTrip(h, a, limits);
    FieldsRoundTrip(h, b, limits);
  }

  lemma ContentMembers(r: Record)
    requires r.fields != []
    ensures RecordId in ContentWire(r) && ContentWire(r)[RecordId] == Str(r.id)
    ensures Fields in ContentWire(r) && ContentWire(r)[Fields] == Arr(FieldsToWire(r.fields))
    ensures Authentication !in ContentWire(r)
  {
    hide FieldsToWire;
  }

  lemma ContentIsDetermined(h: Host, a: Record, b: Record)
    requires WellFormed(a) && WellFormed(b)
    ensures ContentWire(a) == ContentWire(b) <==> a.id == b.id && a.fields == b.fields
  {
    ContentMembers(a);
    ContentMembers(b);
    hide FieldsToWire, ValidField, BelongsAt, VersionPolicy;
    if ContentWire(a) == ContentWire(b) { FieldsAreDetermined(h, a.fields, b.fields); }
  }

  /** Records have one digest exactly when they have one id and the same sealed fields in the same order. */
  lemma DigestPinsContent(h: Host, a: Record, b: Record)
    requires Injective(h) && WellFormed(a) && WellFormed(b)
    ensures DigestOf(h, a) == DigestOf(h, b) <==> a.id == b.id && a.fields == b.fields
  {
    hide ContentWire, WellFormed;
    WellFormedHasFields(a);
    WellFormedHasFields(b);
    ContentIsDetermined(h, a, b);
  }

  lemma WellFormedHasFields(r: Record)
    requires WellFormed(r)
    ensures r.fields != []
  {
  }

  /** What is signed determines the record's id and fields, the key and the algorithm, and nothing else. */
  lemma SignedBytesPinContent(
      h: Host, a: Record, b: Record, key: string, key': string, algorithm: string, algorithm': string)
    requires Injective(h) && WellFormed(a) && WellFormed(b)
    ensures AuthBytes(h, a, key, algorithm) == AuthBytes(h, b, key', algorithm') <==>
            a.id == b.id && a.fields == b.fields && key == key' && algorithm == algorithm'
  {
    hide WellFormed, Ascii, FieldsToWire;
    WellFormedHasFields(a);
    WellFormedHasFields(b);
    ContentIsDetermined(h, a, b);
    var p, q := SignedTree(a, key, algorithm), SignedTree(b, key', algorithm');
    assert AuthBytes(h, a, key, algorithm)[|AUTH_DOMAIN|..] == h.dumps(Obj(p));
    assert AuthBytes(h, b, key', algorithm')[|AUTH_DOMAIN|..] == h.dumps(Obj(q));
    SignedTreePins(a, b, key, key', algorithm, algorithm');
    hide ContentWire, SignedTree;
  }

  /** The tree whose printing is signed. */
  function SignedTree(r: Record, key: string, algorithm: string): map<Name, Json>
    requires r.fields != []
  {
    ContentWire(r)[Authentication := Obj(map[Algorithm := Str(algorithm), KeyId := Str(key)])]
  }

  lemma SignedTreePins(a: Record, b: Record, key: string, key': string, algorithm: string, algorithm': string)
    requires a.fields != [] && b.fields != []
    ensures SignedTree(a, key, algorithm) == SignedTree(b, key', algorithm') <==>
            ContentWire(a) == ContentWire(b) && key == key' && algorithm == algorithm'
  {
    ContentMembers(a);
    ContentMembers(b);
    hide ContentWire;
    var p, q := SignedTree(a, key, algorithm), SignedTree(b, key', algorithm');
    if p == q {
      assert ContentWire(a) == p - {Authentication} && ContentWire(b) == q - {Authentication};
      var s, t := p[Authentication].members, q[Authentication].members;
      assert s[KeyId] == t[KeyId] && s[Algorithm] == t[Algorithm];
    }
  }

  /** The canonical wire bytes determine everything that is on the wire: the content and the authentication. */
  lemma WireBytesPinRecord(h: Host, a: Record, b: Record)
    requires Injective(h) && WellFormed(a) && WellFormed(b)
    ensures WireBytes(h, a) == WireBytes(h, b) <==> a.id == b.id && a.fields == b.fields && a.auth == b.auth
  {
    hide ToWire, FieldsToWire, AuthToWire, AuthFromWire, Hex64, BelongsAt, VersionPolicy, ValidField;
    WellFormedHasFields(a);
    WellFormedHasFields(b);
    WireShape(h, a);
    WireShape(h, b);
    if WireBytes(h, a) == WireBytes(h, b) {
      assert ToWire(a) == ToWire(b);
      FieldsAreDetermined(h, a.fields, b.fields);
      if a.auth.Some? {
        AuthRoundTrip(h, a.auth.value);
        AuthRoundTrip(h, b.auth.value);
      }
    }
    if a.id == b.id && a.fields == b.fields && a.auth == b.auth { SameWire(a, b); }
  }

  lemma SameWire(a: Record, b: Record)
    requires a.fields != [] && a.id == b.id && a.fields == b.fields && a.auth == b.auth
    ensures ToWire(a) == ToWire(b)
  {
  }

  // ---------------------------------------------------------------- the memoising object

  class BlindTransportRecord {
    const host: Host
    const data: Record
    var wireCache: Option<Bytes>
    var digestCache: Option<string>
    var authCache: Option<(string, string, Bytes)>

    /** Every cached byte string is what recomputing it would give. */
    ghost predicate Valid()
      reads this
    {
      && ValidRecord(data)
      && (wireCache.Some? ==> wireCache.value == WireBytes(host, data))
      && (digestCache.Some? ==> digestCache.value == DigestOf(host, data))
      && (authCache.Some? ==>
            && data.fields[0].context.version == 3
            && authCache.value.2 == AuthBytes(host, data, authCache.value.0, authCache.value.1))
    }

    constructor (host: Host, data: Record)
      requires ValidRecord(data)
      ensures Valid() && this.host == host && this.data == data
      ensures wireCache.None? && digestCache.None? && authCache.None?
    {
      this.host, this.data := host, data;
      wireCache, digestCache, authCache := None, None, None;
    }

    method CanonicalWireBytes() returns (bytes: Bytes)
      requires Valid()
      modifies this`wireCache
      ensures Valid() && bytes == WireBytes(host, data) && wireCache == Some(bytes)
    {
      if wireCache.Some? { return wireCache.value; }
      bytes := host.dumps(Obj(ToWire(data)));
      wireCache := Some(bytes);
    }

    method Digest() returns (digest: string)
      requires Valid()
      modifies this`digestCache
      ensures Valid() && digest == DigestOf(host, data) && digestCache == Some(digest)
    {
      if digestCache.Some? { return digestCache.value; }
      digest := host.sha256(host.dumps(Obj(ContentWire(data))));
      digestCache := Some(digest);
    }

    method SourceAuthenticationBytes(keyId: string, algorithm: string) returns (r: Result<Bytes>)
      requires Valid()
      modifies this`authCache
      ensures Valid()
      ensures r == if data.fields[0].context.version == 3 then Ok(AuthBytes(host, data, keyId, algorithm))
                   else Err(ProtocolError)
    {
      hide Ascii, AuthBytes, WireBytes, DigestOf, BelongsAt;
      if data.fields[0].context.version != 3 { return Err(ProtocolError); }
      if authCache.Some? && authCache.value.0 == keyId && authCache.value.1 == algorithm {
        return Ok(authCache.value.2);
      }
      var bytes := AuthBytes(host, data, keyId, algorithm);
      authCache := Some((keyId, algorithm, bytes));
      return Ok(bytes);
    }

    /** `signed`: a new object whose authentication cache is seeded with the bytes that were signed. */
    method Signed(signer: Signer) returns (r: Result<BlindTransportRecord>)
      requires Valid()
      modifies this`authCache
      ensures Valid()
      ensures r.Ok? <==> MaySign(data) && ValidAuth(SignedRecord(host, data, signer).auth.value)
      ensures r.Ok? ==>
        && fresh(r.value) && r.value.Valid() && r.value.host == host
        && r.value.data == SignedRecord(host, data, signer)
        && r.value.authCache == Some((signer.keyId, "ed25519", AuthBytes(host, data, signer.keyId, "ed25519")))
        && DigestOf(host, r.value.data) == DigestOf(host, data)
    {
      hide Ascii, AuthBytes, WireBytes, Hex64, Issuable, DigestOf, BelongsAt;
      if data.fields[0].context.version != 3 || data.auth.Some? { return Err(ProtocolError); }
      if exists i :: 0 <= i < |data.fields| && !Issuable(data.fields[i].context) { return Err(ProtocolError); }
      var bytes := SourceAuthenticationBytes(signer.keyId, "ed25519");
      var auth := SourceAuth(signer.keyId, signer.sign(bytes.value), "ed25519");
      if !ValidAuth(auth) { return Err(ProtocolError); }
      var signed := data.(auth := Some(auth));
      AuthenticationIsNotContent(host, data, Some(auth), signer.keyId);
      var copy := new BlindTransportRecord(host, signed);
      copy.authCache := Some((signer.keyId, "ed25519", bytes.value));
      return Ok(copy);
    }
  }
}
