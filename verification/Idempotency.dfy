/**
  Retried POSTs and the in-memory response cache
  (apps/api/idempotency_store.py:82-97, 194-260; apps/api/routes/events.py:261-372).
  Requests do not overlap here: a lookup that finds nothing reserves nothing, so
  two overlapping requests with one key can both ingest.
 */
module Idempotency {
  import opened Wrappers
  import opened Bytes
  import opened CanonicalJson
  import opened Primitives
  import opened Receipts
  import opened Ledger
  import opened Ingest

  const DEFAULT_TTL: Time := 86_400_000_000

  datatype Response = Response(
    eventId: Uuid, receiptId: Uuid, snapshotId: Uuid, receiptHash: Hex64, integrityOk: bool, persistedAt: Time)

  datatype RecordKey = RecordKey(tenantId: Uuid, key: string)

  datatype Record = Record(bodyHash: Hex64, status: nat, response: Response, storedAt: Time, expiresAt: Time)

  type Records = map<RecordKey, Record>

  datatype Reply = Created(response: Response, replayed: bool) | Refused(status: nat)

  /** One request: who sends it, its key, what ingest is given, its event among it, and the clock at three moments. */
  datatype Post = Post(
    principalTenant: Uuid, principalAgent: Uuid, key: Option<string>, inputs: Inputs,
    lookupAt: Time, persistedAt: Time, storeAt: Time)

  // ----- Keys and body hashes -----

  predicate IsKeyChar(c: char)
  {
    'A' <= c <= 'Z' || 'a' <= c <= 'z' || '0' <= c <= '9' || c == '_' || c == '-'
  }

  /** `^[A-Za-z0-9_-]{16,128}$` */
  predicate IsValidKey(key: string)
  {
    16 <= |key| <= 128 && forall c | c in key :: IsKeyChar(c)
  }

  /** 16 to 128 characters, each a letter, a digit, an underscore or a hyphen. */
  lemma ValidKeys(key: string)
    ensures IsValidKey(key)
       <==> && 16 <= |key| <= 128
            && forall i :: 0 <= i < |key| ==>
                 || 'A' <= key[i] <= 'Z' || 'a' <= key[i] <= 'z' || '0' <= key[i] <= '9' || key[i] == '_' || key[i] == '-'
  {
    assert forall i :: 0 <= i < |key| ==> key[i] in key;
  }

  /** The canonical bytes are hashed as a value of their own, which makes them base64 text first. */
  function HashedValue(body: Json): Hashable
    requires CanonicalBytes(body).Success?
  {
    Str("base64:" + Base64Encode(CanonicalBytes(body).value, false))
  }

  /** `compute_body_hash` */
  function BodyHash(lib: Library, body: Json): Result<Hex64, EncodingError>
  {
    match CanonicalBytes(body)
    case Failure(e) => Failure(e)
    case Success(_) => Success(Digest(lib, HashedValue(body)))
  }

  /** What is hashed in the end: the base64 text of the canonical bytes, under its prefix and between quotes. */
  lemma HashedBytes(lib: Library, body: Json)
    ensures CanonicalBytes(body).Success? ==>
              BodyHash(lib, body)
                == Success(lib.sha256(Utf8("\"base64:" + Base64Encode(CanonicalBytes(body).value, false) + "\"")))
  {
    hide Base64Encode, Utf8, Escape;
    if CanonicalBytes(body).Success? {
      var s := "base64:" + Base64Encode(CanonicalBytes(body).value, false);
      Base64IsPlain(CanonicalBytes(body).value, false);
      PlainChars(s);
      assert Render(Str(s), false) == "\"base64:" + Base64Encode(CanonicalBytes(body).value, false) + "\"";
    }
  }

  /** Equal body hashes mean equal bodies, whatever the order of their members, or two texts collide. */
  lemma BodyHashDetermines(lib: Library, a: Hashable, b: Hashable)
    ensures BodyHash(lib, a).Success? && BodyHash(lib, b).Success?
    ensures Meaning(a) == Meaning(b) ==> BodyHash(lib, a) == BodyHash(lib, b)
    ensures BodyHash(lib, a) == BodyHash(lib, b) ==>
              Meaning(a) == Meaning(b) || Clash(lib, {Text(HashedValue(a))}, {Text(HashedValue(b))})
  {
    hide Text, Clash, Base64Encode, WellFormed;
    CanonicalIffSameMeaning(a, b);
    var v, w := HashedValue(a), HashedValue(b);
    DigestDetermines(lib, v, w);
    if BodyHash(lib, a) == BodyHash(lib, b) && !Clash(lib, {Text(v)}, {Text(w)}) {
      var x, y := Base64Encode(CanonicalBytes(a).value, false), Base64Encode(CanonicalBytes(b).value, false);
      assert Meaning(v) == DStr("base64:" + x) && Meaning(w) == DStr("base64:" + y);
      assert ("base64:" + x)[7..] == x && ("base64:" + y)[7..] == y;
      Base64Injective(CanonicalBytes(a).value, CanonicalBytes(b).value, false);
    }
  }

  // ----- The client body of an event -----

  function TextOf(s: Option<string>): Option<Json>
  {
    if s.Some? then Some(Str(s.value)) else None
  }

  /** `model_dump(exclude={"id"}, exclude_defaults=True, exclude_none=True)`: absent options and an empty payload are left out. */
  function ClientFields(lib: Library, e: Event): (fields: seq<Field>)
    ensures |fields| == 12
  {
    [Field("tenant_id", Some(Str(e.tenantId))), Field("agent_id", Some(Str(e.agentId))),
     Field("trace_id", Some(Str(e.traceId))), Field("span_id", Some(Str(e.spanId))),
     Field("parent_span_id", TextOf(e.parentSpanId)), Field("kind", Some(Str(e.kind))),
     Field("occurred_at", Some(Str(lib.iso(e.occurredAt)))),
     Field("payload", if e.payload == Obj([]) then None else Some(e.payload)),
     Field("reasoning", TextOf(e.reasoning)), Field("output", TextOf(e.output)),
     Field("policy_version", TextOf(e.policyVersion)), Field("policy_verdict", TextOf(e.policyVerdict))]
  }

  lemma ClientFieldsDistinct(lib: Library, e: Event)
    ensures DistinctFields(ClientFields(lib, e))
  {
  }

  function ClientBody(lib: Library, e: Event): Json
  {
    Obj(Present(ClientFields(lib, e)))
  }

  /** The same event but for its id, whatever order the dicts of its payload were filled in. */
  ghost predicate SameClientEvent(a: Event, b: Event)
  {
    Meaning(a.payload) == Meaning(b.payload) && a.(id := b.id, payload := b.payload) == b
  }

  lemma PayloadField(a: Value, b: Value)
    ensures SameOption(if a == Obj([]) then None else Some(a), if b == Obj([]) then None else Some(b))
       <==> Meaning(a) == Meaning(b)
  {
    if a.Obj? && b.Obj? && Meaning(a) == Meaning(b) {
      if a.members == [] {
        EmptyMeaning(b.members);
      }
      if b.members == [] {
        EmptyMeaning(a.members);
      }
    }
  }

  lemma TextField(a: string, b: string)
    ensures SameOption(Some(Str(a)), Some(Str(b))) <==> a == b
  {
  }

  lemma OptionField(a: Option<string>, b: Option<string>)
    ensures SameOption(TextOf(a), TextOf(b)) <==> a == b
  {
  }

  /** Field by field, equal dumps are equal events. */
  ghost predicate SameAtEach(f: seq<Field>, g: seq<Field>)
    requires |f| == |g| == 12
  {
    && SameOption(f[0].value, g[0].value) && SameOption(f[1].value, g[1].value) && SameOption(f[2].value, g[2].value)
    && SameOption(f[3].value, g[3].value) && SameOption(f[4].value, g[4].value) && SameOption(f[5].value, g[5].value)
    && SameOption(f[6].value, g[6].value) && SameOption(f[7].value, g[7].value) && SameOption(f[8].value, g[8].value)
    && SameOption(f[9].value, g[9].value) && SameOption(f[10].value, g[10].value) && SameOption(f[11].value, g[11].value)
  }

  lemma SameFields(lib: Library, a: Event, b: Event)
    requires FaithfulIso(lib)
    ensures (forall i :: 0 <= i < 12 ==> SameOption(ClientFields(lib, a)[i].value, ClientFields(lib, b)[i].value))
       <==> SameClientEvent(a, b)
  {
    var f, g := ClientFields(lib, a), ClientFields(lib, b);
    hide SameOption, ClientFields, SameAtEach, SameClientEvent;
    SameAtEachIs(lib, a, b);
    EachOfTwelve(f, g);
  }

  lemma EachOfTwelve(f: seq<Field>, g: seq<Field>)
    requires |f| == |g| == 12
    ensures (forall i :: 0 <= i < 12 ==> SameOption(f[i].value, g[i].value)) <==> SameAtEach(f, g)
  {
    hide SameOption;
  }

  /** The values of the twelve fields. */
  lemma FieldValues(lib: Library, e: Event)
    ensures var f := ClientFields(lib, e);
      && f[0].value == Some(Str(e.tenantId)) && f[1].value == Some(Str(e.agentId)) && f[2].value == Some(Str(e.traceId))
      && f[3].value == Some(Str(e.spanId)) && f[4].value == TextOf(e.parentSpanId) && f[5].value == Some(Str(e.kind))
      && f[6].value == Some(Str(lib.iso(e.occurredAt)))
      && f[7].value == (if e.payload == Obj([]) then None else Some(e.payload))
      && f[8].value == TextOf(e.reasoning) && f[9].value == TextOf(e.output)
      && f[10].value == TextOf(e.policyVersion) && f[11].value == TextOf(e.policyVerdict)
  {
    hide TextOf;
  }

  lemma SameAtEachIs(lib: Library, a: Event, b: Event)
    requires FaithfulIso(lib)
    ensures SameAtEach(ClientFields(lib, a), ClientFields(lib, b)) <==> SameClientEvent(a, b)
  {
    hide SameOption, TextOf, Meaning, ClientFields;
    FieldValues(lib, a);
    FieldValues(lib, b);
    TextField(a.tenantId, b.tenantId);
    TextField(a.agentId, b.agentId);
    TextField(a.traceId, b.traceId);
    TextField(a.spanId, b.spanId);
    OptionField(a.parentSpanId, b.parentSpanId);
    TextField(a.kind, b.kind);
    TextField(lib.iso(a.occurredAt), lib.iso(b.occurredAt));
    PayloadField(a.payload, b.payload);
    OptionField(a.reasoning, b.reasoning);
    OptionField(a.output, b.output);
    OptionField(a.policyVersion, b.policyVersion);
    OptionField(a.policyVerdict, b.policyVerdict);
  }

  /** The names a client body is hashed under. */
  lemma ClientBodyNames(lib: Library, e: Event)
    ensures var m := MeaningOfMembers(Present(ClientFields(lib, e)));
      && SaysText(m, "tenant_id", Some(e.tenantId)) && SaysText(m, "agent_id", Some(e.agentId))
      && SaysText(m, "trace_id", Some(e.traceId)) && SaysText(m, "span_id", Some(e.spanId))
      && SaysText(m, "parent_span_id", e.parentSpanId) && SaysText(m, "kind", Some(e.kind))
      && SaysText(m, "occurred_at", Some(lib.iso(e.occurredAt)))
      && ("payload" in m <==> e.payload != Obj([])) && (e.payload != Obj([]) ==> m["payload"] == Meaning(e.payload))
      && SaysText(m, "reasoning", e.reasoning) && SaysText(m, "output", e.output)
      && SaysText(m, "policy_version", e.policyVersion) && SaysText(m, "policy_verdict", e.policyVerdict)
  {
    hide MeaningOfMembers, Present;
    var fields := ClientFields(lib, e);
    ClientFieldsDistinct(lib, e);
    FieldSaid(fields, 0);
    FieldSaid(fields, 1);
    FieldSaid(fields, 2);
    FieldSaid(fields, 3);
    FieldSaid(fields, 4);
    FieldSaid(fields, 5);
    FieldSaid(fields, 6);
    FieldSaid(fields, 7);
    FieldSaid(fields, 8);
    FieldSaid(fields, 9);
    FieldSaid(fields, 10);
    FieldSaid(fields, 11);
  }

  predicate SaysText(m: map<string, Data>, key: string, text: Option<string>)
  {
    (key in m <==> text.Some?) && (text.Some? ==> m[key] == DStr(text.value))
  }

  lemma ClientBodyWellFormed(lib: Library, e: Event)
    ensures WellFormed(ClientBody(lib, e)) && (HasNull(ClientBody(lib, e)) <==> HasNull(e.payload))
  {
    hide WellFormed, HasNull, ClientFields, TextOf, Present, DistinctKeys;
    var fields := ClientFields(lib, e);
    ClientFieldsDistinct(lib, e);
    PresentDistinct(fields);
    PresentMembers(fields);
    FieldShapes(lib, e);
    BodyParts(fields, e.payload);
  }

  /** Every field but the payload is text, if anything. */
  lemma FieldShapes(lib: Library, e: Event)
    ensures var f := ClientFields(lib, e);
      && f[7] == Field("payload", if e.payload == Obj([]) then None else Some(e.payload))
      && forall i :: 0 <= i < 12 && i != 7 ==> f[i].value.None? || f[i].value.value.Str?
  {
  }

  lemma TextsAreFine()
    ensures forall s: string :: WellFormed(Str(s)) && !HasNull(Str(s))
  {
  }

  lemma BodyParts(fields: seq<Field>, payload: Value)
    requires DistinctKeys(Present(fields)) && |fields| == 12
    requires forall m :: m in Present(fields) <==> exists i :: 0 <= i < |fields| && fields[i] == Field(m.key, Some(m.value))
    requires forall i :: 0 <= i < 12 && i != 7 ==> fields[i].value.None? || fields[i].value.value.Str?
    requires fields[7] == Field("payload", if payload == Obj([]) then None else Some(payload))
    ensures WellFormed(Obj(Present(fields))) && (HasNull(Obj(Present(fields))) <==> HasNull(payload))
  {
    hide Present;
    TextsAreFine();
    var ms := Present(fields);
    forall m | m in ms ensures WellFormed(m.value) && (HasNull(m.value) ==> m.value == payload) {
      var i :| 0 <= i < |fields| && fields[i] == Field(m.key, Some(m.value));
    }
    if HasNull(payload) {
      var m := Member("payload", payload);
      assert fields[7] == Field(m.key, Some(m.value));
      assert m in ms;
    }
  }

  /**
    Two client bodies are hashed alike exactly when the events are the same but
    for their ids; or the two hashed texts collide. A null in the payload is the
    only thing that cannot be hashed.
   */
  lemma ClientHashDetermines(lib: Library, a: Event, b: Event)
    requires FaithfulIso(lib) && !HasNull(a.payload) && !HasNull(b.payload)
    ensures BodyHash(lib, ClientBody(lib, a)).Success? && BodyHash(lib, ClientBody(lib, b)).Success?
    ensures SameClientEvent(a, b) ==> BodyHash(lib, ClientBody(lib, a)) == BodyHash(lib, ClientBody(lib, b))
    ensures BodyHash(lib, ClientBody(lib, a)) == BodyHash(lib, ClientBody(lib, b)) ==>
              SameClientEvent(a, b)
              || Clash(lib, {Text(HashedValue(ClientBody(lib, a)))}, {Text(HashedValue(ClientBody(lib, b)))})
  {
    hide BodyHash, HashedValue, Text, Clash, Meaning, HasNull, WellFormed, SameClientEvent, FaithfulIso, Present;
    var f, g := ClientFields(lib, a), ClientFields(lib, b);
    ClientBodyWellFormed(lib, a);
    ClientBodyWellFormed(lib, b);
    ClientFieldsDistinct(lib, a);
    FieldsSameMeaning(f, g);
    SameFields(lib, a, b);
    BodyHashDetermines(lib, ClientBody(lib, a), ClientBody(lib, b));
  }

  // ----- The cache -----

  datatype Lookup = Nothing | Found(record: Record) | Conflict

  function LookupResult(records: Records, k: RecordKey, bodyHash: Hex64, now: Time): Lookup
  {
    if k !in records || records[k].expiresAt <= now then Nothing
    else if records[k].bodyHash != bodyHash then Conflict
    else Found(records[k])
  }

  /** An expired record is dropped by the lookup that meets it. */
  function AfterLookup(records: Records, k: RecordKey, now: Time): Records
  {
    if k in records && records[k].expiresAt <= now then records - {k} else records
  }

  function AfterStore(records: Records, k: RecordKey, record: Record): Records
  {
    if k in records then records else records[k := record]
  }

  /** A record that has not expired. */
  predicate Live(records: Records, k: RecordKey, now: Time)
  {
    k in records && now < records[k].expiresAt
  }

  class InMemoryIdempotencyStore {
    var records: Records

    constructor ()
      ensures records == map[]
    {
      records := map[];
    }

    method LookupOrClaim(k: RecordKey, bodyHash: Hex64, now: Time) returns (found: Lookup)
      modifies this
      ensures found == LookupResult(old(records), k, bodyHash, now) && records == AfterLookup(old(records), k, now)
      ensures found == Nothing <==> !Live(old(records), k, now)
      ensures Live(old(records), k, now) ==>
                found == if old(records)[k].bodyHash == bodyHash then Found(old(records)[k]) else Conflict
      ensures records == if k in old(records) && old(records)[k].expiresAt <= now then old(records) - {k} else old(records)
    {
      if k !in records {
        return Nothing;
      }
      var existing := records[k];
      if existing.expiresAt <= now {
        records := records - {k};
        return Nothing;
      }
      if existing.bodyHash != bodyHash {
        return Conflict;
      }
      return Found(existing);
    }

    method StoreResponse(k: RecordKey, bodyHash: Hex64, status: nat, response: Response, now: Time)
      modifies this
      ensures records == AfterStore(old(records), k, Record(bodyHash, status, response, now, now + DEFAULT_TTL))
      ensures k in old(records) ==> records == old(records)
      ensures k !in old(records) ==>
                records == old(records)[k := Record(bodyHash, status, response, now, now + 86_400_000_000)]
    {
      var record := Record(bodyHash, status, response, now, now + DEFAULT_TTL);
      if k !in records {
        records := records[k := record];
      }
    }
  }

  // ----- One request -----

  datatype State = State(db: Db, records: Records)

  datatype Handled = Handled(state: State, reply: Reply)

  function ResponseOf(i: Inputs, receipt: Receipt, persistedAt: Time): Response
  {
    Response(i.event.id, i.receiptId, i.snapshotId, receipt.receiptHash, true, persistedAt)
  }

  /** 422 for what the service raises itself, 500 for what it lets through. */
  function StatusOf(e: IngestError): nat
  {
    match e
    case EnforcementFailed => 422
    case BundleDrift => 422
    case _ => 500
  }

  /** The fresh ingest path, storing under `k` when there is a key. */
  function IngestFresh(lib: Library, s: State, p: Post, k: Option<(RecordKey, Hex64)>): Handled
  {
    var out := IngestOnce(lib, s.db, p.inputs);
    match out.receipt
    case Failure(e) => Handled(s, Refused(StatusOf(e)))
    case Success(receipt) =>
      var response := ResponseOf(p.inputs, receipt, p.persistedAt);
      var records := match k
        case None => s.records
        case Some((key, bodyHash)) =>
          AfterStore(s.records, key, Record(bodyHash, 201, response, p.storeAt, p.storeAt + DEFAULT_TTL));
      Handled(State(out.db, records), Created(response, false))
  }

  /** `submit_event` */
  function Submit(lib: Library, s: State, p: Post): Handled
  {
    var event := p.inputs.event;
    if event.tenantId != p.principalTenant || event.agentId != p.principalAgent then Handled(s, Refused(403))
    else if p.key.None? then IngestFresh(lib, s, p, None)
    else if !IsValidKey(p.key.value) then Handled(s, Refused(400))
    else match BodyHash(lib, ClientBody(lib, event))
      case Failure(_) => Handled(s, Refused(500))
      case Success(bodyHash) =>
        var k := RecordKey(event.tenantId, p.key.value);
        match LookupResult(s.records, k, bodyHash, p.lookupAt)
        case Conflict => Handled(s, Refused(409))
        case Found(record) => Handled(s, Created(record.response, true))
        case Nothing => IngestFresh(lib, s.(records := AfterLookup(s.records, k, p.lookupAt)), p, Some((k, bodyHash)))
  }

  // ----- What each answer means -----

  /** The caller speaks for the tenant and the agent its event names. */
  predicate OwnEvent(p: Post)
  {
    p.inputs.event.tenantId == p.principalTenant && p.inputs.event.agentId == p.principalAgent
  }

  /** What the cache holds for a request whose body hashes to `bodyHash`. */
  ghost predicate Cached(s: State, p: Post, bodyHash: Hex64, same: bool)
    requires p.key.Some?
  {
    var k := RecordKey(p.inputs.event.tenantId, p.key.value);
    Live(s.records, k, p.lookupAt) && (s.records[k].bodyHash == bodyHash <==> same)
  }

  /** The request gets as far as ingest: its own event, and no key, or a well-formed one with nothing live under it. */
  ghost predicate ReachesIngest(lib: Library, s: State, p: Post)
  {
    && OwnEvent(p)
    && (p.key.Some? ==>
          && IsValidKey(p.key.value) && BodyHash(lib, ClientBody(lib, p.inputs.event)).Success?
          && !Live(s.records, RecordKey(p.inputs.event.tenantId, p.key.value), p.lookupAt))
  }

  /**
    Nobody acts for another: a request is refused with 403 exactly when its event
    names another tenant or agent than its principal, and then nothing has changed.
   */
  lemma ForeignEventsAreRefused(lib: Library, s: State, p: Post)
    ensures Submit(lib, s, p).reply == Refused(403)
       <==> p.inputs.event.tenantId != p.principalTenant || p.inputs.event.agentId != p.principalAgent
    ensures Submit(lib, s, p).reply == Refused(403) ==> Submit(lib, s, p).state == s
  {
    hide IsValidKey, BodyHash, IngestOnce, ClientBody;
  }

  /** Exactly which requests are refused before ingest, and which are answered from the cache. */
  lemma AnswersBeforeIngest(lib: Library, s: State, p: Post)
    ensures var out := Submit(lib, s, p);
            var hash := BodyHash(lib, ClientBody(lib, p.inputs.event));
      && (out.reply == Refused(400) <==> OwnEvent(p) && p.key.Some? && !IsValidKey(p.key.value))
      && (OwnEvent(p) && p.key.Some? && IsValidKey(p.key.value) && hash.Failure? ==> out == Handled(s, Refused(500)))
      && (out.reply == Refused(409) <==>
            OwnEvent(p) && p.key.Some? && IsValidKey(p.key.value) && hash.Success? && Cached(s, p, hash.value, false))
      && (out.reply.Created? && out.reply.replayed <==>
            OwnEvent(p) && p.key.Some? && IsValidKey(p.key.value) && hash.Success? && Cached(s, p, hash.value, true))
      && (out.reply == Refused(400) || out.reply == Refused(409) ==> out.state == s)
      && (out.reply.Created? && out.reply.replayed ==>
            out.state == s && out.reply.response == s.records[RecordKey(p.inputs.event.tenantId, p.key.value)].response)
  {
    hide IsValidKey, BodyHash, IngestOnce, ClientBody;
  }

  /**
    Exactly which requests create a receipt: those that reach ingest when ingest
    succeeds. The answer then names the three new rows, and under a key it is kept
    for 24 hours.
   */
  lemma CreatesExactlyWhenIngested(lib: Library, s: State, p: Post)
    ensures var out := Submit(lib, s, p);
            var ingested := IngestOnce(lib, s.db, p.inputs);
      && (out.reply.Created? && !out.reply.replayed <==> ReachesIngest(lib, s, p) && ingested.receipt.Success?)
      && (out.reply.Created? && !out.reply.replayed ==>
            && out.state.db == ingested.db
            && out.reply.response == Response(p.inputs.event.id, p.inputs.receiptId, p.inputs.snapshotId,
                                              ingested.receipt.value.receiptHash, true, p.persistedAt)
            && (p.key.None? ==> out.state.records == s.records)
            && (p.key.Some? ==>
                  out.state.records == s.records[RecordKey(p.inputs.event.tenantId, p.key.value) :=
                    Record(BodyHash(lib, ClientBody(lib, p.inputs.event)).value, 201, out.reply.response, p.storeAt,
                           p.storeAt + 86_400_000_000)]))
      && (!(out.reply.Created? && !out.reply.replayed) && ReachesIngest(lib, s, p) ==>
            out.reply == Refused(if ingested.receipt.error == EnforcementFailed || ingested.receipt.error == BundleDrift then 422 else 500))
  {
    hide IsValidKey, BodyHash, IngestOnce, ClientBody;
  }

  /** On sound tables: when everything ingest needs is there, a request that reaches it is created, up to a collision. */
  lemma ReadyMeansCreated(lib: Library, s: State, p: Post)
    requires Sound(lib, s.db)
    ensures var reply := Submit(lib, s, p).reply;
      && (reply.Created? && !reply.replayed ==> ReachesIngest(lib, s, p) && Ready(lib, s.db, p.inputs))
      && (ReachesIngest(lib, s, p) && Ready(lib, s.db, p.inputs) ==>
            (reply.Created? && !reply.replayed) || HashCollides(lib, s.db, p.inputs))
  {
    hide Sound, Ready, HashCollides, ReachesIngest, IngestOnce, Submit, Live;
    CreatesExactlyWhenIngested(lib, s, p);
    IngestSucceedsIff(lib, s.db, p.inputs);
  }

  /** The route over the two stores. */
  method SubmitEvent(lib: Library, ledger: Store, cache: InMemoryIdempotencyStore, p: Post) returns (reply: Reply)
    requires Sound(lib, ledger.State())
    modifies ledger, cache
    ensures Sound(lib, ledger.State())
    ensures var out := Submit(lib, State(old(ledger.State()), old(cache.records)), p);
            ledger.State() == out.state.db && cache.records == out.state.records && reply == out.reply
    ensures reply == Refused(403) <==>
              p.inputs.event.tenantId != p.principalTenant || p.inputs.event.agentId != p.principalAgent
    ensures reply == Refused(403) ==> ledger.State() == old(ledger.State()) && cache.records == old(cache.records)
  {
    hide Sound, IngestOnce, Recorded, Chain, IsValidKey, BodyHash, ClientBody;
    ForeignEventsAreRefused(lib, State(ledger.State(), cache.records), p);
    var event := p.inputs.event;
    if event.tenantId != p.principalTenant {
      return Refused(403);
    }
    if event.agentId != p.principalAgent {
      return Refused(403);
    }
    var claim: Option<(RecordKey, Hex64)> := None;
    if p.key.Some? {
      if !IsValidKey(p.key.value) {
        return Refused(400);
      }
      var hashed := BodyHash(lib, ClientBody(lib, event));
      if hashed.Failure? {
        return Refused(500);
      }
      var k := RecordKey(event.tenantId, p.key.value);
      var found := cache.LookupOrClaim(k, hashed.value, p.lookupAt);
      if found.Conflict? {
        return Refused(409);
      }
      if found.Found? {
        return Created(found.record.response, true);
      }
      claim := Some((k, hashed.value));
    }
    var result := ledger.IngestEvent(lib, p.inputs);
    if result.Failure? {
      return Refused(StatusOf(result.error));
    }
    var r := result.value;
    var response := Response(r.eventId, r.receiptId, r.snapshotId, r.receiptHash, r.integrityOk, p.persistedAt);
    if claim.Some? {
      cache.StoreResponse(claim.value.0, claim.value.1, 201, response, p.storeAt);
    }
    return Created(response, false);
  }

  // ----- Retries -----

  function Run(lib: Library, s: State, posts: seq<Post>): State
  {
    if posts == [] then s else Submit(lib, Run(lib, s, posts[..|posts| - 1]), posts[|posts| - 1]).state
  }

  /** A request under the same tenant and key, by whoever may send it. */
  predicate Retries(q: Post, first: Post)
  {
    && q.inputs.event.tenantId == q.principalTenant && q.inputs.event.agentId == q.principalAgent
    && q.inputs.event.tenantId == first.inputs.event.tenantId
    && first.key.Some? && IsValidKey(first.key.value) && q.key == first.key
  }

  /** The hash of a request's client body. */
  function PostHash(lib: Library, p: Post): Result<Hex64, EncodingError>
  {
    BodyHash(lib, ClientBody(lib, p.inputs.event))
  }

  function KeyOf(p: Post): RecordKey
    requires p.key.Some?
  {
    RecordKey(p.inputs.event.tenantId, p.key.value)
  }

  /** A first success under a key leaves its record behind. */
  lemma SuccessIsRecorded(lib: Library, s: State, first: Post)
    requires first.key.Some? && Submit(lib, s, first).reply.Created? && !Submit(lib, s, first).reply.replayed
    ensures var out := Submit(lib, s, first);
      && IsValidKey(first.key.value) && PostHash(lib, first).Success?
      && KeyOf(first) in out.state.records
      && out.state.records[KeyOf(first)]
           == Record(PostHash(lib, first).value, 201, out.reply.response, first.storeAt, first.storeAt + DEFAULT_TTL)
      && IngestOnce(lib, s.db, first.inputs).receipt.Success?
      && out.state.db == IngestOnce(lib, s.db, first.inputs).db
      && out.reply.response == ResponseOf(first.inputs, IngestOnce(lib, s.db, first.inputs).receipt.value, first.persistedAt)
  {
    hide IsValidKey, BodyHash, IngestOnce, ClientBody;
  }

  /** Until it expires, a record is neither dropped nor replaced by any request. */
  lemma RecordSurvives(lib: Library, s: State, p: Post, k: RecordKey)
    requires k in s.records && p.lookupAt < s.records[k].expiresAt
    ensures var s' := Submit(lib, s, p).state; k in s'.records && s'.records[k] == s.records[k]
  {
    hide IsValidKey, BodyHash, IngestOnce, ClientBody;
  }

  lemma {:induction false} RecordSurvivesRun(lib: Library, s: State, posts: seq<Post>, k: RecordKey)
    requires k in s.records
    requires forall i :: 0 <= i < |posts| ==> posts[i].lookupAt < s.records[k].expiresAt
    ensures k in Run(lib, s, posts).records && Run(lib, s, posts).records[k] == s.records[k]
    decreases |posts|
  {
    hide Submit;
    if posts != [] {
      var n := |posts| - 1;
      RecordSurvivesRun(lib, s, posts[..n], k);
      RecordSurvives(lib, Run(lib, s, posts[..n]), posts[n], k);
    }
  }

  /** What a retry meets while the record lives. */
  lemma RetryMeetsRecord(lib: Library, s: State, q: Post, first: Post, record: Record)
    requires Retries(q, first) && KeyOf(first) in s.records && s.records[KeyOf(first)] == record
    requires q.lookupAt < record.expiresAt && PostHash(lib, q).Success?
    ensures var out := Submit(lib, s, q);
      && out.state == s
      && out.reply == if PostHash(lib, q).value == record.bodyHash then Created(record.response, true) else Refused(409)
  {
    hide IsValidKey, BodyHash, IngestOnce, ClientBody;
  }

  /**
    After the first success under a key, and until its record expires, every
    retry changes nothing at all: with the same client body it gets the first
    response, with a body of another hash a conflict. Requests under other keys
    may come in between.
   */
  lemma {:induction false} RetriesGetTheFirstResponse(lib: Library, s: State, first: Post, later: seq<Post>, i: nat)
    requires first.key.Some? && Submit(lib, s, first).reply.Created? && !Submit(lib, s, first).reply.replayed
    requires forall j :: 0 <= j < |later| ==> later[j].lookupAt < first.storeAt + DEFAULT_TTL
    requires i < |later| && Retries(later[i], first) && PostHash(lib, later[i]).Success?
    ensures var before := Run(lib, Submit(lib, s, first).state, later[..i]);
            var out := Submit(lib, before, later[i]);
      && out.state == before
      && out.reply == if PostHash(lib, later[i]) == PostHash(lib, first)
                      then Created(Submit(lib, s, first).reply.response, true) else Refused(409)
  {
    hide Submit, Run, Retries, PostHash, IngestOnce, IsValidKey;
    SuccessIsRecorded(lib, s, first);
    var after := Submit(lib, s, first).state;
    RecordSurvivesRun(lib, after, later[..i], KeyOf(first));
    RetryMeetsRecord(lib, Run(lib, after, later[..i]), later[i], first, after.records[KeyOf(first)]);
  }

  /** The receipt one request adds to a tenant's chain, if any. */
  function NewRow(lib: Library, s: State, p: Post, tenantId: Uuid): seq<ReceiptRow>
  {
    var reply := Submit(lib, s, p).reply;
    match IngestOnce(lib, s.db, p.inputs).receipt
    case Failure(_) => []
    case Success(receipt) =>
      if reply.Created? && !reply.replayed && p.inputs.event.tenantId == tenantId
      then [ReceiptRow(receipt, p.inputs.snapshotId)] else []
  }

  /** The receipts a run adds through requests that are not retries of `first`. */
  function OtherRows(lib: Library, s: State, posts: seq<Post>, first: Post, tenantId: Uuid): seq<ReceiptRow>
  {
    if posts == [] then []
    else
      var n := |posts| - 1;
      OtherRows(lib, s, posts[..n], first, tenantId)
      + if Retries(posts[n], first) then [] else NewRow(lib, Run(lib, s, posts[..n]), posts[n], tenantId)
  }

  /** Any request adds at most its own receipt, at the head of its tenant's chain. */
  lemma SubmitExtendsChain(lib: Library, s: State, p: Post, tenantId: Uuid)
    requires Sound(lib, s.db)
    ensures Sound(lib, Submit(lib, s, p).state.db)
    ensures Chain(Submit(lib, s, p).state.db.receipts, tenantId) == Chain(s.db.receipts, tenantId) + NewRow(lib, s, p, tenantId)
  {
    hide IsValidKey, BodyHash, ClientBody, Sound, IngestOnce, Recorded, VerdictBinds, Chain;
    IngestExtendsChain(lib, s.db, p.inputs, tenantId);
  }

  /** A retry met by the record adds nothing, even when its own body cannot be hashed. */
  lemma RetryAddsNothing(lib: Library, s: State, q: Post, first: Post, tenantId: Uuid)
    requires Retries(q, first) && KeyOf(first) in s.records && q.lookupAt < s.records[KeyOf(first)].expiresAt
    ensures Submit(lib, s, q).state.db == s.db && NewRow(lib, s, q, tenantId) == []
  {
    hide IsValidKey, BodyHash, ClientBody, IngestOnce;
  }

  lemma {:induction false} RunAddsOtherRows(lib: Library, s: State, first: Post, posts: seq<Post>, tenantId: Uuid)
    requires Sound(lib, s.db) && first.key.Some? && KeyOf(first) in s.records
    requires forall i :: 0 <= i < |posts| ==> posts[i].lookupAt < s.records[KeyOf(first)].expiresAt
    ensures Sound(lib, Run(lib, s, posts).db)
    ensures Chain(Run(lib, s, posts).db.receipts, tenantId)
         == Chain(s.db.receipts, tenantId) + OtherRows(lib, s, posts, first, tenantId)
    decreases |posts|
  {
    hide Submit, Chain, NewRow, Retries, Sound;
    if posts != [] {
      var n := |posts| - 1;
      RunAddsOtherRows(lib, s, first, posts[..n], tenantId);
      RecordSurvivesRun(lib, s, posts[..n], KeyOf(first));
      var before := Run(lib, s, posts[..n]);
      SubmitExtendsChain(lib, before, posts[n], tenantId);
      if Retries(posts[n], first) {
        RetryAddsNothing(lib, before, posts[n], first, tenantId);
      }
    }
  }

  /**
    Over any run in which a first success under a key is followed by retries of it
    and by anything else, until the record expires: each tenant's chain grows by
    that first receipt and by those of the requests that are not retries, and by
    nothing more.
   */
  lemma {:induction false} OneReceiptPerKey(lib: Library, s: State, first: Post, later: seq<Post>, tenantId: Uuid)
    requires Sound(lib, s.db)
    requires first.key.Some? && Submit(lib, s, first).reply.Created? && !Submit(lib, s, first).reply.replayed
    requires forall j :: 0 <= j < |later| ==> later[j].lookupAt < first.storeAt + DEFAULT_TTL
    ensures var after := Submit(lib, s, first).state;
            var receipt := IngestOnce(lib, s.db, first.inputs).receipt;
      && receipt.Success? && Submit(lib, s, first).reply.response.receiptHash == receipt.value.receiptHash
      && Sound(lib, Run(lib, after, later).db)
      && Chain(Run(lib, after, later).db.receipts, tenantId)
           == Chain(s.db.receipts, tenantId)
              + (if first.inputs.event.tenantId == tenantId then [ReceiptRow(receipt.value, first.inputs.snapshotId)] else [])
              + OtherRows(lib, after, later, first, tenantId)
  {
    hide Submit, Run, IngestOnce, Sound, Chain, OtherRows, PostHash, IsValidKey;
    SuccessIsRecorded(lib, s, first);
    SubmitExtendsChain(lib, s, first, tenantId);
    RunAddsOtherRows(lib, Submit(lib, s, first).state, first, later, tenantId);
  }

  /** The receipts a run adds through the requests of one tenant's own principals. */
  function OwnRows(lib: Library, s: State, posts: seq<Post>, tenantId: Uuid): seq<ReceiptRow>
  {
    if posts == [] then []
    else
      var n := |posts| - 1;
      OwnRows(lib, s, posts[..n], tenantId)
      + if posts[n].principalTenant == tenantId then NewRow(lib, Run(lib, s, posts[..n]), posts[n], tenantId) else []
  }

  /** A principal of another tenant adds nothing to this one's chain. */
  lemma ForeignPrincipalAddsNothing(lib: Library, s: State, p: Post, tenantId: Uuid)
    requires p.principalTenant != tenantId
    ensures NewRow(lib, s, p, tenantId) == []
  {
    hide IngestOnce, IsValidKey, BodyHash, ClientBody;
  }

  /**
    Over any run of any requests, a tenant's chain grows only by receipts of
    requests whose principal is that tenant's: with no such request it does not
    grow at all.
   */
  lemma {:induction false} ChainGrowsByOwnPrincipals(lib: Library, s: State, posts: seq<Post>, tenantId: Uuid)
    requires Sound(lib, s.db)
    ensures Sound(lib, Run(lib, s, posts).db)
    ensures Chain(Run(lib, s, posts).db.receipts, tenantId) == Chain(s.db.receipts, tenantId) + OwnRows(lib, s, posts, tenantId)
    ensures (forall p | p in posts :: p.principalTenant != tenantId) ==> OwnRows(lib, s, posts, tenantId) == []
    decreases |posts|
  {
    hide Submit, Chain, NewRow, Sound;
    if posts != [] {
      var n := |posts| - 1;
      assert posts == posts[..n] + [posts[n]];
      ChainGrowsByOwnPrincipals(lib, s, posts[..n], tenantId);
      SubmitExtendsChain(lib, Run(lib, s, posts[..n]), posts[n], tenantId);
      if posts[n].principalTenant != tenantId {
        ForeignPrincipalAddsNothing(lib, Run(lib, s, posts[..n]), posts[n], tenantId);
      }
    }
  }

  /** A refused request leaves the ledger alone and drops at most its own expired record. */
  lemma RefusalsChangeNothing(lib: Library, s: State, p: Post)
    requires Sound(lib, s.db) && Submit(lib, s, p).reply.Refused?
    ensures Submit(lib, s, p).state.db == s.db
    ensures forall k :: k in s.records && p.lookupAt < s.records[k].expiresAt ==>
              k in Submit(lib, s, p).state.records && Submit(lib, s, p).state.records[k] == s.records[k]
    ensures forall k :: k in Submit(lib, s, p).state.records ==> k in s.records
  {
    hide IsValidKey, BodyHash, Sound, IngestOnce, Recorded, VerdictBinds, Chain;
    IngestExtendsChain(lib, s.db, p.inputs, p.inputs.event.tenantId);
  }

  /** Once expired, the key starts afresh: the request is handled as if the record were not there. */
  lemma ExpiredKeyStartsAfresh(lib: Library, s: State, q: Post)
    requires q.key.Some? && KeyOf(q) in s.records && s.records[KeyOf(q)].expiresAt <= q.lookupAt
    requires Submit(lib, s, q).reply.Created?
    ensures var without := s.(records := s.records - {KeyOf(q)});
            Submit(lib, s, q) == Submit(lib, without, q) && !Submit(lib, s, q).reply.replayed
  {
    hide IsValidKey, BodyHash, IngestOnce, ClientBody;
  }
}
