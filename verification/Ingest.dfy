/**
  One POST of an event, start to finish (apps/api/ingest_service.py,
  packages/policy/snapshot.py), inside the session that commits it or rolls it
  back (packages/ledger/session.py).
 */
module Ingest {
  import opened Wrappers
  import opened Bytes
  import opened CanonicalJson
  import opened Primitives
  import opened Receipts
  import opened Ledger

  datatype PolicyBundle = PolicyBundle(id: Uuid, version: string, content: Json, contentHash: Hex64)

  datatype Verdict = Verdict(bundleId: Uuid, contentHash: Hex64, decision: string, reason: string)

  datatype IngestError =
    | EnforcementFailed | BundleDrift | SnapshotMismatch | ContentHasNone | BuildFailed(b: BuildError) | WriteFailed(w: WriteError)

  /** What the providers, the clock and `uuid4` hand to one call; an absent verdict is a gateway that raised. */
  datatype Inputs = Inputs(
    event: Event, bundle: PolicyBundle, verdict: Option<Verdict>, snapshotId: Uuid, receiptId: Uuid,
    tenantKey: ByteString, agentKey: Option<ByteString>, capturedAt: Time, now: Time)

  datatype IngestResult = IngestResult(
    eventId: Uuid, receiptId: Uuid, snapshotId: Uuid, receiptHash: Hex64, integrityOk: bool)

  /** `capture_snapshot`: bundle and verdict agree, and the bundle's hash is the hash of its content. */
  function CaptureSnapshot(lib: Library, bundle: PolicyBundle, verdict: Verdict, now: Time)
    : Result<PolicySnapshot, IngestError>
  {
    if bundle.id != verdict.bundleId || bundle.contentHash != verdict.contentHash then Failure(SnapshotMismatch)
    else match Sha256Hex(lib, bundle.content)
      case Failure(_) => Failure(ContentHasNone)
      case Success(recomputed) =>
        if recomputed != bundle.contentHash then Failure(SnapshotMismatch)
        else Success(PolicySnapshot(
          bundle.id, bundle.version, bundle.contentHash, now, verdict.decision, verdict.reason))
  }

  /** The request a call turns into once its verdict is captured. */
  function RequestOf(lib: Library, i: Inputs): Result<Request, IngestError>
  {
    if i.verdict.None? then Failure(EnforcementFailed)
    else if i.verdict.value.bundleId != i.bundle.id then Failure(BundleDrift)
    else match CaptureSnapshot(lib, i.bundle, i.verdict.value, i.capturedAt)
      case Failure(e) => Failure(e)
      case Success(snapshot) =>
        Success(Request(i.event, snapshot, i.snapshotId, i.receiptId, i.tenantKey, i.agentKey))
  }

  /** The rows and the receipt after one undisturbed call; a failure commits nothing. */
  datatype Outcome = Outcome(db: Db, receipt: Result<Receipt, IngestError>)

  function IngestOnce(lib: Library, db: Db, i: Inputs): Outcome
  {
    match RequestOf(lib, i)
    case Failure(e) => Outcome(db, Failure(e))
    case Success(req) =>
      match BuildFor(lib, req, HeadReceipt(db, i.event.tenantId), i.now)
      case Failure(e) => Outcome(db, Failure(BuildFailed(e)))
      case Success(receipt) =>
        match Write(db, i.event, req.snapshot, receipt, i.snapshotId)
        case Failure(e) => Outcome(db, Failure(WriteFailed(e)))
        case Success(db') => Outcome(db', Success(receipt))
  }

  /** The bundle vouched for by the verdict and by its own content hash. */
  ghost predicate VerdictBinds(lib: Library, i: Inputs)
  {
    && i.verdict.Some? && i.verdict.value.bundleId == i.bundle.id
    && i.verdict.value.contentHash == i.bundle.contentHash
    && Sha256Hex(lib, i.bundle.content) == Success(i.bundle.contentHash)
  }

  /** The three rows one successful call adds, seen from the tables. */
  ghost predicate Recorded(lib: Library, db: Db, db': Db, i: Inputs, r: Receipt)
  {
    && i.verdict.Some? && db'.known == db.known
    && db'.events == db.events + [i.event]
    && db'.snapshots == db.snapshots + [SnapshotRow(i.snapshotId, i.event.tenantId, PolicySnapshot(
         i.bundle.id, i.bundle.version, i.bundle.contentHash, i.capturedAt,
         i.verdict.value.decision, i.verdict.value.reason))]
    && db'.receipts == db.receipts + [ReceiptRow(r, i.snapshotId)]
    && r.eventId == i.event.id && r.tenantId == i.event.tenantId && r.policyBundleId == i.bundle.id
    && Sha256Hex(lib, i.event.payload) == Success(r.payloadHash)
    && r.id == i.receiptId && r.signedAt == i.now
    && r.signature == lib.sign(i.tenantKey, r.receiptHash)
    && r.agentSignature == (if i.agentKey.Some? then Some(lib.sign(i.agentKey.value, r.receiptHash)) else None)
  }

  lemma BuildSigns(lib: Library, req: Request, head: Option<Receipt>, now: Time)
    requires BuildFor(lib, req, head, now).Success?
    ensures var r := BuildFor(lib, req, head, now).value;
      && r.signature == lib.sign(req.tenantKey, r.receiptHash)
      && r.agentSignature == (if req.agentKey.Some? then Some(lib.sign(req.agentKey.value, r.receiptHash)) else None)
  {
    hide Bind;
  }

  lemma HeadStandsReady(lib: Library, db: Db, req: Request, now: Time)
    requires Sound(lib, db) && BuildFor(lib, req, HeadReceipt(db, req.event.tenantId), now).Success?
    ensures StandsOn(lib, db, req, BuildFor(lib, req, HeadReceipt(db, req.event.tenantId), now).value, false)
  {
    hide BuildFor, Sound, StandsOn, HeadReceipt;
    var s := System(db, map[], now);
    var head := HeadReceipt(db, req.event.tenantId);
    ReadHeadOk(lib, s, req, false);
    BuildStandsOn(lib, s, req, head, false);
    assert ProcessOk(lib, s, Built(req, BuildFor(lib, req, head, now).value), false);
  }

  /** A receipt built on the head as it stands is the next of its chain. */
  lemma FreshHeadIsNext(lib: Library, db: Db, req: Request, now: Time)
    requires Sound(lib, db) && BuildFor(lib, req, HeadReceipt(db, req.event.tenantId), now).Success?
    ensures var r := BuildFor(lib, req, HeadReceipt(db, req.event.tenantId), now).value;
            var chain := Chain(db.receipts, req.event.tenantId);
            r.sequence == |chain| && r.prevReceiptHash == HeadHash(chain)
  {
    hide Chain, ValidChain, Accounted, Latest, BuildReceipt, Consistent, Sha256Hex;
    var tenantId := req.event.tenantId;
    var chain := Chain(db.receipts, tenantId);
    LatestIsLast(lib, db.receipts, tenantId);
    if chain != [] {
      ChainAt(lib, chain, |chain| - 1);
    }
    BuiltReceipt(lib, tenantId, req.event.id, req.event.payload, req.snapshot, req.snapshotId,
                 HeadReceipt(db, tenantId), req.tenantKey, req.agentKey, req.receiptId, now);
  }

  /** On sound tables the head always belongs to the tenant asked for. */
  lemma HeadIsOwn(db: Db, tenantId: Uuid)
    ensures HeadReceipt(db, tenantId).Some? ==> HeadReceipt(db, tenantId).value.tenantId == tenantId
  {
    LatestIsHighest(db.receipts, tenantId);
  }

  /** Once the verdict binds and the payload can be hashed, building cannot fail. */
  lemma BuildSucceedsIff(lib: Library, db: Db, req: Request, now: Time)
    ensures BuildFor(lib, req, HeadReceipt(db, req.event.tenantId), now).Success?
       <==> req.event.payload.Obj? && !HasNull(req.event.payload)
  {
    hide BuildReceipt, HeadReceipt;
    HeadIsOwn(db, req.event.tenantId);
    BuiltReceipt(lib, req.event.tenantId, req.event.id, req.event.payload, req.snapshot, req.snapshotId,
                 HeadReceipt(db, req.event.tenantId), req.tenantKey, req.agentKey, req.receiptId, now);
  }

  /**
    One undisturbed call on sound tables adds exactly the three rows of its
    event at the head of its tenant's chain, and leaves every other chain alone.
   */
  lemma {:induction false} IngestExtendsChain(lib: Library, db: Db, i: Inputs, t: Uuid)
    requires Sound(lib, db)
    ensures var out := IngestOnce(lib, db, i);
      && Sound(lib, out.db)
      && (out.receipt.Failure? ==> out.db == db)
      && (out.receipt.Success? ==>
            && VerdictBinds(lib, i) && Recorded(lib, db, out.db, i, out.receipt.value)
            && Chain(out.db.receipts, t) == Chain(db.receipts, t)
                 + if t == i.event.tenantId then [ReceiptRow(out.receipt.value, i.snapshotId)] else [])
  {
    hide Sound, StandsOn, Chain, FreshIds, SequenceFree, HashFree, BuildFor, HeadReceipt;
    var out := IngestOnce(lib, db, i);
    if out.receipt.Success? {
      var req := RequestOf(lib, i).value;
      var r := out.receipt.value;
      HeadStandsReady(lib, db, req, i.now);
      WriteKeepsSound(lib, db, req, r, false, i.now);
      BuildSigns(lib, req, HeadReceipt(db, i.event.tenantId), i.now);
      BuiltBinds(lib, req, HeadReceipt(db, i.event.tenantId), i.now);
      ChainAppend(db.receipts, ReceiptRow(r, i.snapshotId), t);
    }
  }

  lemma BuiltBinds(lib: Library, req: Request, head: Option<Receipt>, now: Time)
    requires BuildFor(lib, req, head, now).Success?
    ensures var r := BuildFor(lib, req, head, now).value;
      && r.eventId == req.event.id && r.tenantId == req.event.tenantId
      && r.policyBundleId == req.snapshot.policyBundleId
      && Sha256Hex(lib, req.event.payload) == Success(r.payloadHash)
      && r.id == req.receiptId && r.signedAt == now && Consistent(lib, ReceiptRow(r, req.snapshotId))
  {
    hide BuildReceipt, Consistent;
    BuiltReceipt(lib, req.event.tenantId, req.event.id, req.event.payload, req.snapshot, req.snapshotId, head,
                 req.tenantKey, req.agentKey, req.receiptId, now);
  }

  /** Everything a call needs: a verdict that binds the bundle, a payload that can be hashed, known references, new ids. */
  ghost predicate Ready(lib: Library, db: Db, i: Inputs)
  {
    && VerdictBinds(lib, i) && i.event.payload.Obj? && !HasNull(i.event.payload)
    && ReferencesHold(db, i.event, i.bundle.id)
    && (forall s | s in db.snapshots :: s.id != i.snapshotId)
    && (forall e | e in db.events :: e.id != i.event.id)
    && (forall row | row in db.receipts :: row.receipt.id != i.receiptId)
  }

  /** Which error a call ends with, in the order the checks are made. */
  lemma FailsAtTheFirstCheck(lib: Library, db: Db, i: Inputs)
    ensures var r := IngestOnce(lib, db, i).receipt;
            var answered := i.verdict.Some?;
            var current := answered && i.verdict.value.bundleId == i.bundle.id;
      && (r == Failure(EnforcementFailed) <==> !answered)
      && (r == Failure(BundleDrift) <==> answered && !current)
      && (r == Failure(SnapshotMismatch) || r == Failure(ContentHasNone) <==> current && !VerdictBinds(lib, i))
      && (r == Failure(BuildFailed(PayloadNotADict)) <==> VerdictBinds(lib, i) && !i.event.payload.Obj?)
      && (r == Failure(BuildFailed(PayloadHasNone)) <==> VerdictBinds(lib, i) && i.event.payload.Obj? && HasNull(i.event.payload))
      && (r.Failure? && r.error.WriteFailed? ==> r.error.w == IntegrityError)
      && r != Failure(BuildFailed(ForeignPredecessor))
  {
    hide BuildReceipt, HeadReceipt, FreshIds, SequenceFree, HashFree, ReferencesHold;
    if RequestOf(lib, i).Success? {
      var req := RequestOf(lib, i).value;
      var head := HeadReceipt(db, i.event.tenantId);
      HeadIsOwn(db, i.event.tenantId);
      BuiltReceipt(lib, i.event.tenantId, i.event.id, i.event.payload, req.snapshot, i.snapshotId, head, i.tenantKey,
                   i.agentKey, i.receiptId, i.now);
    }
  }

  /** Its receipt hash is taken by a stored receipt with another bound text. */
  ghost predicate HashCollides(lib: Library, db: Db, i: Inputs)
  {
    exists r :: RequestOf(lib, i).Success?
                && BuildFor(lib, RequestOf(lib, i).value, HeadReceipt(db, i.event.tenantId), i.now) == Success(r)
                && HashTakenByClash(lib, db, ReceiptRow(r, i.snapshotId))
  }

  /** Exactly when an undisturbed call succeeds: when it is ready, unless its receipt hash collides. */
  lemma {:induction false} IngestSucceedsIff(lib: Library, db: Db, i: Inputs)
    requires Sound(lib, db)
    ensures IngestOnce(lib, db, i).receipt.Success? ==> Ready(lib, db, i)
    ensures Ready(lib, db, i) ==> IngestOnce(lib, db, i).receipt.Success? || HashCollides(lib, db, i)
  {
    hide ValidChain, Chain, Accounted, StandsOn, BuildFor, HeadReceipt, Consistent, SequenceFree, HashTakenByClash, Keyed,
         ReferencesHold;
    if RequestOf(lib, i).Success? {
      var req := RequestOf(lib, i).value;
      BuildSucceedsIff(lib, db, req, i.now);
      if BuildFor(lib, req, HeadReceipt(db, i.event.tenantId), i.now).Success? {
        var r := BuildFor(lib, req, HeadReceipt(db, i.event.tenantId), i.now).value;
        BuiltBinds(lib, req, HeadReceipt(db, i.event.tenantId), i.now);
        FreshHeadIsNext(lib, db, req, i.now);
        FreeMeansBeyond(lib, db, r);
        if !HashFree(db, r) {
          TakenHash(lib, db, ReceiptRow(r, i.snapshotId));
        }
      }
    }
  }

  lemma TakenHash(lib: Library, db: Db, mine: ReceiptRow)
    requires Sound(lib, db) && Consistent(lib, mine) && SequenceFree(db, mine.receipt) && !HashFree(db, mine.receipt)
    ensures HashTakenByClash(lib, db, mine)
  {
    hide ValidChain, Chain, Accounted, Consistent, SequenceFree, Clash, BoundText;
    var row :| row in db.receipts && row.receipt.receiptHash == mine.receipt.receiptHash;
    TakenHashIsClash(lib, db, row, mine);
  }

  /** An undisturbed call is the three steps of one process run back to back. */
  lemma IngestIsOneRun(lib: Library, s: System, p: nat, i: Inputs)
    requires s.now == i.now && RequestOf(lib, i).Success?
    ensures Run(lib, s, [ReadHead(p, RequestOf(lib, i).value), Build(p), Commit(p)]).db == IngestOnce(lib, s.db, i).db
  {
    hide Write, BuildFor, HeadReceipt, RequestOf;
    var req := RequestOf(lib, i).value;
    RequestCarriesEvent(lib, i);
    var a, b, c := ReadHead(p, req), Build(p), Commit(p);
    var s1 := Step(lib, s, a);
    var s2 := Step(lib, s1, b);
    assert [a, b, c][..2] == [a, b] && [a, b][..1] == [a] && [a][..0] == [];
    assert Run(lib, s, []) == s;
    assert Run(lib, s, [a]) == s1;
    assert Run(lib, s, [a, b]) == s2;
    assert Run(lib, s, [a, b, c]) == Step(lib, s2, c);
  }

  lemma RequestCarriesEvent(lib: Library, i: Inputs)
    requires RequestOf(lib, i).Success?
    ensures var req := RequestOf(lib, i).value;
            req.event == i.event && req.snapshotId == i.snapshotId
  {
  }

  /** The tables, and the session that writes them. */
  class Store {
    var known: References
    var snapshots: seq<SnapshotRow>
    var events: seq<Event>
    var receipts: seq<ReceiptRow>

    function State(): Db
      reads this
    {
      Db(known, snapshots, events, receipts)
    }

    constructor (known: References)
      ensures State() == Db(known, [], [], [])
    {
      this.known := known;
      snapshots, events, receipts := [], [], [];
    }

    /** `write_event_with_receipt`: the guards, then all three rows in one flush. */
    method WriteEventWithReceipt(event: Event, snapshot: PolicySnapshot, receipt: Receipt, snapshotId: Uuid)
      returns (r: Result<Uuid, WriteError>)
      modifies this
      ensures r.Success? ==> r.value == snapshotId && Write(old(State()), event, snapshot, receipt, snapshotId) == Success(State())
      ensures r.Failure? ==> Write(old(State()), event, snapshot, receipt, snapshotId) == Failure(r.error) && State() == old(State())
    {
      if receipt.policyBundleId != snapshot.policyBundleId {
        return Failure(BundleMismatch);
      }
      if receipt.tenantId != event.tenantId {
        return Failure(TenantMismatch);
      }
      if receipt.eventId != event.id {
        return Failure(EventMismatch);
      }
      if !ReferencesHold(State(), event, snapshot.policyBundleId)
         || !FreshIds(State(), event, receipt, snapshotId) || !SequenceFree(State(), receipt)
         || !HashFree(State(), receipt) {
        return Failure(IntegrityError);
      }
      snapshots := snapshots + [SnapshotRow(snapshotId, event.tenantId, snapshot)];
      events := events + [event];
      receipts := receipts + [ReceiptRow(receipt, snapshotId)];
      return Success(snapshotId);
    }

    /**
      `ingest_event` inside its session. On success the tenant's chain is one
      receipt longer, the three rows are the call's own and the live recheck
      holds; on any failure nothing has changed.
     */
    method IngestEvent(lib: Library, i: Inputs) returns (r: Result<IngestResult, IngestError>)
      requires Sound(lib, State())
      modifies this
      ensures Sound(lib, State())
      ensures State() == IngestOnce(lib, old(State()), i).db
      ensures r.Success? ==>
                var out := IngestOnce(lib, old(State()), i).receipt;
                && out.Success? && Recorded(lib, old(State()), State(), i, out.value)
                && r.value == IngestResult(i.event.id, i.receiptId, i.snapshotId, out.value.receiptHash, true)
                && Chain(receipts, i.event.tenantId)
                     == Chain(old(receipts), i.event.tenantId) + [ReceiptRow(out.value, i.snapshotId)]
      ensures r.Failure? ==> State() == old(State()) && IngestOnce(lib, old(State()), i).receipt == Failure(r.error)
    {
      hide Sound, Recorded, Chain, Write, BuildFor, HeadReceipt, BoundText;
      ghost var before := State();
      IngestExtendsChain(lib, before, i, i.event.tenantId);
      if i.verdict.None? {
        return Failure(EnforcementFailed);
      }
      if i.verdict.value.bundleId != i.bundle.id {
        return Failure(BundleDrift);
      }
      var captured := CaptureSnapshot(lib, i.bundle, i.verdict.value, i.capturedAt);
      if captured.Failure? {
        return Failure(captured.error);
      }
      var snapshot := captured.value;
      var req := Request(i.event, snapshot, i.snapshotId, i.receiptId, i.tenantKey, i.agentKey);
      var prev := HeadReceipt(State(), i.event.tenantId);
      var built := BuildFor(lib, req, prev, i.now);
      if built.Failure? {
        return Failure(BuildFailed(built.error));
      }
      var receipt := built.value;
      BuiltBinds(lib, req, prev, i.now);
      var written := WriteEventWithReceipt(i.event, snapshot, receipt, i.snapshotId);
      if written.Failure? {
        return Failure(WriteFailed(written.error));
      }
      var integrityOk := Recompute(lib, ReceiptRow(receipt, i.snapshotId)) == receipt.receiptHash;
      return Success(IngestResult(i.event.id, receipt.id, i.snapshotId, receipt.receiptHash, integrityOk));
    }
  }
}
