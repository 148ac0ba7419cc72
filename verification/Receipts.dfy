/** Receipts and the hash that binds them (packages/ledger/receipt_builder.py). */
module Receipts {
  import opened Wrappers
  import opened Bytes
  import opened CanonicalJson
  import opened Primitives

  datatype Receipt = Receipt(
    id: Uuid,
    tenantId: Uuid,
    eventId: Uuid,
    policyBundleId: Uuid,
    sequence: nat,
    prevReceiptHash: Option<Hex64>,
    payloadHash: Hex64,
    receiptHash: Hex64,
    signature: Signature,
    agentSignature: Option<Signature>,
    signedAt: Time
  )

  /** The policy state captured at ingest (packages/policy/snapshot.py). */
  datatype PolicySnapshot = PolicySnapshot(
    policyBundleId: Uuid,
    policyBundleVersion: string,
    contentHash: Hex64,
    capturedAt: Time,
    verdictDecision: string,
    verdictReason: string
  )

  /** A receipt with the snapshot id stored beside it. */
  datatype ReceiptRow = ReceiptRow(receipt: Receipt, snapshotId: Uuid)

  datatype BuildError = PayloadNotADict | PayloadHasNone | ForeignPredecessor

  /** The fields under the receipt hash: not the id, the signatures or the signing time. */
  datatype BoundFields = BoundFields(
    sequence: nat,
    tenantId: Uuid,
    eventId: Uuid,
    policyBundleId: Uuid,
    snapshotId: Uuid,
    payloadHash: Hex64,
    prevReceiptHash: Option<Hex64>
  )

  function Bound(row: ReceiptRow): BoundFields
  {
    var r := row.receipt;
    BoundFields(r.sequence, r.tenantId, r.eventId, r.policyBundleId, row.snapshotId, r.payloadHash, r.prevReceiptHash)
  }

  function BindKeys(): (keys: seq<string>)
    ensures |keys| == 7 && Distinct(keys)
  {
    ["sequence", "tenant_id", "event_id", "policy_bundle_id", "policy_snapshot_id", "payload_hash",
     "prev_receipt_hash"]
  }

  function BindValues(b: BoundFields): (vs: seq<Json>)
    ensures |vs| == 7 && AllHashable(vs)
  {
    [Num(b.sequence), Str(b.tenantId), Str(b.eventId), Str(b.policyBundleId), Str(b.snapshotId),
     Str(b.payloadHash), Str(OrEmpty(b.prevReceiptHash))]
  }

  function Bind(b: BoundFields): Hashable
  {
    Struct(BindKeys(), BindValues(b))
  }

  /** The bytes a receipt hash is the digest of. */
  function BoundText(row: ReceiptRow): ByteString
  {
    Text(Bind(Bound(row)))
  }

  /** `recompute_receipt_hash` */
  function Recompute(lib: Library, row: ReceiptRow): Hex64
  {
    lib.sha256(BoundText(row))
  }

  ghost predicate Consistent(lib: Library, row: ReceiptRow)
  {
    Recompute(lib, row) == row.receipt.receiptHash
  }

  /** `build_receipt`; `id` and `now` are the fresh UUID and the clock. */
  function BuildReceipt(
    lib: Library, tenantId: Uuid, eventId: Uuid, eventPayload: Json, snapshot: PolicySnapshot, snapshotId: Uuid,
    prev: Option<Receipt>, tenantKey: ByteString, agentKey: Option<ByteString>, id: Uuid, now: Time
  ): Result<Receipt, BuildError>
  {
    if !eventPayload.Obj? then Failure(PayloadNotADict)
    else match Sha256Hex(lib, eventPayload)
      case Failure(_) => Failure(PayloadHasNone)
      case Success(payloadHash) =>
        if prev.Some? && prev.value.tenantId != tenantId then Failure(ForeignPredecessor)
        else
          var sequence := if prev.Some? then prev.value.sequence + 1 else 0;
          var prevHash := if prev.Some? then Some(prev.value.receiptHash) else None;
          var bound := BoundFields(
            sequence, tenantId, eventId, snapshot.policyBundleId, snapshotId, payloadHash, prevHash);
          var receiptHash := Digest(lib, Bind(bound));
          Success(Receipt(
            id, tenantId, eventId, snapshot.policyBundleId, sequence, prevHash, payloadHash, receiptHash,
            lib.sign(tenantKey, receiptHash),
            if agentKey.Some? then Some(lib.sign(agentKey.value, receiptHash)) else None,
            now))
  }

  /**
    What building promises: the receipt recomputes under the snapshot id it was
    built with, stands right after its predecessor, and binds the payload.
   */
  lemma BuiltReceipt(
    lib: Library, tenantId: Uuid, eventId: Uuid, eventPayload: Json, snapshot: PolicySnapshot, snapshotId: Uuid,
    prev: Option<Receipt>, tenantKey: ByteString, agentKey: Option<ByteString>, id: Uuid, now: Time
  )
    ensures var built := BuildReceipt(lib, tenantId, eventId, eventPayload, snapshot, snapshotId, prev, tenantKey,
                                      agentKey, id, now);
      && (built.Success? <==> eventPayload.Obj? && !HasNull(eventPayload)
                              && (prev.None? || prev.value.tenantId == tenantId))
      && (built == Failure(PayloadNotADict) <==> !eventPayload.Obj?)
      && (built == Failure(PayloadHasNone) <==> eventPayload.Obj? && HasNull(eventPayload))
      && (built.Success? ==>
            var r := built.value;
            && Consistent(lib, ReceiptRow(r, snapshotId))
            && Sha256Hex(lib, eventPayload) == Success(r.payloadHash)
            && r.tenantId == tenantId && r.eventId == eventId && r.policyBundleId == snapshot.policyBundleId
            && r.id == id && r.signedAt == now
            && r.signature == lib.sign(tenantKey, r.receiptHash)
            && r.agentSignature == (if agentKey.Some? then Some(lib.sign(agentKey.value, r.receiptHash)) else None)
            && (prev.None? ==> r.sequence == 0 && r.prevReceiptHash == None)
            && (prev.Some? ==> r.sequence == prev.value.sequence + 1
                               && r.prevReceiptHash == Some(prev.value.receiptHash)))
  {
    hide Bind;
  }

  /** The names the receipt hash binds its fields under. */
  lemma BoundNames(b: BoundFields)
    ensures Said(Bind(b), "sequence") == Some(DNum(b.sequence))
    ensures Said(Bind(b), "tenant_id") == Some(DStr(b.tenantId))
    ensures Said(Bind(b), "event_id") == Some(DStr(b.eventId))
    ensures Said(Bind(b), "policy_bundle_id") == Some(DStr(b.policyBundleId))
    ensures Said(Bind(b), "policy_snapshot_id") == Some(DStr(b.snapshotId))
    ensures Said(Bind(b), "payload_hash") == Some(DStr(b.payloadHash))
    ensures Said(Bind(b), "prev_receipt_hash") == Some(DStr(if b.prevReceiptHash.Some? then b.prevReceiptHash.value else ""))
    ensures forall k :: Said(Bind(b), k).Some? ==> k in BindKeys()
  {
    hide Said, Struct;
    var keys, vs := BindKeys(), BindValues(b);
    StructSays(keys, vs);
    assert Said(Bind(b), keys[0]) == Some(Meaning(vs[0])) && Said(Bind(b), keys[1]) == Some(Meaning(vs[1]));
    assert Said(Bind(b), keys[2]) == Some(Meaning(vs[2])) && Said(Bind(b), keys[3]) == Some(Meaning(vs[3]));
    assert Said(Bind(b), keys[4]) == Some(Meaning(vs[4])) && Said(Bind(b), keys[5]) == Some(Meaning(vs[5]));
    assert Said(Bind(b), keys[6]) == Some(Meaning(vs[6]));
    forall k ensures Said(Bind(b), k).Some? ==> k in keys {
      NothingElseSaid(keys, vs, k);
    }
  }

  lemma SameValuesSameBound(b: BoundFields, c: BoundFields)
    requires SameMeanings(BindValues(b), BindValues(c))
    ensures b == c
  {
    var vs, ws := BindValues(b), BindValues(c);
    assert Meaning(vs[0]) == Meaning(ws[0]);
    assert Meaning(vs[1]) == Meaning(ws[1]);
    assert Meaning(vs[2]) == Meaning(ws[2]);
    assert Meaning(vs[3]) == Meaning(ws[3]);
    assert Meaning(vs[4]) == Meaning(ws[4]);
    assert Meaning(vs[5]) == Meaning(ws[5]);
    assert Meaning(vs[6]) == Meaning(ws[6]);
  }

  /**
    The receipt hash fixes every bound field and nothing else: equal hashes mean
    equal bound fields unless the two bound texts collide, and equal bound
    fields mean equal hashes whatever the id, signatures and signing time.
   */
  lemma RecomputeDetermines(lib: Library, a: ReceiptRow, b: ReceiptRow)
    ensures Recompute(lib, a) == Recompute(lib, b) ==> Bound(a) == Bound(b) || Clash(lib, {BoundText(a)}, {BoundText(b)})
    ensures Bound(a) == Bound(b) ==> Recompute(lib, a) == Recompute(lib, b)
  {
    hide Text, Clash, SameMeanings, BindKeys, BindValues;
    StructDetermines(lib, BindKeys(), BindValues(Bound(a)), BindValues(Bound(b)));
    if SameMeanings(BindValues(Bound(a)), BindValues(Bound(b))) {
      SameValuesSameBound(Bound(a), Bound(b));
    }
  }

  // ----- Chains of stored receipts -----

  function HeadHash(rows: seq<ReceiptRow>): Option<Hex64>
  {
    if rows == [] then None else Some(rows[|rows| - 1].receipt.receiptHash)
  }

  /** `row` may stand at position `i`, after a receipt hashed `prev`. */
  ghost predicate FollowsAt(lib: Library, row: ReceiptRow, i: nat, prev: Option<Hex64>)
  {
    row.receipt.sequence == i && row.receipt.prevReceiptHash == prev && Consistent(lib, row)
  }

  /** Sequences 0, 1, 2, ..., each receipt linked to the one before and recomputing under its snapshot id. */
  ghost predicate ValidChain(lib: Library, rows: seq<ReceiptRow>)
  {
    forall i :: 0 <= i < |rows| ==> FollowsAt(lib, rows[i], i, HeadHash(rows[..i]))
  }

  lemma ChainExtends(lib: Library, rows: seq<ReceiptRow>, row: ReceiptRow)
    requires ValidChain(lib, rows) && FollowsAt(lib, row, |rows|, HeadHash(rows))
    ensures ValidChain(lib, rows + [row])
  {
    forall i | 0 <= i < |rows| + 1 ensures FollowsAt(lib, (rows + [row])[i], i, HeadHash((rows + [row])[..i])) {
      assert (rows + [row])[..i] == rows[..i];
    }
  }

  lemma ChainAt(lib: Library, rows: seq<ReceiptRow>, i: nat)
    requires ValidChain(lib, rows) && i < |rows|
    ensures rows[i].receipt.sequence == i && Consistent(lib, rows[i])
    ensures rows[i].receipt.prevReceiptHash == if i == 0 then None else Some(rows[i - 1].receipt.receiptHash)
  {
    assert FollowsAt(lib, rows[i], i, HeadHash(rows[..i]));
  }
}
