/**
  Composing an evidence pack from a window of receipts
  (packages/export/builder.py:29-136).
 */
module PackBuilder {
  import opened Wrappers
  import opened Bytes
  import opened Primitives
  import opened Receipts
  import opened Ledger
  import opened Windows
  import Sorting
  import EvidencePack

  const JSONLD_CONTEXT := "https://forensa.dev/ld/v1"

  datatype PackError = InvertedScope | ForeignReceipt

  /** `pack` is the fresh pack id; the n-th activity gets `activity(n)`. */
  datatype Ids = Ids(pack: Uuid, activity: nat -> Uuid)

  function ItemOf(row: ReceiptRow): EvidencePack.Item
  {
    var r := row.receipt;
    EvidencePack.Item(r.id, r.tenantId, r.eventId, r.policyBundleId, row.snapshotId, r.sequence, r.prevReceiptHash,
                      r.payloadHash, r.receiptHash, Base64Encode(r.signature, false), Utc(r.signedAt))
  }

  function ActivityOf(row: ReceiptRow, id: Uuid): EvidencePack.Activity
  {
    var r := row.receipt;
    EvidencePack.Activity(
      "urn:forensa:activity:" + id, "urn:forensa:event:" + r.eventId, "urn:forensa:snapshot:" + row.snapshotId,
      "urn:forensa:receipt:" + r.id, Utc(r.signedAt), Utc(r.signedAt))
  }

  function ItemsOf(rows: seq<ReceiptRow>): (items: seq<EvidencePack.Item>)
    ensures |items| == |rows|
  {
    seq(|rows|, i requires 0 <= i < |rows| => ItemOf(rows[i]))
  }

  function ActivitiesOf(rows: seq<ReceiptRow>, id: nat -> Uuid): (activities: seq<EvidencePack.Activity>)
    ensures |activities| == |rows|
  {
    seq(|rows|, i requires 0 <= i < |rows| => ActivityOf(rows[i], id(i)))
  }

  function Sealed(lib: Library, p: EvidencePack.Pack): EvidencePack.Pack
  {
    p.(rootHash := EvidencePack.RootHash(lib, p))
  }

  predicate AllOf(rows: seq<ReceiptRow>, tenantId: Uuid)
  {
    forall row | row in rows :: row.receipt.tenantId == tenantId
  }

  /** What a pack over these receipts must be: the items by ascending sequence, one activity each, sealed by its root. */
  function PackOf(
    lib: Library, tenantId: Uuid, generatedAt: Stamp, start: Stamp, end: Stamp, rows: seq<ReceiptRow>,
    anchor: Option<EvidencePack.Anchor>, ids: Ids
  ): EvidencePack.Pack
  {
    var ordered := Sorting.Sort(BySequence, rows);
    Sealed(lib, EvidencePack.Pack(
      JSONLD_CONTEXT, EvidencePack.Header(ids.pack, tenantId, generatedAt, start, end, |rows|),
      ItemsOf(ordered), ActivitiesOf(ordered, ids.activity), anchor, seq(64, _ => '0')))
  }

  method BuildEvidencePack(
    lib: Library, tenantId: Uuid, generatedAt: Stamp, start: Stamp, end: Stamp, rows: seq<ReceiptRow>,
    anchor: Option<EvidencePack.Anchor>, ids: Ids
  ) returns (r: Result<EvidencePack.Pack, PackError>)
    ensures r == if end.at < start.at then Failure(InvertedScope)
                 else if exists row :: row in rows && row.receipt.tenantId != tenantId then Failure(ForeignReceipt)
                 else Success(PackOf(lib, tenantId, generatedAt, start, end, rows, anchor, ids))
  {
    hide ItemOf, ActivityOf, EvidencePack.RootHash, Sorting.Sort;
    if end.at < start.at {
      return Failure(InvertedScope);
    }
    for i := 0 to |rows|
      invariant forall j :: 0 <= j < i ==> rows[j].receipt.tenantId == tenantId
    {
      if rows[i].receipt.tenantId != tenantId {
        return Failure(ForeignReceipt);
      }
    }
    var ordered := Sorting.Sort(BySequence, rows);
    var items: seq<EvidencePack.Item> := [];
    var activities: seq<EvidencePack.Activity> := [];
    for i := 0 to |ordered|
      invariant items == ItemsOf(ordered[..i])
      invariant activities == ActivitiesOf(ordered[..i], ids.activity)
    {
      items := items + [ItemOf(ordered[i])];
      activities := activities + [ActivityOf(ordered[i], ids.activity(i))];
    }
    assert ordered[..|ordered|] == ordered;
    SortKeepsLength(rows);
    var header := EvidencePack.Header(ids.pack, tenantId, generatedAt, start, end, |items|);
    var draft := EvidencePack.Pack(JSONLD_CONTEXT, header, items, activities, anchor, seq(64, _ => '0'));
    return Success(draft.(rootHash := EvidencePack.RootHash(lib, draft)));
  }

  lemma SortKeepsLength(rows: seq<ReceiptRow>)
    ensures |Sorting.Sort(BySequence, rows)| == |rows|
  {
    Sorting.SortPermutes(BySequence, rows);
    Sorting.SameElements(Sorting.Sort(BySequence, rows), rows);
  }

  lemma SealedVerifies(lib: Library, p: EvidencePack.Pack)
    ensures EvidencePack.Verify(lib, Sealed(lib, p))
  {
    assert EvidencePack.BindPack(lib, Sealed(lib, p)) == EvidencePack.BindPack(lib, p);
  }

  /** An item against its receipt, field by field; the signature reads back from its base64 text. */
  ghost predicate ItemReports(it: EvidencePack.Item, row: ReceiptRow)
  {
    var r := row.receipt;
    && it.id == r.id && it.tenantId == r.tenantId && it.eventId == r.eventId && it.policyBundleId == r.policyBundleId
    && it.snapshotId == row.snapshotId && it.sequence == r.sequence && it.prevReceiptHash == r.prevReceiptHash
    && it.payloadHash == r.payloadHash && it.receiptHash == r.receiptHash && it.signedAt == Utc(r.signedAt)
    && Base64Decode(it.signatureB64, false) == Some(r.signature)
  }

  lemma ItemOfReports(row: ReceiptRow)
    ensures ItemReports(ItemOf(row), row)
  {
    Base64RoundTrip(row.receipt.signature, false);
  }

  /** The items of a pack against the receipts it was built from. */
  ghost predicate Reports(p: EvidencePack.Pack, rows: seq<ReceiptRow>)
  {
    && |p.receipts| == |p.activities| == |rows| == p.header.receiptCount
    && forall i :: 0 <= i < |rows| ==>
         && ItemReports(p.receipts[i], rows[i])
         && p.activities[i].generatedReceipt == "urn:forensa:receipt:" + rows[i].receipt.id
         && p.activities[i].usedEvent == "urn:forensa:event:" + rows[i].receipt.eventId
         && p.activities[i].usedPolicySnapshot == "urn:forensa:snapshot:" + rows[i].snapshotId
         && p.activities[i].startedAt == p.activities[i].endedAt == Utc(rows[i].receipt.signedAt)
  }

  lemma SequenceOrderIsTotal()
    ensures Sorting.TotalPreorder(BySequence)
  {
  }

  /** Whatever order the receipts come in, the pack verifies and reports exactly them by ascending sequence. */
  lemma {:induction false} BuiltPackReports(
    lib: Library, tenantId: Uuid, generatedAt: Stamp, start: Stamp, end: Stamp, rows: seq<ReceiptRow>,
    anchor: Option<EvidencePack.Anchor>, ids: Ids
  )
    ensures var p := PackOf(lib, tenantId, generatedAt, start, end, rows, anchor, ids);
            var ordered := Sorting.Sort(BySequence, rows);
      && EvidencePack.Verify(lib, p) && p.anchor == anchor && p.receipts == ItemsOf(ordered)
      && p.context == "https://forensa.dev/ld/v1"
      && (forall i :: 0 <= i < |p.activities| ==> p.activities[i].id == "urn:forensa:activity:" + ids.activity(i))
      && p.header.packId == ids.pack && p.header.tenantId == tenantId && p.header.generatedAt == generatedAt
      && p.header.scopeStart == start && p.header.scopeEnd == end
      && Reports(p, ordered)
      && multiset(ordered) == multiset(rows)
      && (forall i, j :: 0 <= i < j < |p.receipts| ==> p.receipts[i].sequence <= p.receipts[j].sequence)
  {
    hide EvidencePack.RootHash, Sorting.Sort, Base64Encode, EvidencePack.Verify, Sorting.TotalPreorder, ItemReports;
    var ordered := Sorting.Sort(BySequence, rows);
    SealedVerifies(lib, EvidencePack.Pack(
      JSONLD_CONTEXT, EvidencePack.Header(ids.pack, tenantId, generatedAt, start, end, |rows|),
      ItemsOf(ordered), ActivitiesOf(ordered, ids.activity), anchor, seq(64, _ => '0')));
    SequenceOrderIsTotal();
    Sorting.SortAscending(BySequence, rows);
    Sorting.SortPermutes(BySequence, rows);
    SortKeepsLength(rows);
    var p := PackOf(lib, tenantId, generatedAt, start, end, rows, anchor, ids);
    forall i | 0 <= i < |ordered|
      ensures p.receipts[i] == ItemOf(ordered[i]) && ItemReports(p.receipts[i], ordered[i])
      ensures p.activities[i] == ActivityOf(ordered[i], ids.activity(i))
    {
      ItemOfReports(ordered[i]);
    }
  }

  /** An item gives back its receipt, all but the agent's signature, which packs do not carry. */
  lemma ItemGivesBackReceipt(a: ReceiptRow, b: ReceiptRow)
    ensures ItemOf(a) == ItemOf(b)
       <==> a.(receipt := a.receipt.(agentSignature := None)) == b.(receipt := b.receipt.(agentSignature := None))
  {
    hide Base64Encode;
    if ItemOf(a) == ItemOf(b) {
      Base64Injective(a.receipt.signature, b.receipt.signature, false);
    }
  }

  /** The items replay: consecutive sequences, and each links to the one before. */
  ghost predicate Replays(items: seq<EvidencePack.Item>)
  {
    forall i :: 0 <= i < |items| - 1 ==>
      && items[i + 1].sequence == items[i].sequence + 1
      && items[i + 1].prevReceiptHash == Some(items[i].receiptHash)
  }

  lemma ItemLinks(row: ReceiptRow)
    ensures var it := ItemOf(row);
            it.sequence == row.receipt.sequence && it.prevReceiptHash == row.receipt.prevReceiptHash
            && it.receiptHash == row.receipt.receiptHash
  {
  }

  lemma SegmentReplays(lib: Library, chain: seq<ReceiptRow>, lo: nat, hi: nat)
    requires ValidChain(lib, chain) && lo <= hi <= |chain|
    ensures Replays(ItemsOf(chain[lo..hi]))
  {
    hide ValidChain, Consistent, ItemOf;
    var items := ItemsOf(chain[lo..hi]);
    forall i | 0 <= i < hi - lo - 1
      ensures items[i + 1].sequence == items[i].sequence + 1 && items[i + 1].prevReceiptHash == Some(items[i].receiptHash)
    {
      assert items[i] == ItemOf(chain[lo + i]) && items[i + 1] == ItemOf(chain[lo + i + 1]);
      ChainAt(lib, chain, lo + i);
      ChainAt(lib, chain, lo + i + 1);
      ItemLinks(chain[lo + i]);
      ItemLinks(chain[lo + i + 1]);
    }
  }

  /**
    Over any reachable ledger with a clock that never falls back, the pack built
    from a window query holds one contiguous segment of the tenant's chain: it
    verifies, replays link by link, and holds every receipt of the window when
    they fit the limit.
   */
  lemma {:induction false} WindowPackReplays(
    lib: Library, now: Time, actions: seq<Action>, tenantId: Uuid, generatedAt: Stamp, start: Stamp, end: Stamp,
    limit: nat, anchor: Option<EvidencePack.Anchor>, ids: Ids
  )
    requires ClockNeverFallsBack(lib, Start(now), actions)
    ensures var rows := Run(lib, Start(now), actions).db.receipts;
            var chain := Chain(rows, tenantId);
            var found := WindowQuery(rows, tenantId, start.at, end.at, limit);
            var p := PackOf(lib, tenantId, generatedAt, start, end, found, anchor, ids);
      && AllOf(found, tenantId)
      && EvidencePack.Verify(lib, p) && Reports(p, found) && Replays(p.receipts)
      && (exists lo, hi :: 0 <= lo <= hi <= |chain| && found == chain[lo..hi])
      && (|found| < limit ==> forall row :: row in found <==> row in rows && Within(row, tenantId, start.at, end.at))
  {
    hide ValidChain, TimeOrdered, Chain, Run, WindowQuery, PackOf, Segment, ClockNeverFallsBack, Replays, Reports,
         Accounted, EvidencePack.Verify;
    var rows := Run(lib, Start(now), actions).db.receipts;
    assert actions + [] == actions;
    ConcurrentIngestIsSafe(lib, now, actions, [], tenantId);
    SigningTimesNeverFall(lib, now, actions, tenantId);
    WindowPack(lib, rows, tenantId, generatedAt, start, end, limit, anchor, ids);
  }

  lemma SegmentSorted(lib: Library, chain: seq<ReceiptRow>, lo: nat, hi: nat)
    requires ValidChain(lib, chain) && lo <= hi <= |chain|
    ensures Sorting.Sort(BySequence, chain[lo..hi]) == chain[lo..hi]
  {
    SliceAscends(lib, chain, lo, hi);
    Sorting.SortIdentity(BySequence, chain[lo..hi]);
  }

  lemma {:induction false} WindowPack(
    lib: Library, rows: seq<ReceiptRow>, tenantId: Uuid, generatedAt: Stamp, start: Stamp, end: Stamp, limit: nat,
    anchor: Option<EvidencePack.Anchor>, ids: Ids
  )
    requires ValidChain(lib, Chain(rows, tenantId)) && TimeOrdered(Chain(rows, tenantId))
    ensures var chain := Chain(rows, tenantId);
            var found := WindowQuery(rows, tenantId, start.at, end.at, limit);
            var p := PackOf(lib, tenantId, generatedAt, start, end, found, anchor, ids);
      && AllOf(found, tenantId)
      && EvidencePack.Verify(lib, p) && Reports(p, found) && Replays(p.receipts)
      && (exists lo, hi :: 0 <= lo <= hi <= |chain| && found == chain[lo..hi])
      && (|found| < limit ==> forall row :: row in found <==> row in rows && Within(row, tenantId, start.at, end.at))
  {
    hide ValidChain, TimeOrdered, Chain, WindowQuery, PackOf, Segment, Replays, EvidencePack.Verify, ItemOf, Sorting.Sort, ActivityOf, Within;
    var chain := Chain(rows, tenantId);
    var found := WindowQuery(rows, tenantId, start.at, end.at, limit);
    var p := PackOf(lib, tenantId, generatedAt, start, end, found, anchor, ids);
    var (lo, hi) := Segment(chain, start.at, end.at);
    WindowIsContiguous(lib, rows, tenantId, start.at, end.at, limit);
    var hi' := if hi <= lo + limit then hi else lo + limit;
    ChainMembers(rows, tenantId);
    assert found == chain[lo..hi'];
    forall row | row in found ensures row.receipt.tenantId == tenantId {
      assert row in chain;
    }
    SegmentSorted(lib, chain, lo, hi');
    BuiltPackReports(lib, tenantId, generatedAt, start, end, found, anchor, ids);
    SegmentReplays(lib, chain, lo, hi');
    assert p.receipts == ItemsOf(found);
    if |found| < limit {
      WindowIsComplete(lib, rows, tenantId, start.at, end.at, limit);
    }
  }
}
