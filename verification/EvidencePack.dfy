/**
  Evidence packs: their content, the root hash over it and what that hash
  determines (packages/export/schema.py, packages/export/builder.py:117-182).
 */
module EvidencePack {
  import opened Wrappers
  import opened Bytes
  import opened CanonicalJson
  import opened Primitives

  datatype Header = Header(
    packId: Uuid, tenantId: Uuid, generatedAt: Stamp, scopeStart: Stamp, scopeEnd: Stamp, receiptCount: nat)

  datatype Item = Item(
    id: Uuid, tenantId: Uuid, eventId: Uuid, policyBundleId: Uuid, snapshotId: Uuid, sequence: nat,
    prevReceiptHash: Option<string>, payloadHash: Hex64, receiptHash: Hex64, signatureB64: string, signedAt: Stamp)

  /** A PROV-O activity; its `prov:Activity` type is a constant. */
  datatype Activity = Activity(
    id: string, usedEvent: string, usedPolicySnapshot: string, generatedReceipt: string,
    startedAt: Stamp, endedAt: Stamp)

  datatype AnchorStatus = Anchored | Deferred

  datatype Anchor = Anchor(
    anchorId: Uuid, anchorDate: Stamp, status: AnchorStatus, rootHash: Option<Hex64>, tsaIdentifier: string,
    tsrBytesB64: Option<string>, tsaSignatureB64: Option<string>, timestampedAt: Option<Stamp>, anchoredAt: Stamp)

  datatype Pack = Pack(
    context: string, header: Header, receipts: seq<Item>, activities: seq<Activity>, anchor: Option<Anchor>,
    rootHash: Hex64)

  // ----- The bound dict -----

  function StatusText(s: AnchorStatus): string
  {
    if s.Anchored? then "anchored" else "deferred"
  }

  function TimeOrEmpty(lib: Library, t: Option<Stamp>): string
  {
    match t
    case None => ""
    case Some(u) => lib.iso(u)
  }

  function HeaderKeys(): (keys: seq<string>)
    ensures |keys| == 6 && Distinct(keys)
  {
    ["pack_id", "tenant_id", "generated_at", "scope_start", "scope_end", "receipt_count"]
  }

  function HeaderValues(lib: Library, h: Header): (vs: seq<Json>)
    ensures |vs| == 6 && AllHashable(vs)
  {
    [Str(h.packId), Str(h.tenantId), Str(lib.iso(h.generatedAt)), Str(lib.iso(h.scopeStart)),
     Str(lib.iso(h.scopeEnd)), Num(h.receiptCount)]
  }

  function ItemKeys(): (keys: seq<string>)
    ensures |keys| == 11 && Distinct(keys)
  {
    ["id", "tenant_id", "event_id", "policy_bundle_id", "policy_snapshot_id", "sequence", "prev_receipt_hash",
     "payload_hash", "receipt_hash", "signature_b64", "signed_at"]
  }

  /** `_canonicalise_item` */
  function ItemValues(lib: Library, it: Item): (vs: seq<Json>)
    ensures |vs| == 11 && AllHashable(vs)
  {
    [Str(it.id), Str(it.tenantId), Str(it.eventId), Str(it.policyBundleId), Str(it.snapshotId), Num(it.sequence),
     Str(OrEmpty(it.prevReceiptHash)), Str(it.payloadHash), Str(it.receiptHash), Str(it.signatureB64),
     Str(lib.iso(it.signedAt))]
  }

  function ActivityKeys(): (keys: seq<string>)
    ensures |keys| == 7 && Distinct(keys)
  {
    ["activity_type", "id", "used_event", "used_policy_snapshot", "generated_receipt", "started_at", "ended_at"]
  }

  function ActivityValues(lib: Library, a: Activity): (vs: seq<Json>)
    ensures |vs| == 7 && AllHashable(vs)
  {
    [Str("prov:Activity"), Str(a.id), Str(a.usedEvent), Str(a.usedPolicySnapshot), Str(a.generatedReceipt),
     Str(lib.iso(a.startedAt)), Str(lib.iso(a.endedAt))]
  }

  function AnchorKeys(): (keys: seq<string>)
    ensures |keys| == 9 && Distinct(keys)
  {
    ["anchor_id", "anchor_date", "status", "root_hash", "tsa_identifier", "tsr_bytes_b64", "tsa_signature_b64",
     "timestamped_at", "anchored_at"]
  }

  /** `_canonicalise_anchor` */
  function AnchorValues(lib: Library, a: Anchor): (vs: seq<Json>)
    ensures |vs| == 9 && AllHashable(vs)
  {
    [Str(a.anchorId), Str(lib.iso(a.anchorDate)), Str(StatusText(a.status)), Str(OrEmpty(a.rootHash)),
     Str(a.tsaIdentifier), Str(OrEmpty(a.tsrBytesB64)), Str(OrEmpty(a.tsaSignatureB64)),
     Str(TimeOrEmpty(lib, a.timestampedAt)), Str(lib.iso(a.anchoredAt))]
  }

  function BindHeader(lib: Library, h: Header): Hashable { Struct(HeaderKeys(), HeaderValues(lib, h)) }

  function BindItem(lib: Library, it: Item): Hashable { Struct(ItemKeys(), ItemValues(lib, it)) }

  function BindActivity(lib: Library, a: Activity): Hashable { Struct(ActivityKeys(), ActivityValues(lib, a)) }

  function BindAnchor(lib: Library, a: Anchor): Hashable { Struct(AnchorKeys(), AnchorValues(lib, a)) }

  function BindItems(lib: Library, items: seq<Item>): (vs: seq<Json>)
    ensures |vs| == |items| && AllHashable(vs)
  {
    seq(|items|, i requires 0 <= i < |items| => BindItem(lib, items[i]))
  }

  function BindActivities(lib: Library, activities: seq<Activity>): (vs: seq<Json>)
    ensures |vs| == |activities| && AllHashable(vs)
  {
    seq(|activities|, i requires 0 <= i < |activities| => BindActivity(lib, activities[i]))
  }

  function PackKeys(anchored: bool): (keys: seq<string>)
    ensures |keys| == (if anchored then 4 else 3) && Distinct(keys)
  {
    ["header", "receipts", "activities"] + if anchored then ["anchor"] else []
  }

  function PackValues(lib: Library, p: Pack): (vs: seq<Json>)
    ensures |vs| == (if p.anchor.Some? then 4 else 3) && AllHashable(vs)
  {
    [BindHeader(lib, p.header), Items(BindItems(lib, p.receipts)), Items(BindActivities(lib, p.activities))]
    + if p.anchor.Some? then [BindAnchor(lib, p.anchor.value)] else []
  }

  function BindPack(lib: Library, p: Pack): Hashable
  {
    Struct(PackKeys(p.anchor.Some?), PackValues(lib, p))
  }

  function PackText(lib: Library, p: Pack): ByteString
  {
    Text(BindPack(lib, p))
  }

  function RootHash(lib: Library, p: Pack): Hex64
  {
    lib.sha256(PackText(lib, p))
  }

  /** `verify_evidence_pack` */
  predicate Verify(lib: Library, p: Pack)
  {
    RootHash(lib, p) == p.rootHash
  }

  /** The names a pack's header is bound under. */
  lemma HeaderNames(lib: Library, h: Header)
    ensures var v := BindHeader(lib, h);
      && Said(v, "pack_id") == Some(DStr(h.packId)) && Said(v, "tenant_id") == Some(DStr(h.tenantId))
      && Said(v, "generated_at") == Some(DStr(lib.iso(h.generatedAt)))
      && Said(v, "scope_start") == Some(DStr(lib.iso(h.scopeStart))) && Said(v, "scope_end") == Some(DStr(lib.iso(h.scopeEnd)))
      && Said(v, "receipt_count") == Some(DNum(h.receiptCount))
  {
    hide Said, Struct;
    var keys, vs, v := HeaderKeys(), HeaderValues(lib, h), BindHeader(lib, h);
    StructSays(keys, vs);
    assert Said(v, keys[0]) == Some(Meaning(vs[0])) && Said(v, keys[1]) == Some(Meaning(vs[1]));
    assert Said(v, keys[2]) == Some(Meaning(vs[2])) && Said(v, keys[3]) == Some(Meaning(vs[3]));
    assert Said(v, keys[4]) == Some(Meaning(vs[4])) && Said(v, keys[5]) == Some(Meaning(vs[5]));
  }

  /** The names an activity is bound under. */
  lemma ActivityNames(lib: Library, a: Activity)
    ensures var v := BindActivity(lib, a);
      && Said(v, "activity_type") == Some(DStr("prov:Activity")) && Said(v, "id") == Some(DStr(a.id))
      && Said(v, "used_event") == Some(DStr(a.usedEvent))
      && Said(v, "used_policy_snapshot") == Some(DStr(a.usedPolicySnapshot))
      && Said(v, "generated_receipt") == Some(DStr(a.generatedReceipt))
      && Said(v, "started_at") == Some(DStr(lib.iso(a.startedAt))) && Said(v, "ended_at") == Some(DStr(lib.iso(a.endedAt)))
  {
    hide Said, Struct;
    var keys, vs, v := ActivityKeys(), ActivityValues(lib, a), BindActivity(lib, a);
    StructSays(keys, vs);
    assert Said(v, keys[0]) == Some(Meaning(vs[0])) && Said(v, keys[1]) == Some(Meaning(vs[1]));
    assert Said(v, keys[2]) == Some(Meaning(vs[2])) && Said(v, keys[3]) == Some(Meaning(vs[3]));
    assert Said(v, keys[4]) == Some(Meaning(vs[4])) && Said(v, keys[5]) == Some(Meaning(vs[5]));
    assert Said(v, keys[6]) == Some(Meaning(vs[6]));
  }

  /** The names an item is bound under. */
  lemma ItemNames(lib: Library, it: Item)
    ensures var v := BindItem(lib, it);
      && Said(v, "id") == Some(DStr(it.id)) && Said(v, "tenant_id") == Some(DStr(it.tenantId))
      && Said(v, "event_id") == Some(DStr(it.eventId)) && Said(v, "policy_bundle_id") == Some(DStr(it.policyBundleId))
      && Said(v, "policy_snapshot_id") == Some(DStr(it.snapshotId)) && Said(v, "sequence") == Some(DNum(it.sequence))
      && Said(v, "prev_receipt_hash") == Some(DStr(if it.prevReceiptHash.Some? then it.prevReceiptHash.value else ""))
      && Said(v, "payload_hash") == Some(DStr(it.payloadHash)) && Said(v, "receipt_hash") == Some(DStr(it.receiptHash))
      && Said(v, "signature_b64") == Some(DStr(it.signatureB64)) && Said(v, "signed_at") == Some(DStr(lib.iso(it.signedAt)))
  {
    hide Said, Struct;
    var keys, vs, v := ItemKeys(), ItemValues(lib, it), BindItem(lib, it);
    StructSays(keys, vs);
    assert Said(v, keys[0]) == Some(Meaning(vs[0])) && Said(v, keys[1]) == Some(Meaning(vs[1]));
    assert Said(v, keys[2]) == Some(Meaning(vs[2])) && Said(v, keys[3]) == Some(Meaning(vs[3]));
    assert Said(v, keys[4]) == Some(Meaning(vs[4])) && Said(v, keys[5]) == Some(Meaning(vs[5]));
    assert Said(v, keys[6]) == Some(Meaning(vs[6])) && Said(v, keys[7]) == Some(Meaning(vs[7]));
    assert Said(v, keys[8]) == Some(Meaning(vs[8])) && Said(v, keys[9]) == Some(Meaning(vs[9]));
    assert Said(v, keys[10]) == Some(Meaning(vs[10]));
  }

  /** The names an anchor is bound under. */
  lemma AnchorNames(lib: Library, a: Anchor)
    ensures var v := BindAnchor(lib, a);
      && Said(v, "anchor_id") == Some(DStr(a.anchorId)) && Said(v, "anchor_date") == Some(DStr(lib.iso(a.anchorDate)))
      && Said(v, "status") == Some(DStr(if a.status.Anchored? then "anchored" else "deferred"))
      && Said(v, "root_hash") == Some(DStr(if a.rootHash.Some? then a.rootHash.value else "")) && Said(v, "tsa_identifier") == Some(DStr(a.tsaIdentifier))
      && Said(v, "tsr_bytes_b64") == Some(DStr(if a.tsrBytesB64.Some? then a.tsrBytesB64.value else ""))
      && Said(v, "tsa_signature_b64") == Some(DStr(if a.tsaSignatureB64.Some? then a.tsaSignatureB64.value else ""))
      && Said(v, "timestamped_at") == Some(DStr(if a.timestampedAt.Some? then lib.iso(a.timestampedAt.value) else ""))
      && Said(v, "anchored_at") == Some(DStr(lib.iso(a.anchoredAt)))
  {
    hide Said, Struct;
    var keys, vs, v := AnchorKeys(), AnchorValues(lib, a), BindAnchor(lib, a);
    StructSays(keys, vs);
    assert Said(v, keys[0]) == Some(Meaning(vs[0])) && Said(v, keys[1]) == Some(Meaning(vs[1]));
    assert Said(v, keys[2]) == Some(Meaning(vs[2])) && Said(v, keys[3]) == Some(Meaning(vs[3]));
    assert Said(v, keys[4]) == Some(Meaning(vs[4])) && Said(v, keys[5]) == Some(Meaning(vs[5]));
    assert Said(v, keys[6]) == Some(Meaning(vs[6])) && Said(v, keys[7]) == Some(Meaning(vs[7]));
    assert Said(v, keys[8]) == Some(Meaning(vs[8]));
  }

  /** The parts of a pack under their names; the anchor's is there exactly when the anchor is. */
  lemma PackNames(lib: Library, p: Pack)
    ensures var v := BindPack(lib, p);
      && Said(v, "header") == Some(Meaning(BindHeader(lib, p.header)))
      && Said(v, "receipts") == Some(DArr(MeaningOfItems(BindItems(lib, p.receipts))))
      && Said(v, "activities") == Some(DArr(MeaningOfItems(BindActivities(lib, p.activities))))
      && Said(v, "anchor") == (if p.anchor.Some? then Some(Meaning(BindAnchor(lib, p.anchor.value))) else None)
  {
    hide Said, Struct, BindItems, BindActivities, BindHeader, BindAnchor, MeaningOfItems;
    var keys, vs, v := PackKeys(p.anchor.Some?), PackValues(lib, p), BindPack(lib, p);
    StructSays(keys, vs);
    assert Said(v, keys[0]) == Some(Meaning(vs[0])) && Said(v, keys[1]) == Some(Meaning(vs[1]));
    assert Said(v, keys[2]) == Some(Meaning(vs[2]));
    NothingElseSaid(keys, vs, "anchor");
    if p.anchor.Some? {
      assert Said(v, keys[3]) == Some(Meaning(vs[3]));
    }
  }

  // ----- What the root hash fixes -----

  /** An item up to the sentinel: a null previous hash reads as an empty one. */
  function ShownItem(it: Item): Item
  {
    it.(prevReceiptHash := Some(OrEmpty(it.prevReceiptHash)))
  }

  /** An anchor up to its sentinels; a root hash or a time is never the empty string. */
  function ShownAnchor(a: Anchor): Anchor
  {
    a.(tsrBytesB64 := Some(OrEmpty(a.tsrBytesB64)), tsaSignatureB64 := Some(OrEmpty(a.tsaSignatureB64)))
  }

  function ShownItems(items: seq<Item>): (shown: seq<Item>)
    ensures |shown| == |items|
    ensures forall i :: 0 <= i < |items| ==> shown[i] == ShownItem(items[i])
  {
    seq(|items|, i requires 0 <= i < |items| => ShownItem(items[i]))
  }

  /** Everything in a pack but its `@context`, its own root hash, and the difference between null and empty. */
  datatype Content = Content(header: Header, receipts: seq<Item>, activities: seq<Activity>, anchor: Option<Anchor>)

  function Shown(p: Pack): Content
  {
    Content(p.header, ShownItems(p.receipts), p.activities,
            if p.anchor.Some? then Some(ShownAnchor(p.anchor.value)) else None)
  }

  lemma HeaderMeaning(lib: Library, a: Header, b: Header)
    requires FaithfulIso(lib)
    ensures Meaning(BindHeader(lib, a)) == Meaning(BindHeader(lib, b)) <==> a == b
  {
    var vs, ws := HeaderValues(lib, a), HeaderValues(lib, b);
    StructSameMeaning(HeaderKeys(), vs, ws);
    if SameMeanings(vs, ws) {
      assert Meaning(vs[0]) == Meaning(ws[0]) && Meaning(vs[1]) == Meaning(ws[1]) && Meaning(vs[2]) == Meaning(ws[2]);
      assert Meaning(vs[3]) == Meaning(ws[3]) && Meaning(vs[4]) == Meaning(ws[4]) && Meaning(vs[5]) == Meaning(ws[5]);
    }
  }

  lemma SameItemValues(lib: Library, a: Item, b: Item)
    requires FaithfulIso(lib) && SameMeanings(ItemValues(lib, a), ItemValues(lib, b))
    ensures ShownItem(a) == ShownItem(b)
  {
    var vs, ws := ItemValues(lib, a), ItemValues(lib, b);
    assert Meaning(vs[0]) == Meaning(ws[0]);
    assert Meaning(vs[1]) == Meaning(ws[1]);
    assert Meaning(vs[2]) == Meaning(ws[2]);
    assert Meaning(vs[3]) == Meaning(ws[3]);
    assert Meaning(vs[4]) == Meaning(ws[4]);
    assert Meaning(vs[5]) == Meaning(ws[5]);
    assert Meaning(vs[6]) == Meaning(ws[6]);
    assert Meaning(vs[7]) == Meaning(ws[7]);
    assert Meaning(vs[8]) == Meaning(ws[8]);
    assert Meaning(vs[9]) == Meaning(ws[9]);
    assert Meaning(vs[10]) == Meaning(ws[10]);
  }

  lemma ShownItemValues(lib: Library, it: Item)
    ensures ItemValues(lib, ShownItem(it)) == ItemValues(lib, it)
  {
  }

  lemma ItemMeaning(lib: Library, a: Item, b: Item)
    requires FaithfulIso(lib)
    ensures Meaning(BindItem(lib, a)) == Meaning(BindItem(lib, b)) <==> ShownItem(a) == ShownItem(b)
  {
    hide ItemValues, ItemKeys, Meaning, SameMeanings, ShownItem;
    var vs, ws := ItemValues(lib, a), ItemValues(lib, b);
    StructSameMeaning(ItemKeys(), vs, ws);
    if SameMeanings(vs, ws) {
      SameItemValues(lib, a, b);
    }
    ShownItemValues(lib, a);
    ShownItemValues(lib, b);
  }

  lemma ActivityMeaning(lib: Library, a: Activity, b: Activity)
    requires FaithfulIso(lib)
    ensures Meaning(BindActivity(lib, a)) == Meaning(BindActivity(lib, b)) <==> a == b
  {
    var vs, ws := ActivityValues(lib, a), ActivityValues(lib, b);
    StructSameMeaning(ActivityKeys(), vs, ws);
    if SameMeanings(vs, ws) {
      assert Meaning(vs[1]) == Meaning(ws[1]) && Meaning(vs[2]) == Meaning(ws[2]) && Meaning(vs[3]) == Meaning(ws[3]);
      assert Meaning(vs[4]) == Meaning(ws[4]) && Meaning(vs[5]) == Meaning(ws[5]) && Meaning(vs[6]) == Meaning(ws[6]);
    }
  }

  lemma SameAnchorValues(lib: Library, a: Anchor, b: Anchor)
    requires FaithfulIso(lib) && SameMeanings(AnchorValues(lib, a), AnchorValues(lib, b))
    ensures ShownAnchor(a) == ShownAnchor(b)
  {
    var vs, ws := AnchorValues(lib, a), AnchorValues(lib, b);
    assert Meaning(vs[0]) == Meaning(ws[0]);
    assert Meaning(vs[1]) == Meaning(ws[1]);
    assert Meaning(vs[2]) == Meaning(ws[2]);
    assert Meaning(vs[3]) == Meaning(ws[3]);
    assert Meaning(vs[4]) == Meaning(ws[4]);
    assert Meaning(vs[5]) == Meaning(ws[5]);
    assert Meaning(vs[6]) == Meaning(ws[6]);
    assert Meaning(vs[7]) == Meaning(ws[7]);
    assert Meaning(vs[8]) == Meaning(ws[8]);
  }

  lemma ShownAnchorValues(lib: Library, a: Anchor)
    ensures AnchorValues(lib, ShownAnchor(a)) == AnchorValues(lib, a)
  {
  }

  lemma AnchorMeaning(lib: Library, a: Anchor, b: Anchor)
    requires FaithfulIso(lib)
    ensures Meaning(BindAnchor(lib, a)) == Meaning(BindAnchor(lib, b)) <==> ShownAnchor(a) == ShownAnchor(b)
  {
    hide AnchorValues, AnchorKeys, Meaning, SameMeanings, ShownAnchor;
    var vs, ws := AnchorValues(lib, a), AnchorValues(lib, b);
    StructSameMeaning(AnchorKeys(), vs, ws);
    if SameMeanings(vs, ws) {
      SameAnchorValues(lib, a, b);
    }
    ShownAnchorValues(lib, a);
    ShownAnchorValues(lib, b);
  }

  lemma ItemsMeaning(lib: Library, a: seq<Item>, b: seq<Item>)
    requires FaithfulIso(lib)
    ensures Meaning(Items(BindItems(lib, a))) == Meaning(Items(BindItems(lib, b))) <==> ShownItems(a) == ShownItems(b)
  {
    hide BindItem, Meaning, ShownItem;
    var vs, ws := BindItems(lib, a), BindItems(lib, b);
    ItemsSameMeaning(vs, ws);
    forall i | 0 <= i < |a| && i < |b|
      ensures Meaning(vs[i]) == Meaning(ws[i]) <==> ShownItems(a)[i] == ShownItems(b)[i]
    {
      ItemMeaning(lib, a[i], b[i]);
    }
  }

  lemma ActivitiesMeaning(lib: Library, a: seq<Activity>, b: seq<Activity>)
    requires FaithfulIso(lib)
    ensures Meaning(Items(BindActivities(lib, a))) == Meaning(Items(BindActivities(lib, b))) <==> a == b
  {
    hide BindActivity, Meaning;
    var vs, ws := BindActivities(lib, a), BindActivities(lib, b);
    ItemsSameMeaning(vs, ws);
    forall i | 0 <= i < |a| && i < |b| ensures Meaning(vs[i]) == Meaning(ws[i]) <==> a[i] == b[i] {
      ActivityMeaning(lib, a[i], b[i]);
    }
  }

  /** With or without an anchor: an absent member tells the two shapes apart. */
  lemma AnchorPresenceShows(lib: Library, p: Pack, q: Pack)
    requires Meaning(BindPack(lib, p)) == Meaning(BindPack(lib, q))
    ensures p.anchor.Some? == q.anchor.Some?
  {
    hide PackValues, Meaning, Struct;
    StructKeys(PackKeys(p.anchor.Some?), PackValues(lib, p), "anchor");
    StructKeys(PackKeys(q.anchor.Some?), PackValues(lib, q), "anchor");
    assert PackKeys(true)[3] == "anchor";
  }

  lemma PackMeaning(lib: Library, p: Pack, q: Pack)
    requires FaithfulIso(lib)
    ensures Meaning(BindPack(lib, p)) == Meaning(BindPack(lib, q)) <==> Shown(p) == Shown(q)
  {
    hide BindItems, BindActivities, BindHeader, BindAnchor, ShownItems, ShownAnchor, Meaning, Items, PackKeys, Struct;
    if Meaning(BindPack(lib, p)) == Meaning(BindPack(lib, q)) {
      AnchorPresenceShows(lib, p, q);
    }
    if p.anchor.Some? == q.anchor.Some? {
      var vs, ws := PackValues(lib, p), PackValues(lib, q);
      StructSameMeaning(PackKeys(p.anchor.Some?), vs, ws);
      HeaderMeaning(lib, p.header, q.header);
      ItemsMeaning(lib, p.receipts, q.receipts);
      ActivitiesMeaning(lib, p.activities, q.activities);
      if p.anchor.Some? {
        AnchorMeaning(lib, p.anchor.value, q.anchor.value);
        assert SameMeanings(vs, ws) <==>
                 Meaning(vs[0]) == Meaning(ws[0]) && Meaning(vs[1]) == Meaning(ws[1])
                 && Meaning(vs[2]) == Meaning(ws[2]) && Meaning(vs[3]) == Meaning(ws[3]);
      } else {
        assert SameMeanings(vs, ws) <==>
                 Meaning(vs[0]) == Meaning(ws[0]) && Meaning(vs[1]) == Meaning(ws[1]) && Meaning(vs[2]) == Meaning(ws[2]);
      }
    }
  }

  /**
    Two packs that verify have the same root hash exactly when header, receipts,
    activities and anchor agree, null and empty counting as one; or their bound
    texts collide.
   */
  lemma RootDeterminesPack(lib: Library, p: Pack, q: Pack)
    requires FaithfulIso(lib) && Verify(lib, p) && Verify(lib, q)
    ensures p.rootHash == q.rootHash ==> Shown(p) == Shown(q) || Clash(lib, {PackText(lib, p)}, {PackText(lib, q)})
    ensures Shown(p) == Shown(q) ==> p.rootHash == q.rootHash
  {
    hide BindPack, Shown, Meaning, Text, Clash, FaithfulIso;
    PackMeaning(lib, p, q);
    DigestDetermines(lib, BindPack(lib, p), BindPack(lib, q));
  }

  /**
    The documentation says the root binds the whole content. It does not bind
    `@context`, nor tell a null from an empty string: each of these edits keeps
    a verifying pack verifying.
   */
  lemma UnboundEdits(lib: Library, p: Pack, context: string)
    requires FaithfulIso(lib) && Verify(lib, p)
    ensures Verify(lib, p.(context := context))
    ensures Verify(lib, p.(receipts := ShownItems(p.receipts)))
    ensures p.anchor.Some? ==> Verify(lib, p.(anchor := Some(ShownAnchor(p.anchor.value))))
  {
    hide BindPack, Meaning, Text, FaithfulIso, BindItems, BindActivities, BindHeader, BindAnchor;
    SameContentSameRoot(lib, p, p.(context := context));
    ShownItemsTwice(p.receipts);
    SameContentSameRoot(lib, p, p.(receipts := ShownItems(p.receipts)));
    if p.anchor.Some? {
      SameContentSameRoot(lib, p, p.(anchor := Some(ShownAnchor(p.anchor.value))));
    }
  }

  lemma ShownItemsTwice(items: seq<Item>)
    ensures ShownItems(ShownItems(items)) == ShownItems(items)
  {
  }

  lemma SameContentSameRoot(lib: Library, p: Pack, q: Pack)
    requires FaithfulIso(lib) && Shown(p) == Shown(q)
    ensures RootHash(lib, p) == RootHash(lib, q)
  {
    hide BindPack, Shown, Meaning, Text, FaithfulIso;
    PackMeaning(lib, p, q);
    DigestDetermines(lib, BindPack(lib, p), BindPack(lib, q));
  }
}
