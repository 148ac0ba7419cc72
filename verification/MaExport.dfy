/** The sealed due-diligence bundle over packs and anchors (packages/export/ma_export.py). */
module MaExport {
  import opened Wrappers
  import opened Bytes
  import opened CanonicalJson
  import opened Primitives
  import Sorting
  import EvidencePack

  const MAX_PACKS := 366
  const MAX_RECEIPTS := 100_000

  datatype MaHeader = MaHeader(
    exportId: Uuid, tenantId: Uuid, generatedAt: Stamp, scopeStart: Stamp, scopeEnd: Stamp,
    packCount: nat, anchorCount: nat, totalReceiptCount: nat)

  datatype Export = Export(
    exportType: string, header: MaHeader, packs: seq<EvidencePack.Pack>, anchors: seq<EvidencePack.Anchor>,
    maRootHash: Hex64, platformSignature: Option<Signature>, platformKeyId: Option<string>)

  datatype ExportError = InvertedScope | TooManyPacks | TooManyReceipts | ForeignPack

  // ----- The bound dict -----

  function HeaderKeys(): (keys: seq<string>)
    ensures |keys| == 8 && Distinct(keys)
  {
    ["export_id", "tenant_id", "generated_at", "scope_start", "scope_end", "pack_count", "anchor_count",
     "total_receipt_count"]
  }

  function HeaderValues(lib: Library, h: MaHeader): (vs: seq<Json>)
    ensures |vs| == 8 && AllHashable(vs)
  {
    [Str(h.exportId), Str(h.tenantId), Str(lib.iso(h.generatedAt)), Str(lib.iso(h.scopeStart)),
     Str(lib.iso(h.scopeEnd)), Num(h.packCount), Num(h.anchorCount), Num(h.totalReceiptCount)]
  }

  function BindHeader(lib: Library, h: MaHeader): Hashable { Struct(HeaderKeys(), HeaderValues(lib, h)) }

  function Strings(ss: seq<string>): (vs: seq<Json>)
    ensures |vs| == |ss| && AllHashable(vs)
  {
    seq(|ss|, i requires 0 <= i < |ss| => Str(ss[i]))
  }

  function PackRoots(packs: seq<EvidencePack.Pack>): (roots: seq<string>)
    ensures |roots| == |packs|
  {
    seq(|packs|, i requires 0 <= i < |packs| => packs[i].rootHash)
  }

  function AnchorIds(anchors: seq<EvidencePack.Anchor>): (ids: seq<string>)
    ensures |ids| == |anchors|
  {
    seq(|anchors|, i requires 0 <= i < |anchors| => anchors[i].anchorId)
  }

  /** `a.root_hash or ""` */
  function AnchorRoots(anchors: seq<EvidencePack.Anchor>): (roots: seq<string>)
    ensures |roots| == |anchors|
  {
    seq(|anchors|, i requires 0 <= i < |anchors| => OrEmpty(anchors[i].rootHash))
  }

  function BindKeys(): (keys: seq<string>)
    ensures |keys| == 4 && Distinct(keys)
  {
    ["header", "pack_root_hashes", "anchor_ids", "anchor_root_hashes"]
  }

  function BindValues(lib: Library, e: Export): (vs: seq<Json>)
    ensures |vs| == 4 && AllHashable(vs)
  {
    [BindHeader(lib, e.header), Items(Strings(PackRoots(e.packs))),
     Items(Strings(Sorting.Sort(Sorting.StringLe, AnchorIds(e.anchors)))), Items(Strings(AnchorRoots(e.anchors)))]
  }

  function Bind(lib: Library, e: Export): Hashable { Struct(BindKeys(), BindValues(lib, e)) }

  /** The names a bundle's header is bound under. */
  lemma HeaderNames(lib: Library, h: MaHeader)
    ensures var v := BindHeader(lib, h);
      && Said(v, "export_id") == Some(DStr(h.exportId)) && Said(v, "tenant_id") == Some(DStr(h.tenantId))
      && Said(v, "generated_at") == Some(DStr(lib.iso(h.generatedAt)))
      && Said(v, "scope_start") == Some(DStr(lib.iso(h.scopeStart))) && Said(v, "scope_end") == Some(DStr(lib.iso(h.scopeEnd)))
      && Said(v, "pack_count") == Some(DNum(h.packCount)) && Said(v, "anchor_count") == Some(DNum(h.anchorCount))
      && Said(v, "total_receipt_count") == Some(DNum(h.totalReceiptCount))
  {
    hide Said, Struct;
    var keys, vs, v := HeaderKeys(), HeaderValues(lib, h), BindHeader(lib, h);
    StructSays(keys, vs);
    assert Said(v, keys[0]) == Some(Meaning(vs[0])) && Said(v, keys[1]) == Some(Meaning(vs[1]));
    assert Said(v, keys[2]) == Some(Meaning(vs[2])) && Said(v, keys[3]) == Some(Meaning(vs[3]));
    assert Said(v, keys[4]) == Some(Meaning(vs[4])) && Said(v, keys[5]) == Some(Meaning(vs[5]));
    assert Said(v, keys[6]) == Some(Meaning(vs[6])) && Said(v, keys[7]) == Some(Meaning(vs[7]));
  }

  /** The parts of a bundle under their names: pack and anchor roots as listed, anchor ids rising. */
  lemma BoundNames(lib: Library, e: Export)
    ensures var v := Bind(lib, e);
            var sorted := Sorting.Sort(Sorting.StringLe, AnchorIds(e.anchors));
      && Said(v, "header") == Some(Meaning(BindHeader(lib, e.header)))
      && Said(v, "pack_root_hashes") == Some(Meaning(Arr(Strings(PackRoots(e.packs)))))
      && Said(v, "anchor_ids") == Some(Meaning(Arr(Strings(sorted))))
      && Said(v, "anchor_root_hashes") == Some(Meaning(Arr(Strings(AnchorRoots(e.anchors)))))
      && multiset(sorted) == multiset(AnchorIds(e.anchors))
      && (forall i, j :: 0 <= i < j < |sorted| ==> sorted[i] == sorted[j] || Sorting.Before(sorted[i], sorted[j]))
      && (forall i :: 0 <= i < |e.anchors| ==>
            AnchorRoots(e.anchors)[i] == if e.anchors[i].rootHash.Some? then e.anchors[i].rootHash.value else "")
  {
    hide Said, Struct, BindHeader, Strings, Meaning, Sorting.Sort, Sorting.Before, Sorting.Less, AnchorIds, PackRoots;
    var keys, vs, v := BindKeys(), BindValues(lib, e), Bind(lib, e);
    StructSays(keys, vs);
    assert Said(v, keys[0]) == Some(Meaning(vs[0])) && Said(v, keys[1]) == Some(Meaning(vs[1]));
    assert Said(v, keys[2]) == Some(Meaning(vs[2])) && Said(v, keys[3]) == Some(Meaning(vs[3]));
    IdsRise(AnchorIds(e.anchors));
  }

  lemma IdsRise(ids: seq<string>)
    ensures var sorted := Sorting.Sort(Sorting.StringLe, ids);
      && multiset(sorted) == multiset(ids)
      && (forall i, j :: 0 <= i < j < |sorted| ==> sorted[i] == sorted[j] || Sorting.Before(sorted[i], sorted[j]))
  {
    hide Sorting.Sort, Sorting.Before, Sorting.Less;
    var sorted := Sorting.Sort(Sorting.StringLe, ids);
    Sorting.StringLeIsTotalPreorder();
    Sorting.SortAscending(Sorting.StringLe, ids);
    Sorting.SortPermutes(Sorting.StringLe, ids);
    forall i, j | 0 <= i < j < |sorted| ensures sorted[i] == sorted[j] || Sorting.Before(sorted[i], sorted[j]) {
      assert Sorting.StringLe(sorted[i], sorted[j]);
      Sorting.LessTrichotomy(sorted[i], sorted[j]);
      Sorting.LessIsBefore(sorted[i], sorted[j]);
    }
  }

  function ExportText(lib: Library, e: Export): ByteString { Text(Bind(lib, e)) }

  function MaRoot(lib: Library, e: Export): Hex64 { lib.sha256(ExportText(lib, e)) }

  /** `verify_ma_diligence_export` */
  predicate Verify(lib: Library, e: Export)
  {
    MaRoot(lib, e) == e.maRootHash
  }

  // ----- Building -----

  function ReceiptTotal(packs: seq<EvidencePack.Pack>): nat
  {
    if packs == [] then 0 else packs[0].header.receiptCount + ReceiptTotal(packs[1..])
  }

  predicate AllPacksOf(packs: seq<EvidencePack.Pack>, tenantId: Uuid)
  {
    forall p | p in packs :: p.header.tenantId == tenantId
  }

  /** `build_ma_diligence_export` */
  function BuildExport(
    lib: Library, tenantId: Uuid, start: Stamp, end: Stamp, generatedAt: Stamp, packs: seq<EvidencePack.Pack>,
    anchors: seq<EvidencePack.Anchor>, exportId: Uuid
  ): Result<Export, ExportError>
  {
    if end.at < start.at then Failure(InvertedScope)
    else if |packs| > MAX_PACKS then Failure(TooManyPacks)
    else if ReceiptTotal(packs) > MAX_RECEIPTS then Failure(TooManyReceipts)
    else if !AllPacksOf(packs, tenantId) then Failure(ForeignPack)
    else
      var header := MaHeader(exportId, tenantId, generatedAt, start, end, |packs|, |anchors|, ReceiptTotal(packs));
      var draft := Export("forensa:MaDiligenceExport", header, packs, anchors, seq(64, _ => '0'), None, None);
      Success(draft.(maRootHash := MaRoot(lib, draft)))
  }

  /** A sum has no other value: nothing for no packs, and for one pack more, its count more. */
  lemma {:induction false} TotalGrows(packs: seq<EvidencePack.Pack>, p: EvidencePack.Pack)
    ensures ReceiptTotal([]) == 0
    ensures ReceiptTotal(packs + [p]) == ReceiptTotal(packs) + p.header.receiptCount
  {
    if packs != [] {
      TotalGrows(packs[1..], p);
      assert (packs + [p])[1..] == packs[1..] + [p];
    } else {
      assert [p][1..] == [];
    }
  }

  /**
    Exactly when a bundle is built, and else the first thing that is wrong: an
    inverted scope, more than 366 packs, more than 100,000 receipts, a pack of
    another tenant.
   */
  lemma BuildsExactlyWithinLimits(
    lib: Library, tenantId: Uuid, start: Stamp, end: Stamp, generatedAt: Stamp, packs: seq<EvidencePack.Pack>,
    anchors: seq<EvidencePack.Anchor>, exportId: Uuid
  )
    ensures var built := BuildExport(lib, tenantId, start, end, generatedAt, packs, anchors, exportId);
            var foreign := exists i :: 0 <= i < |packs| && packs[i].header.tenantId != tenantId;
      && (built.Success? <==> start.at <= end.at && |packs| <= 366 && ReceiptTotal(packs) <= 100_000 && !foreign)
      && (built == Failure(InvertedScope) <==> end.at < start.at)
      && (built == Failure(TooManyPacks) <==> start.at <= end.at && 366 < |packs|)
      && (built == Failure(TooManyReceipts) <==> start.at <= end.at && |packs| <= 366 && 100_000 < ReceiptTotal(packs))
      && (built == Failure(ForeignPack) <==> start.at <= end.at && |packs| <= 366 && ReceiptTotal(packs) <= 100_000 && foreign)
  {
    hide MaRoot, ReceiptTotal;
    assert AllPacksOf(packs, tenantId) <==> forall i :: 0 <= i < |packs| ==> packs[i].header.tenantId == tenantId;
  }

  /** A bundle that is built verifies, and its header counts what it carries. */
  lemma BuiltExportVerifies(
    lib: Library, tenantId: Uuid, start: Stamp, end: Stamp, generatedAt: Stamp, packs: seq<EvidencePack.Pack>,
    anchors: seq<EvidencePack.Anchor>, exportId: Uuid
  )
    ensures var built := BuildExport(lib, tenantId, start, end, generatedAt, packs, anchors, exportId);
      built.Success? ==>
        var e := built.value;
        && Verify(lib, e) && e.packs == packs && e.anchors == anchors
        && |packs| == e.header.packCount <= MAX_PACKS && |anchors| == e.header.anchorCount
        && ReceiptTotal(packs) == e.header.totalReceiptCount <= MAX_RECEIPTS
        && e.header.exportId == exportId && e.header.generatedAt == generatedAt
        && e.header.tenantId == tenantId && e.header.scopeStart == start && e.header.scopeEnd == end && start.at <= end.at
        && (forall p | p in packs :: p.header.tenantId == tenantId)
        && e.exportType == "forensa:MaDiligenceExport" && e.platformSignature.None? && e.platformKeyId.None?
  {
    hide Bind, Text;
    var built := BuildExport(lib, tenantId, start, end, generatedAt, packs, anchors, exportId);
    if built.Success? {
      SealIsUnbound(lib, built.value, seq(64, _ => '0'));
    }
  }

  lemma SealIsUnbound(lib: Library, e: Export, root: Hex64)
    ensures Bind(lib, e.(maRootHash := root)) == Bind(lib, e)
  {
    hide BindHeader, Items, Strings;
  }

  // ----- What the bundle's root fixes -----

  /** What `ma_root_hash` is taken over. */
  datatype Bound = Bound(header: MaHeader, packRoots: seq<string>, anchorIds: multiset<string>, anchorRoots: seq<string>)

  function BoundOf(e: Export): Bound
  {
    Bound(e.header, PackRoots(e.packs), multiset(AnchorIds(e.anchors)), AnchorRoots(e.anchors))
  }

  lemma StringsMeaning(a: seq<string>, b: seq<string>)
    ensures Meaning(Items(Strings(a))) == Meaning(Items(Strings(b))) <==> a == b
  {
    var vs, ws := Strings(a), Strings(b);
    ItemsSameMeaning(vs, ws);
    if SameMeanings(vs, ws) {
      forall i | 0 <= i < |a| ensures a[i] == b[i] {
        assert Meaning(vs[i]) == Meaning(ws[i]);
      }
    }
  }

  lemma SameHeaderValues(lib: Library, a: MaHeader, b: MaHeader)
    requires FaithfulIso(lib) && SameMeanings(HeaderValues(lib, a), HeaderValues(lib, b))
    ensures a == b
  {
    var vs, ws := HeaderValues(lib, a), HeaderValues(lib, b);
    assert Meaning(vs[0]) == Meaning(ws[0]) && Meaning(vs[1]) == Meaning(ws[1]) && Meaning(vs[2]) == Meaning(ws[2]);
    assert Meaning(vs[3]) == Meaning(ws[3]) && Meaning(vs[4]) == Meaning(ws[4]) && Meaning(vs[5]) == Meaning(ws[5]);
    assert Meaning(vs[6]) == Meaning(ws[6]) && Meaning(vs[7]) == Meaning(ws[7]);
  }

  lemma HeaderMeaning(lib: Library, a: MaHeader, b: MaHeader)
    requires FaithfulIso(lib)
    ensures Meaning(BindHeader(lib, a)) == Meaning(BindHeader(lib, b)) <==> a == b
  {
    hide HeaderValues, HeaderKeys, Meaning, SameMeanings;
    StructSameMeaning(HeaderKeys(), HeaderValues(lib, a), HeaderValues(lib, b));
    if SameMeanings(HeaderValues(lib, a), HeaderValues(lib, b)) {
      SameHeaderValues(lib, a, b);
    }
  }

  lemma ExportMeaning(lib: Library, a: Export, b: Export)
    requires FaithfulIso(lib)
    ensures Meaning(Bind(lib, a)) == Meaning(Bind(lib, b)) <==> BoundOf(a) == BoundOf(b)
  {
    hide BindHeader, Strings, Items, Meaning, Sorting.Sort, PackRoots, AnchorIds, AnchorRoots, BindKeys;
    var vs, ws := BindValues(lib, a), BindValues(lib, b);
    StructSameMeaning(BindKeys(), vs, ws);
    HeaderMeaning(lib, a.header, b.header);
    StringsMeaning(PackRoots(a.packs), PackRoots(b.packs));
    StringsMeaning(Sorting.Sort(Sorting.StringLe, AnchorIds(a.anchors)),
                   Sorting.Sort(Sorting.StringLe, AnchorIds(b.anchors)));
    Sorting.SortedStringsSameIffSameStrings(AnchorIds(a.anchors), AnchorIds(b.anchors));
    StringsMeaning(AnchorRoots(a.anchors), AnchorRoots(b.anchors));
    assert SameMeanings(vs, ws) <==>
             Meaning(vs[0]) == Meaning(ws[0]) && Meaning(vs[1]) == Meaning(ws[1])
             && Meaning(vs[2]) == Meaning(ws[2]) && Meaning(vs[3]) == Meaning(ws[3]);
  }

  ghost predicate AllPacksVerify(lib: Library, e: Export)
  {
    forall i :: 0 <= i < |e.packs| ==> EvidencePack.Verify(lib, e.packs[i])
  }

  /** Every canonical text whose digest a verifier of the bundle recomputes. */
  ghost function Texts(lib: Library, e: Export): set<ByteString>
  {
    {ExportText(lib, e)} + set i | 0 <= i < |e.packs| :: EvidencePack.PackText(lib, e.packs[i])
  }

  /** Two bundles with the same header, packs, anchor ids and anchor roots. */
  ghost predicate SameContent(a: Export, b: Export)
  {
    && a.header == b.header
    && |a.packs| == |b.packs|
    && (forall i :: 0 <= i < |a.packs| ==> EvidencePack.Shown(a.packs[i]) == EvidencePack.Shown(b.packs[i]))
    && multiset(AnchorIds(a.anchors)) == multiset(AnchorIds(b.anchors))
    && |a.anchors| == |b.anchors|
    && (forall i :: 0 <= i < |a.anchors| ==> a.anchors[i].rootHash == b.anchors[i].rootHash)
  }

  lemma SamePackRoots(lib: Library, a: Export, b: Export)
    requires FaithfulIso(lib) && AllPacksVerify(lib, a) && AllPacksVerify(lib, b)
    requires PackRoots(a.packs) == PackRoots(b.packs)
    ensures Clash(lib, Texts(lib, a), Texts(lib, b))
         || (|a.packs| == |b.packs| && forall i :: 0 <= i < |a.packs| ==>
               EvidencePack.Shown(a.packs[i]) == EvidencePack.Shown(b.packs[i]))
  {
    hide EvidencePack.Shown, EvidencePack.PackText, Clash, ExportText, FaithfulIso, EvidencePack.Verify;
    assert |a.packs| == |PackRoots(a.packs)| == |PackRoots(b.packs)| == |b.packs|;
    forall i | 0 <= i < |a.packs| && !Clash(lib, Texts(lib, a), Texts(lib, b))
      ensures EvidencePack.Shown(a.packs[i]) == EvidencePack.Shown(b.packs[i])
    {
      assert PackRoots(a.packs)[i] == PackRoots(b.packs)[i];
      EvidencePack.RootDeterminesPack(lib, a.packs[i], b.packs[i]);
      var x, y := {EvidencePack.PackText(lib, a.packs[i])}, {EvidencePack.PackText(lib, b.packs[i])};
      if Clash(lib, x, y) {
        ClashGrows(lib, x, y, Texts(lib, a), Texts(lib, b));
      }
    }
  }

  lemma SameAnchorRoots(a: Export, b: Export)
    ensures AnchorRoots(a.anchors) == AnchorRoots(b.anchors)
       <==> |a.anchors| == |b.anchors| && forall i :: 0 <= i < |a.anchors| ==> a.anchors[i].rootHash == b.anchors[i].rootHash
  {
    if AnchorRoots(a.anchors) == AnchorRoots(b.anchors) {
      assert |a.anchors| == |AnchorRoots(a.anchors)| == |AnchorRoots(b.anchors)| == |b.anchors|;
      forall i | 0 <= i < |a.anchors| ensures a.anchors[i].rootHash == b.anchors[i].rootHash {
        assert AnchorRoots(a.anchors)[i] == AnchorRoots(b.anchors)[i];
      }
    }
  }

  /**
    Two bundles that verify, all of whose packs verify, have the same root
    exactly when headers, packs, the multiset of anchor ids and the list of
    anchor root hashes agree; or two of the texts they bind collide.
   */
  lemma RootDeterminesExport(lib: Library, a: Export, b: Export)
    requires FaithfulIso(lib) && Verify(lib, a) && Verify(lib, b)
    requires AllPacksVerify(lib, a) && AllPacksVerify(lib, b)
    ensures a.maRootHash == b.maRootHash ==> SameContent(a, b) || Clash(lib, Texts(lib, a), Texts(lib, b))
    ensures SameContent(a, b) ==> a.maRootHash == b.maRootHash
  {
    hide Clash, Bind, FaithfulIso, Meaning, Text, EvidencePack.Shown, AllPacksVerify, AnchorRoots, PackRoots, AnchorIds;
    ExportMeaning(lib, a, b);
    DigestDetermines(lib, Bind(lib, a), Bind(lib, b));
    SameAnchorRoots(a, b);
    if a.maRootHash == b.maRootHash && !Clash(lib, Texts(lib, a), Texts(lib, b)) {
      if Clash(lib, {ExportText(lib, a)}, {ExportText(lib, b)}) {
        ClashGrows(lib, {ExportText(lib, a)}, {ExportText(lib, b)}, Texts(lib, a), Texts(lib, b));
      }
      SamePackRoots(lib, a, b);
    }
    if SameContent(a, b) {
      SameContentSamePackRoots(lib, a, b);
    }
  }

  lemma SameContentSamePackRoots(lib: Library, a: Export, b: Export)
    requires FaithfulIso(lib) && AllPacksVerify(lib, a) && AllPacksVerify(lib, b) && SameContent(a, b)
    ensures PackRoots(a.packs) == PackRoots(b.packs)
  {
    hide EvidencePack.Shown, EvidencePack.Verify, Clash, FaithfulIso;
    forall i | 0 <= i < |a.packs| ensures a.packs[i].rootHash == b.packs[i].rootHash {
      EvidencePack.RootDeterminesPack(lib, a.packs[i], b.packs[i]);
    }
  }

  // ----- What the bundle's root leaves free -----

  /** Whatever the root does not see, verification does not see either. */
  lemma SameBoundSameVerdict(lib: Library, e: Export, f: Export)
    requires FaithfulIso(lib) && Verify(lib, e) && BoundOf(e) == BoundOf(f) && f.maRootHash == e.maRootHash
    ensures Verify(lib, f)
  {
    hide Bind, BoundOf, Meaning, Text, FaithfulIso;
    ExportMeaning(lib, e, f);
    DigestDetermines(lib, Bind(lib, e), Bind(lib, f));
  }

  /** An anchor with another date, status, TSA, TSR, signature or time, but its own id and root. */
  predicate SameIdAndRoot(a: EvidencePack.Anchor, b: EvidencePack.Anchor)
  {
    a.anchorId == b.anchorId && a.rootHash == b.rootHash
  }

  /** Anchor `i` replaced by one of the same id and root. */
  lemma AnchorEditUnseen(lib: Library, e: Export, i: nat, anchor: EvidencePack.Anchor)
    requires FaithfulIso(lib) && Verify(lib, e) && i < |e.anchors| && SameIdAndRoot(anchor, e.anchors[i])
    ensures Verify(lib, e.(anchors := e.anchors[i := anchor]))
  {
    hide Bind, FaithfulIso, Verify;
    var f := e.(anchors := e.anchors[i := anchor]);
    assert AnchorIds(f.anchors) == AnchorIds(e.anchors) && AnchorRoots(f.anchors) == AnchorRoots(e.anchors);
    SameBoundSameVerdict(lib, e, f);
  }

  /** Two anchors trading their ids, each keeping its root. */
  function IdsTraded(anchors: seq<EvidencePack.Anchor>, i: nat, j: nat): seq<EvidencePack.Anchor>
    requires i < j < |anchors|
  {
    anchors[i := anchors[i].(anchorId := anchors[j].anchorId)][j := anchors[j].(anchorId := anchors[i].anchorId)]
  }

  lemma IdTradeUnseen(lib: Library, e: Export, i: nat, j: nat)
    requires FaithfulIso(lib) && Verify(lib, e) && i < j < |e.anchors|
    ensures Verify(lib, e.(anchors := IdsTraded(e.anchors, i, j)))
  {
    hide Bind, FaithfulIso, Verify;
    var f := e.(anchors := IdsTraded(e.anchors, i, j));
    assert AnchorRoots(f.anchors) == AnchorRoots(e.anchors);
    Sorting.SwapPermutes(AnchorIds(e.anchors), i, j);
    assert AnchorIds(f.anchors) == AnchorIds(e.anchors)[i := AnchorIds(e.anchors)[j]][j := AnchorIds(e.anchors)[i]];
    SameBoundSameVerdict(lib, e, f);
  }

  /** Pack `i` replaced by any pack that claims the same root. */
  lemma PackEditUnseen(lib: Library, e: Export, i: nat, pack: EvidencePack.Pack)
    requires FaithfulIso(lib) && Verify(lib, e) && i < |e.packs| && pack.rootHash == e.packs[i].rootHash
    ensures Verify(lib, e.(packs := e.packs[i := pack]))
  {
    hide Bind, FaithfulIso, Verify;
    var f := e.(packs := e.packs[i := pack]);
    assert PackRoots(f.packs) == PackRoots(e.packs);
    SameBoundSameVerdict(lib, e, f);
  }

  /**
    The documentation says that tampering with any included artefact invalidates
    the bundle. A bundle whose pack has been emptied of its receipts still
    verifies under the same root; only verifying that pack itself shows it, up to
    a collision.
   */
  lemma EmptiedPackStillVerifies(lib: Library, e: Export, i: nat)
    requires FaithfulIso(lib) && Verify(lib, e) && i < |e.packs|
    requires EvidencePack.Verify(lib, e.packs[i]) && e.packs[i].receipts != []
    ensures var emptied := e.packs[i].(receipts := []);
            var f := e.(packs := e.packs[i := emptied]);
      && f != e && f.maRootHash == e.maRootHash && Verify(lib, f)
      && (EvidencePack.Verify(lib, emptied) ==>
            Clash(lib, {EvidencePack.PackText(lib, e.packs[i])}, {EvidencePack.PackText(lib, emptied)}))
  {
    hide Bind, FaithfulIso, Verify, EvidencePack.Verify, EvidencePack.PackText, Clash;
    var emptied := e.packs[i].(receipts := []);
    PackEditUnseen(lib, e, i, emptied);
    assert e.packs[i := emptied][i] != e.packs[i];
    if EvidencePack.Verify(lib, emptied) {
      EvidencePack.RootDeterminesPack(lib, e.packs[i], emptied);
    }
  }

  // ----- Day-by-day chunks -----

  /** Half-open pieces of at most a day, laid end to end from `start` to `end`. */
  ghost predicate Tiles(chunks: seq<(Time, Time)>, start: Time, end: Time)
  {
    && (chunks == [] ==> start == end)
    && (chunks != [] ==> chunks[0].0 == start && chunks[|chunks| - 1].1 == end)
    && (forall i :: 0 <= i < |chunks| ==> 0 < chunks[i].1 - chunks[i].0 <= DAY)
    && (forall i :: 0 <= i < |chunks| - 1 ==> chunks[i].1 == chunks[i + 1].0 && chunks[i].1 - chunks[i].0 == DAY)
  }

  lemma TilesGrow(chunks: seq<(Time, Time)>, start: Time, cursor: Time, next: Time)
    requires Tiles(chunks, start, cursor) && 0 < next - cursor <= DAY
    requires forall i :: 0 <= i < |chunks| ==> chunks[i].1 - chunks[i].0 == DAY
    ensures Tiles(chunks + [(cursor, next)], start, next)
  {
  }

  method DailyChunks(start: Time, end: Time) returns (r: Result<seq<(Time, Time)>, ExportError>)
    ensures r.Failure? <==> end < start
    ensures r.Success? ==> Tiles(r.value, start, end)
  {
    hide Tiles;
    if end < start {
      return Failure(InvertedScope);
    }
    var chunks: seq<(Time, Time)> := [];
    var cursor := start;
    NoTiles(start);
    while cursor < end
      invariant Tiles(chunks, start, if cursor <= end then cursor else end)
      invariant cursor <= end ==> forall i :: 0 <= i < |chunks| ==> chunks[i].1 - chunks[i].0 == DAY
      decreases end - cursor
    {
      var nextDay := cursor + DAY;
      var chunkEnd := if nextDay <= end then nextDay else end;
      TilesGrow(chunks, start, cursor, chunkEnd);
      chunks := chunks + [(cursor, chunkEnd)];
      cursor := nextDay;
    }
    return Success(chunks);
  }

  lemma NoTiles(start: Time)
    ensures Tiles([], start, start)
  {
  }

  lemma TilesFirst(chunks: seq<(Time, Time)>, start: Time, end: Time, i: nat)
    requires Tiles(chunks, start, end) && i < |chunks|
    ensures chunks[i].0 == start + i * DAY
  {
    if i > 0 {
      TilesFirst(chunks, start, end, i - 1);
    }
  }

  /** Every instant of the scope but its last lies in exactly one chunk, the one numbered by whole days from the start. */
  lemma InstantInOneChunk(chunks: seq<(Time, Time)>, start: Time, end: Time, t: Time)
    requires Tiles(chunks, start, end) && start <= t < end
    ensures var n := (t - start) / DAY;
            0 <= n < |chunks| && forall i :: 0 <= i < |chunks| ==> (chunks[i].0 <= t < chunks[i].1 <==> i == n)
  {
    var n := (t - start) / DAY;
    assert start + n * DAY <= t < start + (n + 1) * DAY;
    TilesFirst(chunks, start, end, |chunks| - 1);
    forall i | 0 <= i < |chunks| ensures chunks[i].0 <= t < chunks[i].1 <==> i == n {
      TilesFirst(chunks, start, end, i);
      if i < |chunks| - 1 {
        assert chunks[i].1 == start + (i + 1) * DAY;
      }
    }
  }
}
