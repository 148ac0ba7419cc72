/**
  From anchored days to a sealed bundle: the job's pipeline
  (packages/jobs/ma_export_runner.py:263-346) and the route's own copy of it
  (apps/api/routes/exports.py:177-266), with the exact account of which receipts
  end up where.
 */
module ExportPipeline {
  import opened Wrappers
  import opened Bytes
  import opened Primitives
  import opened Receipts
  import opened Windows
  import opened AnchorDays
  import Sorting
  import EvidencePack
  import PackBuilder
  import MaExport

  const MAX_PACKS_PER_BUNDLE := 366
  const MAX_RECEIPTS_PER_PACK := 1000

  datatype PipelineError = TooManyDays | DayTooLarge(day: Time) | Refused(e: MaExport.ExportError)

  /** The fresh ids of one export: its own, and those of its n-th pack. */
  datatype ExportIds = ExportIds(exportId: Uuid, packs: nat -> PackBuilder.Ids)

  /** `AnchorEvidence.from_anchor_row`: empty byte strings count as absent. */
  function EvidenceOf(row: AnchorRow): EvidencePack.Anchor
  {
    EvidencePack.Anchor(row.id, Utc(row.anchorDate), row.status, row.rootHash, row.tsaIdentifier, TextOf(row.tsrBytes),
                        TextOf(row.tsaSignature), StampOf(row.timestampedAt), Utc(row.anchoredAt))
  }

  function StampOf(t: Option<Time>): Option<Stamp>
  {
    if t.Some? then Some(Utc(t.value)) else None
  }

  function TextOf(bytes: Option<ByteString>): Option<string>
  {
    if bytes.Some? && bytes.value != [] then Some(Base64Encode(bytes.value, false)) else None
  }

  /** Base64 text standing for bytes, or nothing for none. */
  ghost predicate Shows(text: Option<string>, bytes: Option<ByteString>)
  {
    if bytes.None? || bytes.value == [] then text.None?
    else text.Some? && Base64Decode(text.value, false) == Some(bytes.value)
  }

  /** The evidence shows its row field by field; zero bytes show as none. */
  lemma EvidenceShowsRow(row: AnchorRow)
    ensures var e := EvidenceOf(row);
      && e.anchorId == row.id && e.anchorDate == Utc(row.anchorDate) && e.status == row.status && e.rootHash == row.rootHash
      && e.tsaIdentifier == row.tsaIdentifier && e.anchoredAt == Utc(row.anchoredAt)
      && (e.timestampedAt.Some? <==> row.timestampedAt.Some?)
      && (e.timestampedAt.Some? ==> e.timestampedAt.value == Utc(row.timestampedAt.value))
      && Shows(e.tsrBytesB64, row.tsrBytes) && Shows(e.tsaSignatureB64, row.tsaSignature)
  {
    hide Base64Encode, Base64Decode;
    TextShows(row.tsrBytes);
    TextShows(row.tsaSignature);
  }

  lemma TextShows(bytes: Option<ByteString>)
    ensures Shows(TextOf(bytes), bytes)
  {
    if bytes.Some? {
      Base64RoundTrip(bytes.value, false);
    }
  }

  // ----- The two queries -----

  predicate InScope(row: AnchorRow, tenantId: Uuid, start: Time, end: Time)
  {
    row.tenantId == tenantId && start <= row.anchorDate <= end
  }

  function Scoped(rows: seq<AnchorRow>, tenantId: Uuid, start: Time, end: Time): seq<AnchorRow>
  {
    if rows == [] then []
    else
      (if InScope(rows[0], tenantId, start, end) then [rows[0]] else []) + Scoped(rows[1..], tenantId, start, end)
  }

  predicate ByDate(a: AnchorRow, b: AnchorRow)
  {
    a.anchorDate <= b.anchorDate
  }

  function AnchorsInScope(rows: seq<AnchorRow>, tenantId: Uuid, start: Time, end: Time): seq<AnchorRow>
  {
    Sorting.Sort(ByDate, Scoped(rows, tenantId, start, end))
  }

  /** One day clipped to the scope; both endpoints belong to it. Of equal instants `max` and `min` keep the day's own. */
  function ChunkStart(row: AnchorRow, start: Stamp): Stamp
  {
    if DayStart(row.anchorDate) < start.at then start else Utc(DayStart(row.anchorDate))
  }

  function ChunkEnd(row: AnchorRow, end: Stamp): Stamp
  {
    if end.at < DayStart(row.anchorDate) + DAY then end else Utc(DayStart(row.anchorDate) + DAY)
  }

  function DaySlice(receipts: seq<ReceiptRow>, tenantId: Uuid, row: AnchorRow, start: Stamp, end: Stamp): seq<ReceiptRow>
  {
    WindowQuery(receipts, tenantId, ChunkStart(row, start).at, ChunkEnd(row, end).at, MAX_RECEIPTS_PER_PACK + 1)
  }

  // ----- What the pipeline must produce -----

  function DayPack(
    lib: Library, receipts: seq<ReceiptRow>, tenantId: Uuid, row: AnchorRow, start: Stamp, end: Stamp, now: Time,
    ids: PackBuilder.Ids
  ): EvidencePack.Pack
  {
    PackBuilder.PackOf(lib, tenantId, Utc(now), ChunkStart(row, start), ChunkEnd(row, end),
                       DaySlice(receipts, tenantId, row, start, end), Some(EvidenceOf(row)), ids)
  }

  function DayPacks(
    lib: Library, receipts: seq<ReceiptRow>, tenantId: Uuid, rows: seq<AnchorRow>, start: Stamp, end: Stamp, now: Time,
    ids: nat -> PackBuilder.Ids
  ): (packs: seq<EvidencePack.Pack>)
    ensures |packs| == |rows|
  {
    seq(|rows|, i requires 0 <= i < |rows| => DayPack(lib, receipts, tenantId, rows[i], start, end, now, ids(i)))
  }

  function Proofs(rows: seq<AnchorRow>): (proofs: seq<EvidencePack.Anchor>)
    ensures |proofs| == |rows|
  {
    seq(|rows|, i requires 0 <= i < |rows| => EvidenceOf(rows[i]))
  }

  /** The first day whose receipts overflow a pack. */
  function Oversized(receipts: seq<ReceiptRow>, tenantId: Uuid, rows: seq<AnchorRow>, start: Stamp, end: Stamp): (r: Option<Time>)
    ensures r.None? <==> forall i :: 0 <= i < |rows| ==>
              |DaySlice(receipts, tenantId, rows[i], start, end)| <= MAX_RECEIPTS_PER_PACK
  {
    if rows == [] then None
    else
      var n := |rows| - 1;
      var earlier := Oversized(receipts, tenantId, rows[..n], start, end);
      if earlier.Some? then earlier
      else if |DaySlice(receipts, tenantId, rows[n], start, end)| > MAX_RECEIPTS_PER_PACK then Some(rows[n].anchorDate)
      else None
  }

  function Pipeline(
    lib: Library, receipts: seq<ReceiptRow>, table: seq<AnchorRow>, tenantId: Uuid, start: Stamp, end: Stamp, now: Time,
    ids: ExportIds
  ): Result<MaExport.Export, PipelineError>
  {
    var rows := AnchorsInScope(table, tenantId, start.at, end.at);
    if |rows| > MAX_PACKS_PER_BUNDLE then Failure(TooManyDays)
    else match Oversized(receipts, tenantId, rows, start, end)
      case Some(day) => Failure(DayTooLarge(day))
      case None =>
        match MaExport.BuildExport(lib, tenantId, start, end, Utc(now),
                                   DayPacks(lib, receipts, tenantId, rows, start, end, now, ids.packs), Proofs(rows),
                                   ids.exportId)
        case Failure(e) => Failure(Refused(e))
        case Success(bundle) => Success(bundle)
  }

  // ----- The loops -----

  lemma OversizedStep(receipts: seq<ReceiptRow>, tenantId: Uuid, rows: seq<AnchorRow>, start: Stamp, end: Stamp, n: nat)
    requires n <= |rows| && Oversized(receipts, tenantId, rows[..n], start, end).Some?
    ensures Oversized(receipts, tenantId, rows, start, end) == Oversized(receipts, tenantId, rows[..n], start, end)
    decreases |rows| - n
  {
    if n == |rows| {
      assert rows[..n] == rows;
    } else {
      assert rows[..n + 1][..n] == rows[..n];
      OversizedStep(receipts, tenantId, rows, start, end, n + 1);
    }
  }

  lemma {:induction false} ScopedMembers(rows: seq<AnchorRow>, tenantId: Uuid, start: Time, end: Time)
    ensures forall row :: row in Scoped(rows, tenantId, start, end) <==> row in rows && InScope(row, tenantId, start, end)
  {
    if rows != [] {
      ScopedMembers(rows[1..], tenantId, start, end);
      assert rows == [rows[0]] + rows[1..];
    }
  }

  lemma AnchorsInScopeMembers(rows: seq<AnchorRow>, tenantId: Uuid, start: Time, end: Time)
    ensures forall row :: row in AnchorsInScope(rows, tenantId, start, end) <==> row in rows && InScope(row, tenantId, start, end)
  {
    ScopedMembers(rows, tenantId, start, end);
    Sorting.SortPermutes(ByDate, Scoped(rows, tenantId, start, end));
    Sorting.SameElements(AnchorsInScope(rows, tenantId, start, end), Scoped(rows, tenantId, start, end));
  }

  /** A day's slice is one tenant's, and its chunk is never inverted. */
  lemma DaySliceIsBuildable(receipts: seq<ReceiptRow>, tenantId: Uuid, row: AnchorRow, start: Stamp, end: Stamp)
    requires InScope(row, tenantId, start.at, end.at)
    ensures ChunkStart(row, start).at <= ChunkEnd(row, end).at
    ensures ChunkStart(row, start).at == if DayStart(row.anchorDate) < start.at then start.at else DayStart(row.anchorDate)
    ensures ChunkEnd(row, end).at == if end.at < DayStart(row.anchorDate) + DAY then end.at else DayStart(row.anchorDate) + DAY
    ensures PackBuilder.AllOf(DaySlice(receipts, tenantId, row, start, end), tenantId)
  {
    hide WindowQuery;
    WindowFinds(receipts, tenantId, ChunkStart(row, start).at, ChunkEnd(row, end).at, MAX_RECEIPTS_PER_PACK + 1);
    assert DayStart(row.anchorDate) <= row.anchorDate;
  }

  /** `_build_export` of the job runner. */
  method BuildForJob(
    lib: Library, receipts: seq<ReceiptRow>, table: seq<AnchorRow>, tenantId: Uuid, start: Stamp, end: Stamp, now: Time,
    ids: ExportIds
  ) returns (r: Result<MaExport.Export, PipelineError>)
    ensures r == Pipeline(lib, receipts, table, tenantId, start, end, now, ids)
  {
    hide DaySlice, EvidenceOf, MaExport.BuildExport, PackBuilder.PackOf, AnchorsInScope, ChunkStart, ChunkEnd;
    var rows := AnchorsInScope(table, tenantId, start.at, end.at);
    AnchorsInScopeMembers(table, tenantId, start.at, end.at);
    if |rows| > MAX_PACKS_PER_BUNDLE {
      return Failure(TooManyDays);
    }
    var proofs: seq<EvidencePack.Anchor> := [];
    var packs: seq<EvidencePack.Pack> := [];
    for i := 0 to |rows|
      invariant proofs == Proofs(rows[..i])
      invariant packs == DayPacks(lib, receipts, tenantId, rows[..i], start, end, now, ids.packs)
      invariant Oversized(receipts, tenantId, rows[..i], start, end).None?
    {
      var row := rows[i];
      assert rows[..i + 1] == rows[..i] + [row];
      assert row in rows;
      var evidence := EvidenceOf(row);
      proofs := proofs + [evidence];
      var pairs := DaySlice(receipts, tenantId, row, start, end);
      assert rows[..i + 1][..i] == rows[..i];
      if |pairs| > MAX_RECEIPTS_PER_PACK {
        OversizedStep(receipts, tenantId, rows, start, end, i + 1);
        return Failure(DayTooLarge(row.anchorDate));
      }
      DaySliceIsBuildable(receipts, tenantId, row, start, end);
      var pack := PackBuilder.BuildEvidencePack(
        lib, tenantId, Utc(now), ChunkStart(row, start), ChunkEnd(row, end), pairs, Some(evidence), ids.packs(i));
      packs := packs + [pack.value];
    }
    assert rows[..|rows|] == rows;
    var built := MaExport.BuildExport(lib, tenantId, start, end, Utc(now), packs, proofs, ids.exportId);
    if built.Failure? {
      return Failure(Refused(built.error));
    }
    return Success(built.value);
  }

  // ----- The route's copy -----

  datatype RouteError = TenantMismatch403 | NaiveTimestamps422 | InvertedScope422 | TooLarge413

  /** `export_ma_diligence`, up to its optional encryption. */
  method ExportRoute(
    lib: Library, receipts: seq<ReceiptRow>, table: seq<AnchorRow>, principal: Uuid, tenantId: Uuid,
    from: RequestTime, to: RequestTime, now: Time, ids: ExportIds
  ) returns (r: Result<MaExport.Export, RouteError>)
    ensures principal != tenantId <==> r == Failure(TenantMismatch403)
    ensures principal == tenantId ==>
              && (from.Naive? || to.Naive? <==> r == Failure(NaiveTimestamps422))
              && (from.Aware? && to.Aware? ==>
                    && (to.stamp.at < from.stamp.at <==> r == Failure(InvertedScope422))
                    && (from.stamp.at <= to.stamp.at ==>
                          match Pipeline(lib, receipts, table, tenantId, from.stamp, to.stamp, now, ids)
                          case Success(bundle) => r == Success(bundle)
                          case Failure(_) => r == Failure(TooLarge413)))
  {
    hide DaySlice, EvidenceOf, MaExport.BuildExport, PackBuilder.PackOf, AnchorsInScope, ChunkStart, ChunkEnd;
    if tenantId != principal {
      return Failure(TenantMismatch403);
    }
    if from.Naive? || to.Naive? {
      return Failure(NaiveTimestamps422);
    }
    var start, end := from.stamp, to.stamp;
    if end.at < start.at {
      return Failure(InvertedScope422);
    }
    var rows := AnchorsInScope(table, tenantId, start.at, end.at);
    AnchorsInScopeMembers(table, tenantId, start.at, end.at);
    if |rows| > MAX_PACKS_PER_BUNDLE {
      return Failure(TooLarge413);
    }
    var proofs: seq<EvidencePack.Anchor> := [];
    var packs: seq<EvidencePack.Pack> := [];
    for i := 0 to |rows|
      invariant proofs == Proofs(rows[..i])
      invariant packs == DayPacks(lib, receipts, tenantId, rows[..i], start, end, now, ids.packs)
      invariant Oversized(receipts, tenantId, rows[..i], start, end).None?
    {
      var row := rows[i];
      assert rows[..i + 1] == rows[..i] + [row];
      assert row in rows;
      var evidence := EvidenceOf(row);
      proofs := proofs + [evidence];
      var pairs := DaySlice(receipts, tenantId, row, start, end);
      assert rows[..i + 1][..i] == rows[..i];
      if |pairs| > MAX_RECEIPTS_PER_PACK {
        OversizedStep(receipts, tenantId, rows, start, end, i + 1);
        return Failure(TooLarge413);
      }
      DaySliceIsBuildable(receipts, tenantId, row, start, end);
      var pack := PackBuilder.BuildEvidencePack(
        lib, tenantId, Utc(now), ChunkStart(row, start), ChunkEnd(row, end), pairs, Some(evidence), ids.packs(i));
      packs := packs + [pack.value];
    }
    assert rows[..|rows|] == rows;
    var built := MaExport.BuildExport(lib, tenantId, start, end, Utc(now), packs, proofs, ids.exportId);
    if built.Failure? {
      return Failure(TooLarge413);
    }
    return Success(built.value);
  }
}
