/**
  Which receipts a per-day export carries, and how often
  (packages/jobs/ma_export_runner.py:300-346, packages/export/ma_export.py:218-242).
  Chunks include both of their midnights, so a receipt signed exactly at the
  midnight between two anchored days is in both packs.
 */
module ExportAccounting {
  import opened Wrappers
  import opened Primitives
  import opened Receipts
  import opened Windows
  import opened AnchorDays
  import opened ExportPipeline
  import Sorting
  import EvidencePack
  import PackBuilder
  import MaExport

  /** Distinct UTC midnights. */
  ghost predicate Midnights(dates: seq<Time>)
  {
    && (forall i :: 0 <= i < |dates| ==> dates[i] % DAY == 0)
    && (forall i, j :: 0 <= i < j < |dates| ==> dates[i] != dates[j])
  }

  /** The window of the pack of midnight `date`. */
  predicate InWindow(t: Time, date: Time, end: Time)
  {
    date <= t <= if end < date + DAY then end else date + DAY
  }

  /** How many of these days' windows an instant lies in. */
  function Hits(dates: seq<Time>, end: Time, t: Time): nat
  {
    if dates == [] then 0
    else
      var n := |dates| - 1;
      Hits(dates[..n], end, t) + if InWindow(t, dates[n], end) then 1 else 0
  }

  /** Its own day is anchored. */
  predicate OwnDay(dates: seq<Time>, end: Time, t: Time)
  {
    t <= end && DayStart(t) in dates
  }

  /** It is a midnight that closes an anchored day. */
  predicate ClosesDay(dates: seq<Time>, end: Time, t: Time)
  {
    t <= end && t % DAY == 0 && t - DAY in dates
  }

  lemma WindowOfMidnight(t: Time, date: Time, end: Time)
    requires date % DAY == 0
    ensures InWindow(t, date, end) <==> t <= end && (DayStart(t) == date || (t % DAY == 0 && t - DAY == date))
  {
    assert t == t / DAY * DAY + t % DAY && date == date / DAY * DAY;
    var k := t / DAY - date / DAY;
    assert t - date == k * DAY + t % DAY;
  }

  /** An instant lies in the window of its own day and, at midnight, of the day before; in no other. */
  lemma {:induction false} HitsAre(dates: seq<Time>, end: Time, t: Time)
    requires Midnights(dates)
    ensures Hits(dates, end, t)
         == (if OwnDay(dates, end, t) then 1 else 0) + (if ClosesDay(dates, end, t) then 1 else 0)
  {
    hide InWindow, DayStart;
    if dates != [] {
      var n := |dates| - 1;
      HitsAre(dates[..n], end, t);
      WindowOfMidnight(t, dates[n], end);
      assert dates == dates[..n] + [dates[n]];
      assert dates[n] !in dates[..n];
      MidnightIsNotDayBefore(t);
    }
  }

  lemma MidnightIsNotDayBefore(t: Time)
    ensures DayStart(t) != t - DAY
  {
    assert t == t / DAY * DAY + t % DAY;
  }

  // ----- Counting over the table -----

  /** A tenant's rows that some pack carries. */
  function CountCarried(rows: seq<ReceiptRow>, tenantId: Uuid, dates: seq<Time>, end: Time): nat
  {
    if rows == [] then 0
    else
      var n := |rows| - 1;
      CountCarried(rows[..n], tenantId, dates, end)
      + if rows[n].receipt.tenantId == tenantId
           && (OwnDay(dates, end, rows[n].receipt.signedAt) || ClosesDay(dates, end, rows[n].receipt.signedAt))
        then 1 else 0
  }

  /** A tenant's rows that two packs carry. */
  function CountShared(rows: seq<ReceiptRow>, tenantId: Uuid, dates: seq<Time>, end: Time): nat
  {
    if rows == [] then 0
    else
      var n := |rows| - 1;
      CountShared(rows[..n], tenantId, dates, end)
      + if rows[n].receipt.tenantId == tenantId
           && OwnDay(dates, end, rows[n].receipt.signedAt) && ClosesDay(dates, end, rows[n].receipt.signedAt)
        then 1 else 0
  }

  /** Hits summed over a tenant's rows. */
  function HitSum(rows: seq<ReceiptRow>, tenantId: Uuid, dates: seq<Time>, end: Time): nat
  {
    if rows == [] then 0
    else
      var n := |rows| - 1;
      HitSum(rows[..n], tenantId, dates, end)
      + if rows[n].receipt.tenantId == tenantId then Hits(dates, end, rows[n].receipt.signedAt) else 0
  }

  /** Window sizes summed over the days. */
  function SizeSum(rows: seq<ReceiptRow>, tenantId: Uuid, dates: seq<Time>, end: Time): nat
  {
    if dates == [] then 0
    else
      var n := |dates| - 1;
      SizeSum(rows, tenantId, dates[..n], end) + |Matching(rows, tenantId, dates[n], WindowEnd(dates[n], end))|
  }

  function WindowEnd(date: Time, end: Time): Time
  {
    if end < date + DAY then end else date + DAY
  }

  lemma {:induction false} OneDayMore(rows: seq<ReceiptRow>, tenantId: Uuid, dates: seq<Time>, end: Time)
    requires dates != []
    ensures var n := |dates| - 1;
            HitSum(rows, tenantId, dates, end)
              == HitSum(rows, tenantId, dates[..n], end) + |Matching(rows, tenantId, dates[n], WindowEnd(dates[n], end))|
  {
    if rows != [] {
      OneDayMore(rows[..|rows| - 1], tenantId, dates, end);
    }
  }

  lemma {:induction false} NoDaysNoHits(rows: seq<ReceiptRow>, tenantId: Uuid, end: Time)
    ensures HitSum(rows, tenantId, [], end) == 0
  {
    if rows != [] {
      NoDaysNoHits(rows[..|rows| - 1], tenantId, end);
    }
  }

  /** Summing windows over days is summing hits over receipts. */
  lemma {:induction false} DoubleCounting(rows: seq<ReceiptRow>, tenantId: Uuid, dates: seq<Time>, end: Time)
    ensures SizeSum(rows, tenantId, dates, end) == HitSum(rows, tenantId, dates, end)
  {
    if dates == [] {
      NoDaysNoHits(rows, tenantId, end);
    } else {
      DoubleCounting(rows, tenantId, dates[..|dates| - 1], end);
      OneDayMore(rows, tenantId, dates, end);
    }
  }

  lemma {:induction false} HitSumIs(rows: seq<ReceiptRow>, tenantId: Uuid, dates: seq<Time>, end: Time)
    requires Midnights(dates)
    ensures HitSum(rows, tenantId, dates, end)
         == CountCarried(rows, tenantId, dates, end) + CountShared(rows, tenantId, dates, end)
  {
    hide Midnights, OwnDay, ClosesDay, Hits;
    if rows != [] {
      var n := |rows| - 1;
      HitSumIs(rows[..n], tenantId, dates, end);
      HitsAre(dates, end, rows[n].receipt.signedAt);
    }
  }

  // ----- The anchors of the scope are distinct midnights in order -----

  function Dates(rows: seq<AnchorRow>): (dates: seq<Time>)
    ensures |dates| == |rows|
    ensures forall i :: 0 <= i < |rows| ==> dates[i] == rows[i].anchorDate
  {
    seq(|rows|, i requires 0 <= i < |rows| => rows[i].anchorDate)
  }

  /** One tenant's rows, one per day, each dated by its midnight. */
  ghost predicate DayRows(rows: seq<AnchorRow>, tenantId: Uuid)
  {
    && (forall i :: 0 <= i < |rows| ==> rows[i].tenantId == tenantId && DayStart(rows[i].anchorDate) == rows[i].anchorDate)
    && (forall i, j :: 0 <= i < j < |rows| ==> rows[i].anchorDate != rows[j].anchorDate)
  }

  lemma {:induction false} ScopedDayRows(rows: seq<AnchorRow>, tenantId: Uuid, start: Time, end: Time)
    requires ValidTable(rows)
    ensures DayRows(Scoped(rows, tenantId, start, end), tenantId)
  {
    hide DayStart;
    if rows != [] {
      var rest := rows[1..];
      assert ValidTable(rest) by {
        forall i, j | 0 <= i < j < |rest|
          ensures !SameDay(rest[i], rest[j].tenantId, rest[j].anchorDate) && rest[i].id != rest[j].id
        {
          assert rest[i] == rows[i + 1] && rest[j] == rows[j + 1];
        }
        forall row | row in rest ensures Shaped(row) {
          assert row in rows;
        }
      }
      ScopedDayRows(rest, tenantId, start, end);
      ScopedMembers(rest, tenantId, start, end);
      var found := Scoped(rest, tenantId, start, end);
      if InScope(rows[0], tenantId, start, end) {
        assert Shaped(rows[0]);
        forall j | 0 <= j < |found| ensures found[j].anchorDate != rows[0].anchorDate {
          assert found[j] in found;
          var k :| 0 <= k < |rest| && rest[k] == found[j];
          assert rows[k + 1] == found[j] && !SameDay(rows[0], rows[k + 1].tenantId, rows[k + 1].anchorDate);
        }
      }
    }
  }

  lemma SortDayRows(rows: seq<AnchorRow>, tenantId: Uuid)
    requires DayRows(rows, tenantId)
    ensures DayRows(Sorting.Sort(ByDate, rows), tenantId)
  {
    hide DayStart, Sorting.Sort;
    var sorted := Sorting.Sort(ByDate, rows);
    Sorting.SortPermutes(ByDate, rows);
    Sorting.SameElements(sorted, rows);
    Sorting.DistinctStays(rows, sorted);
    forall i | 0 <= i < |sorted| ensures exists k :: 0 <= k < |rows| && rows[k] == sorted[i] {
      assert sorted[i] in rows;
    }
  }

  lemma DatesAreMidnights(rows: seq<AnchorRow>, tenantId: Uuid)
    requires DayRows(rows, tenantId)
    ensures Midnights(Dates(rows))
  {
    forall i | 0 <= i < |rows| ensures rows[i].anchorDate % DAY == 0 {
      assert rows[i].anchorDate == rows[i].anchorDate / DAY * DAY;
    }
  }

  /** On a valid table, the chunk of a scoped day is its window. */
  lemma ChunkIsWindow(row: AnchorRow, tenantId: Uuid, start: Stamp, end: Stamp)
    requires InScope(row, tenantId, start.at, end.at) && DayStart(row.anchorDate) == row.anchorDate
    ensures ChunkStart(row, start).at == row.anchorDate && ChunkEnd(row, end).at == WindowEnd(row.anchorDate, end.at)
  {
  }

  // ----- The account -----

  lemma {:induction false} PackTotal(
    lib: Library, receipts: seq<ReceiptRow>, tenantId: Uuid, rows: seq<AnchorRow>, start: Stamp, end: Stamp, now: Time,
    ids: nat -> PackBuilder.Ids, n: nat
  )
    requires n <= |rows| && DayRows(rows, tenantId)
    requires forall row | row in rows :: InScope(row, tenantId, start.at, end.at)
    requires Oversized(receipts, tenantId, rows, start, end).None?
    ensures TotalOf(DayPacks(lib, receipts, tenantId, rows, start, end, now, ids)[..n])
         == SizeSum(receipts, tenantId, Dates(rows)[..n], end.at)
  {
    hide Matching, Oversized, DayRows, InScope, DayPack;
    if n > 0 {
      PackTotal(lib, receipts, tenantId, rows, start, end, now, ids, n - 1);
      var packs := DayPacks(lib, receipts, tenantId, rows, start, end, now, ids);
      assert packs[..n][..n - 1] == packs[..n - 1];
      assert Dates(rows)[..n][..n - 1] == Dates(rows)[..n - 1];
      PackSize(lib, receipts, tenantId, rows, start, end, now, ids, n - 1);
    }
  }

  /** The receipt counts, added from the front as `sum` adds them, or from the back. */
  function TotalOf(packs: seq<EvidencePack.Pack>): nat
  {
    if packs == [] then 0 else TotalOf(packs[..|packs| - 1]) + packs[|packs| - 1].header.receiptCount
  }

  lemma {:induction false} TotalFromFront(packs: seq<EvidencePack.Pack>)
    ensures TotalOf(packs) == MaExport.ReceiptTotal(packs)
    decreases |packs|
  {
    if |packs| > 1 {
      var n := |packs| - 1;
      TotalFromFront(packs[..n]);
      TotalFromFront(packs[1..]);
      TotalFromFront(packs[1..n]);
      assert packs[1..][..n - 1] == packs[1..n] == packs[..n][1..];
    }
  }

  lemma PackSize(
    lib: Library, receipts: seq<ReceiptRow>, tenantId: Uuid, rows: seq<AnchorRow>, start: Stamp, end: Stamp, now: Time,
    ids: nat -> PackBuilder.Ids, i: nat
  )
    requires i < |rows| && DayRows(rows, tenantId) && InScope(rows[i], tenantId, start.at, end.at)
    requires Oversized(receipts, tenantId, rows, start, end).None?
    ensures DayPacks(lib, receipts, tenantId, rows, start, end, now, ids)[i].header.receiptCount
         == |Matching(receipts, tenantId, rows[i].anchorDate, WindowEnd(rows[i].anchorDate, end.at))|
  {
    hide Matching, Oversized, WindowQuery, DayStart;
    ChunkIsWindow(rows[i], tenantId, start, end);
    assert |DaySlice(receipts, tenantId, rows[i], start, end)| <= MAX_RECEIPTS_PER_PACK;
    var pack := DayPack(lib, receipts, tenantId, rows[i], start, end, now, ids(i));
    assert pack.header.receiptCount == |DaySlice(receipts, tenantId, rows[i], start, end)|;
    WindowFinds(receipts, tenantId, ChunkStart(rows[i], start).at, ChunkEnd(rows[i], end).at, MAX_RECEIPTS_PER_PACK + 1);
    Sorting.SameElements(DaySlice(receipts, tenantId, rows[i], start, end),
                         Matching(receipts, tenantId, ChunkStart(rows[i], start).at, ChunkEnd(rows[i], end).at));
  }

  /** The rows a successful pipeline ran over. */
  lemma {:induction false} PipelineRows(
    lib: Library, receipts: seq<ReceiptRow>, table: seq<AnchorRow>, tenantId: Uuid, start: Stamp, end: Stamp, now: Time,
    ids: ExportIds
  )
    requires ValidTable(table) && Pipeline(lib, receipts, table, tenantId, start, end, now, ids).Success?
    ensures var rows := AnchorsInScope(table, tenantId, start.at, end.at);
            var e := Pipeline(lib, receipts, table, tenantId, start, end, now, ids).value;
      && DayRows(rows, tenantId) && Midnights(Dates(rows))
      && (forall row :: row in rows <==> row in table && row.tenantId == tenantId && start.at <= row.anchorDate <= end.at)
      && (forall i, j :: 0 <= i < j < |rows| ==> rows[i].anchorDate < rows[j].anchorDate)
      && Oversized(receipts, tenantId, rows, start, end).None?
      && e.packs == DayPacks(lib, receipts, tenantId, rows, start, end, now, ids.packs) && e.anchors == Proofs(rows)
      && MaExport.Verify(lib, e)
      && e.header == MaExport.MaHeader(ids.exportId, tenantId, Utc(now), start, end, |rows|, |rows|, MaExport.ReceiptTotal(e.packs))
  {
    hide Sorting.Sort, Oversized, DayPacks, Proofs, MaExport.BuildExport, MaExport.Verify, ValidTable, DayStart, Sorting.Ascending,
         Scoped;
    var rows := AnchorsInScope(table, tenantId, start.at, end.at);
    ScopeRows(table, tenantId, start.at, end.at);
    DatesAscend(Scoped(table, tenantId, start.at, end.at), tenantId);
    MaExport.BuiltExportVerifies(lib, tenantId, start, end, Utc(now),
      DayPacks(lib, receipts, tenantId, rows, start, end, now, ids.packs), Proofs(rows), ids.exportId);
  }

  lemma DatesAscend(found: seq<AnchorRow>, tenantId: Uuid)
    requires DayRows(Sorting.Sort(ByDate, found), tenantId)
    ensures var rows := Sorting.Sort(ByDate, found);
            forall i, j :: 0 <= i < j < |rows| ==> rows[i].anchorDate < rows[j].anchorDate
  {
    hide Sorting.Sort, DayStart;
    assert Sorting.TotalPreorder(ByDate);
    Sorting.SortAscending(ByDate, found);
    var rows := Sorting.Sort(ByDate, found);
    forall i, j | 0 <= i < j < |rows| ensures rows[i].anchorDate < rows[j].anchorDate {
      assert ByDate(rows[i], rows[j]);
    }
  }

  // ----- Exactly when there is a bundle -----

  /** How many of the tenant's receipts the pack of midnight `date` must hold. */
  function WindowSize(receipts: seq<ReceiptRow>, tenantId: Uuid, date: Time, end: Time): nat
  {
    |Matching(receipts, tenantId, date, WindowEnd(date, end))|
  }

  lemma SliceSize(receipts: seq<ReceiptRow>, tenantId: Uuid, row: AnchorRow, start: Stamp, end: Stamp)
    requires InScope(row, tenantId, start.at, end.at) && DayStart(row.anchorDate) == row.anchorDate
    ensures |DaySlice(receipts, tenantId, row, start, end)| <= 1000 <==> WindowSize(receipts, tenantId, row.anchorDate, end.at) <= 1000
  {
    hide Matching, Sorting.Sort, DayStart;
    ChunkIsWindow(row, tenantId, start, end);
    var found := Matching(receipts, tenantId, row.anchorDate, WindowEnd(row.anchorDate, end.at));
    Sorting.SortPermutes(BySequence, found);
    Sorting.SameElements(Sorting.Sort(BySequence, found), found);
  }

  /** The first day, by date, whose window holds more than a pack may. */
  ghost predicate FirstOverfull(receipts: seq<ReceiptRow>, tenantId: Uuid, dates: seq<Time>, end: Time, i: nat)
  {
    && i < |dates| && 1000 < WindowSize(receipts, tenantId, dates[i], end)
    && forall j :: 0 <= j < i ==> WindowSize(receipts, tenantId, dates[j], end) <= 1000
  }

  ghost predicate IsFirstOverfull(receipts: seq<ReceiptRow>, tenantId: Uuid, dates: seq<Time>, end: Time, day: Time)
  {
    exists i: nat :: FirstOverfull(receipts, tenantId, dates, end, i) && dates[i] == day
  }

  /** Every day's window fits its pack. */
  ghost predicate AllFit(receipts: seq<ReceiptRow>, tenantId: Uuid, dates: seq<Time>, end: Time)
  {
    forall i :: 0 <= i < |dates| ==> WindowSize(receipts, tenantId, dates[i], end) <= 1000
  }

  lemma {:induction false} OversizedIsFirst(
    receipts: seq<ReceiptRow>, tenantId: Uuid, rows: seq<AnchorRow>, start: Stamp, end: Stamp
  )
    requires forall i :: 0 <= i < |rows| ==>
               InScope(rows[i], tenantId, start.at, end.at) && DayStart(rows[i].anchorDate) == rows[i].anchorDate
    ensures var dates := Dates(rows);
            var day := Oversized(receipts, tenantId, rows, start, end);
      && (day.None? <==> AllFit(receipts, tenantId, dates, end.at))
      && (day.Some? ==> IsFirstOverfull(receipts, tenantId, dates, end.at, day.value))
  {
    hide DaySlice, WindowSize, DayStart, AllFit, IsFirstOverfull, InScope;
    if rows == [] {
      NoDaysFit(receipts, tenantId, end.at);
    } else {
      var n := |rows| - 1;
      OversizedIsFirst(receipts, tenantId, rows[..n], start, end);
      SliceSize(receipts, tenantId, rows[n], start, end);
      assert Dates(rows[..n]) == Dates(rows)[..n];
      OverfullGrows(receipts, tenantId, Dates(rows), end.at);
    }
  }

  lemma NoDaysFit(receipts: seq<ReceiptRow>, tenantId: Uuid, end: Time)
    ensures AllFit(receipts, tenantId, [], end)
  {
  }

  /** One day more: an overfull day stays the first, and else only the last can be. */
  lemma OverfullGrows(receipts: seq<ReceiptRow>, tenantId: Uuid, dates: seq<Time>, end: Time)
    requires dates != []
    ensures var n := |dates| - 1;
      && (AllFit(receipts, tenantId, dates, end) <==>
            AllFit(receipts, tenantId, dates[..n], end) && WindowSize(receipts, tenantId, dates[n], end) <= 1000)
      && (forall day | IsFirstOverfull(receipts, tenantId, dates[..n], end, day) ::
            IsFirstOverfull(receipts, tenantId, dates, end, day) && !AllFit(receipts, tenantId, dates[..n], end))
      && (AllFit(receipts, tenantId, dates[..n], end) && 1000 < WindowSize(receipts, tenantId, dates[n], end) ==>
            IsFirstOverfull(receipts, tenantId, dates, end, dates[n]))
  {
    hide WindowSize;
    var n := |dates| - 1;
    assert forall i :: 0 <= i < n ==> dates[..n][i] == dates[i];
    forall day | IsFirstOverfull(receipts, tenantId, dates[..n], end, day)
      ensures IsFirstOverfull(receipts, tenantId, dates, end, day)
    {
      var i: nat :| FirstOverfull(receipts, tenantId, dates[..n], end, i) && dates[..n][i] == day;
      assert FirstOverfull(receipts, tenantId, dates, end, i);
    }
    if AllFit(receipts, tenantId, dates[..n], end) && 1000 < WindowSize(receipts, tenantId, dates[n], end) {
      assert FirstOverfull(receipts, tenantId, dates, end, n);
    }
  }

  /** The anchors of a scope on a valid table: that tenant's, within the scope, one per midnight. */
  lemma ScopeRows(table: seq<AnchorRow>, tenantId: Uuid, start: Time, end: Time)
    requires ValidTable(table)
    ensures var rows := AnchorsInScope(table, tenantId, start, end);
      && DayRows(rows, tenantId) && Midnights(Dates(rows))
      && (forall row :: row in rows <==> row in table && row.tenantId == tenantId && start <= row.anchorDate <= end)
      && (end < start ==> rows == [])
  {
    hide Sorting.Sort, Scoped, ValidTable, DayStart;
    var rows := AnchorsInScope(table, tenantId, start, end);
    ScopedDayRows(table, tenantId, start, end);
    SortDayRows(Scoped(table, tenantId, start, end), tenantId);
    DatesAreMidnights(rows, tenantId);
    AnchorsInScopeMembers(table, tenantId, start, end);
    if rows != [] {
      assert rows[0] in rows;
    }
  }

  lemma PacksAreOwn(
    lib: Library, receipts: seq<ReceiptRow>, tenantId: Uuid, rows: seq<AnchorRow>, start: Stamp, end: Stamp, now: Time,
    ids: nat -> PackBuilder.Ids
  )
    ensures var packs := DayPacks(lib, receipts, tenantId, rows, start, end, now, ids);
            forall i :: 0 <= i < |packs| ==> packs[i].header.tenantId == tenantId
  {
    hide DayPack;
    forall i | 0 <= i < |rows|
      ensures DayPack(lib, receipts, tenantId, rows[i], start, end, now, ids(i)).header.tenantId == tenantId
    {
      PackIsOwn(lib, receipts, tenantId, rows[i], start, end, now, ids(i));
    }
  }

  lemma PackIsOwn(
    lib: Library, receipts: seq<ReceiptRow>, tenantId: Uuid, row: AnchorRow, start: Stamp, end: Stamp, now: Time,
    ids: PackBuilder.Ids
  )
    ensures DayPack(lib, receipts, tenantId, row, start, end, now, ids).header.tenantId == tenantId
  {
    hide EvidencePack.RootHash, DaySlice, Sorting.Sort;
  }

  /** On a valid table the packs of the days that fit add up to the receipts carried and those carried twice. */
  lemma PacksAddUp(
    lib: Library, receipts: seq<ReceiptRow>, table: seq<AnchorRow>, tenantId: Uuid, start: Stamp, end: Stamp, now: Time,
    ids: nat -> PackBuilder.Ids
  )
    requires ValidTable(table)
    requires Oversized(receipts, tenantId, AnchorsInScope(table, tenantId, start.at, end.at), start, end).None?
    ensures var rows := AnchorsInScope(table, tenantId, start.at, end.at);
            var dates := Dates(rows);
            MaExport.ReceiptTotal(DayPacks(lib, receipts, tenantId, rows, start, end, now, ids))
              == CountCarried(receipts, tenantId, dates, end.at) + CountShared(receipts, tenantId, dates, end.at)
  {
    hide ValidTable, DayPacks, AnchorsInScope, DayRows, Midnights, Oversized;
    ScopeRows(table, tenantId, start.at, end.at);
    var rows := AnchorsInScope(table, tenantId, start.at, end.at);
    var packs := DayPacks(lib, receipts, tenantId, rows, start, end, now, ids);
    PackTotal(lib, receipts, tenantId, rows, start, end, now, ids, |rows|);
    assert packs[..|rows|] == packs && Dates(rows)[..|rows|] == Dates(rows);
    TotalFromFront(packs);
    DoubleCounting(receipts, tenantId, Dates(rows), end.at);
    HitSumIs(receipts, tenantId, Dates(rows), end.at);
  }

  /**
    Exactly when a scope can be exported, and else what is refused: at most 366
    anchored days, at most 1000 receipts in each day's window, and at most 100,000
    in all, where a receipt at a midnight between two anchored days counts twice.
   */
  lemma {:induction false} ExportsExactlyWithinLimits(
    lib: Library, receipts: seq<ReceiptRow>, table: seq<AnchorRow>, tenantId: Uuid, start: Stamp, end: Stamp, now: Time,
    ids: ExportIds
  )
    requires ValidTable(table)
    ensures var out := Pipeline(lib, receipts, table, tenantId, start, end, now, ids);
            var dates := Dates(AnchorsInScope(table, tenantId, start.at, end.at));
            var total := CountCarried(receipts, tenantId, dates, end.at) + CountShared(receipts, tenantId, dates, end.at);
            var fits := AllFit(receipts, tenantId, dates, end.at);
      && (out.Success? <==> start.at <= end.at && |dates| <= 366 && fits && total <= 100_000)
      && (out == Failure(Refused(MaExport.InvertedScope)) <==> end.at < start.at)
      && (out == Failure(TooManyDays) <==> 366 < |dates|)
      && (out.Failure? && out.error.DayTooLarge? <==> |dates| <= 366 && !fits)
      && (out.Failure? && out.error.DayTooLarge? ==> IsFirstOverfull(receipts, tenantId, dates, end.at, out.error.day))
      && (out == Failure(Refused(MaExport.TooManyReceipts)) <==> start.at <= end.at && |dates| <= 366 && fits && 100_000 < total)
  {
    hide ValidTable, AnchorsInScope, DayPacks, Proofs, MaExport.BuildExport, Oversized, DayStart, WindowSize, Midnights,
         CountCarried, CountShared, MaExport.ReceiptTotal, IsFirstOverfull, AllFit;
    ScopeRows(table, tenantId, start.at, end.at);
    var rows := AnchorsInScope(table, tenantId, start.at, end.at);
    assert forall i :: 0 <= i < |rows| ==> rows[i] in rows;
    OversizedIsFirst(receipts, tenantId, rows, start, end);
    var packs := DayPacks(lib, receipts, tenantId, rows, start, end, now, ids.packs);
    PacksAreOwn(lib, receipts, tenantId, rows, start, end, now, ids.packs);
    MaExport.BuildsExactlyWithinLimits(lib, tenantId, start, end, Utc(now), packs, Proofs(rows), ids.exportId);
    if Oversized(receipts, tenantId, rows, start, end).None? {
      PacksAddUp(lib, receipts, table, tenantId, start, end, now, ids.packs);
    }
  }

  /**
    The total of a bundle counts each of the tenant's receipts on an anchored day
    of the scope once, and once more each receipt signed exactly at a midnight
    between two anchored days.
   */
  lemma {:induction false} TotalIsDistinctPlusShared(
    lib: Library, receipts: seq<ReceiptRow>, table: seq<AnchorRow>, tenantId: Uuid, start: Stamp, end: Stamp, now: Time,
    ids: ExportIds
  )
    requires ValidTable(table) && Pipeline(lib, receipts, table, tenantId, start, end, now, ids).Success?
    ensures var e := Pipeline(lib, receipts, table, tenantId, start, end, now, ids).value;
            var dates := Dates(AnchorsInScope(table, tenantId, start.at, end.at));
      && e.header.totalReceiptCount == CountCarried(receipts, tenantId, dates, end.at) + CountShared(receipts, tenantId, dates, end.at)
      && MaExport.Verify(lib, e)
  {
    hide ValidTable, Pipeline, MaExport.Verify, DayPacks, AnchorsInScope, DayRows, Midnights, Oversized;
    PipelineRows(lib, receipts, table, tenantId, start, end, now, ids);
    PacksAddUp(lib, receipts, table, tenantId, start, end, now, ids.packs);
  }

  /**
    Pack by pack: the pack of an anchored day verifies and reports exactly the
    tenant's receipts signed in [day, min(day + 1, scope end)].
   */
  lemma {:induction false} PackHoldsItsWindow(
    lib: Library, receipts: seq<ReceiptRow>, table: seq<AnchorRow>, tenantId: Uuid, start: Stamp, end: Stamp, now: Time,
    ids: ExportIds, i: nat
  )
    requires ValidTable(table) && Pipeline(lib, receipts, table, tenantId, start, end, now, ids).Success?
    requires i < |AnchorsInScope(table, tenantId, start.at, end.at)|
    ensures var e := Pipeline(lib, receipts, table, tenantId, start, end, now, ids).value;
            var date := AnchorsInScope(table, tenantId, start.at, end.at)[i].anchorDate;
            var slice := DaySlice(receipts, tenantId, AnchorsInScope(table, tenantId, start.at, end.at)[i], start, end);
      && |e.packs| == |e.anchors| == |AnchorsInScope(table, tenantId, start.at, end.at)|
      && EvidencePack.Verify(lib, e.packs[i])
      && PackBuilder.Reports(e.packs[i], Sorting.Sort(BySequence, slice))
      && e.packs[i].header.tenantId == tenantId && e.packs[i].header.generatedAt == Utc(now)
      && e.packs[i].header.packId == ids.packs(i).pack
      && e.packs[i].header.scopeStart == Utc(date)
      && e.packs[i].header.scopeEnd == (if end.at < date + 86_400_000_000 then end else Utc(date + 86_400_000_000))
      && e.packs[i].anchor == Some(e.anchors[i])
      && e.anchors[i] == EvidenceOf(AnchorsInScope(table, tenantId, start.at, end.at)[i])
      && (forall row :: row in slice <==> row in receipts && row.receipt.tenantId == tenantId
                                          && InWindow(row.receipt.signedAt, date, end.at))
  {
    hide ValidTable, Pipeline, MaExport.Verify, AnchorsInScope, WindowQuery, PackBuilder.PackOf, Sorting.Sort, Matching,
         EvidencePack.Verify, PackBuilder.Reports, Oversized, DayStart, EvidenceOf, Midnights;
    PipelineRows(lib, receipts, table, tenantId, start, end, now, ids);
    var rows := AnchorsInScope(table, tenantId, start.at, end.at);
    var row := rows[i];
    assert row in rows;
    ChunkIsWindow(row, tenantId, start, end);
    var slice := DaySlice(receipts, tenantId, row, start, end);
    assert |slice| <= MAX_RECEIPTS_PER_PACK;
    PackBuilder.BuiltPackReports(lib, tenantId, Utc(now), ChunkStart(row, start), ChunkEnd(row, end), slice,
                                 Some(EvidenceOf(row)), ids.packs(i));
    WindowFinds(receipts, tenantId, ChunkStart(row, start).at, ChunkEnd(row, end).at, MAX_RECEIPTS_PER_PACK + 1);
    Sorting.SameElements(slice, Matching(receipts, tenantId, ChunkStart(row, start).at, ChunkEnd(row, end).at));
    MatchingMembers(receipts, tenantId, ChunkStart(row, start).at, ChunkEnd(row, end).at);
  }

  /** A receipt is in at most two packs, and in two exactly at a midnight shared by two anchored days. */
  lemma AtMostTwoPacks(table: seq<AnchorRow>, tenantId: Uuid, start: Stamp, end: Stamp, t: Time)
    requires ValidTable(table)
    ensures var dates := Dates(AnchorsInScope(table, tenantId, start.at, end.at));
      && Hits(dates, end.at, t) <= 2
      && (Hits(dates, end.at, t) == 2 <==> t <= end.at && t % DAY == 0 && t in dates && t - DAY in dates)
      && (Hits(dates, end.at, t) == 0 <==> forall i :: 0 <= i < |dates| ==> !InWindow(t, dates[i], end.at))
  {
    hide ValidTable, Midnights, Hits, InWindow, Scoped, Sorting.Sort;
    ScopedDayRows(table, tenantId, start.at, end.at);
    SortDayRows(Scoped(table, tenantId, start.at, end.at), tenantId);
    var dates := Dates(AnchorsInScope(table, tenantId, start.at, end.at));
    DatesAreMidnights(AnchorsInScope(table, tenantId, start.at, end.at), tenantId);
    HitsAre(dates, end.at, t);
    NoHits(dates, end.at, t);
    assert t == t / DAY * DAY + t % DAY;
  }

  lemma {:induction false} NoHits(dates: seq<Time>, end: Time, t: Time)
    ensures Hits(dates, end, t) == 0 <==> forall i :: 0 <= i < |dates| ==> !InWindow(t, dates[i], end)
  {
    hide InWindow;
    if dates != [] {
      var n := |dates| - 1;
      NoHits(dates[..n], end, t);
      assert forall i :: 0 <= i < n ==> dates[..n][i] == dates[i];
    }
  }
}
