/**
  Daily anchoring (packages/ledger/anchor.py:105-346). A call reads the day's
  row and the day's last receipt, asks the TSA, and only then replaces the row;
  ingest and other calls may run in between, and the TSA may fail.
 */
module AnchorDays {
  import opened Wrappers
  import opened Bytes
  import opened Primitives
  import opened Receipts
  import opened Windows
  import opened EvidencePack

  datatype AnchorRow = AnchorRow(
    id: Uuid, tenantId: Uuid, anchorDate: Time, rootHash: Option<Hex64>, tsaIdentifier: string,
    tsrBytes: Option<ByteString>, tsaSignature: Option<ByteString>, timestampedAt: Option<Time>, anchoredAt: Time,
    status: AnchorStatus)

  /** What the TSA client returns, or its error. */
  datatype TsaOutcome =
    | Unavailable
    | Stamped(identifier: string, tsr: ByteString, signature: ByteString, timestampedAt: Time)

  /** Chosen per call: the identifier override, the client's own one, a fresh id, the server clock. */
  datatype Settings = Settings(override: Option<string>, clientIdentifier: string, id: Uuid, now: Time)

  datatype AnchorResult = AnchorResult(
    anchorId: Uuid, status: AnchorStatus, rootHash: Option<Hex64>, timestampedAt: Option<Time>, receiptsCovered: nat)

  datatype AnchorError = AlreadyExists

  // ----- One day -----

  /** `_day_bounds`: UTC midnight and the last microsecond of the day. */
  function DayStart(t: Time): Time { t / DAY * DAY }

  function DayEnd(t: Time): Time { DayStart(t) + DAY - 1 }

  /** The days partition time. */
  lemma DayHoldsItsInstants(t: Time, u: Time)
    ensures DayStart(t) <= u <= DayEnd(t) <==> DayStart(u) == DayStart(t)
    ensures DayStart(DayStart(t)) == DayStart(t)
    ensures DayStart(t) <= t <= DayEnd(t) && DayStart(t) % (24 * 60 * 60 * 1_000_000) == 0
    ensures DayEnd(t) == DayStart(t) + 24 * 60 * 60 * 1_000_000 - 1
  {
    assert t == t / DAY * DAY + t % DAY;
    assert u == u / DAY * DAY + u % DAY;
    SameQuotient(t, u);
  }

  lemma SameQuotient(t: Time, u: Time)
    ensures t / DAY * DAY <= u < t / DAY * DAY + DAY <==> u / DAY == t / DAY
  {
  }

  /** `_get_latest_receipt_for_day`: highest sequence among the day's receipts. */
  function LatestOf(found: seq<ReceiptRow>): Option<ReceiptRow>
  {
    if found == [] then None
    else
      var n := |found| - 1;
      var best := LatestOf(found[..n]);
      if best.None? || best.value.receipt.sequence < found[n].receipt.sequence then Some(found[n]) else best
  }

  function LatestForDay(receipts: seq<ReceiptRow>, tenantId: Uuid, day: Time): Option<ReceiptRow>
  {
    LatestOf(Matching(receipts, tenantId, DayStart(day), DayEnd(day)))
  }

  lemma {:induction false} LatestOfIsHighest(found: seq<ReceiptRow>)
    ensures LatestOf(found).None? <==> found == []
    ensures LatestOf(found).Some? ==>
              && LatestOf(found).value in found
              && forall row | row in found :: row.receipt.sequence <= LatestOf(found).value.receipt.sequence
  {
    if found != [] {
      var n := |found| - 1;
      LatestOfIsHighest(found[..n]);
      assert found == found[..n] + [found[n]];
    }
  }

  /** The day's receipt picked as root is the tenant's of highest sequence signed that UTC day. */
  lemma LatestForDayIsHighest(receipts: seq<ReceiptRow>, tenantId: Uuid, day: Time)
    ensures var latest := LatestForDay(receipts, tenantId, day);
      && (latest.None? <==> forall row | row in receipts && row.receipt.tenantId == tenantId ::
                              DayStart(row.receipt.signedAt) != DayStart(day))
      && (latest.Some? ==>
            && latest.value in receipts && latest.value.receipt.tenantId == tenantId
            && DayStart(latest.value.receipt.signedAt) == DayStart(day)
            && forall row | row in receipts && row.receipt.tenantId == tenantId
                            && DayStart(row.receipt.signedAt) == DayStart(day) ::
                 row.receipt.sequence <= latest.value.receipt.sequence)
  {
    hide DayStart, DayEnd, Matching, LatestOf;
    var found := Matching(receipts, tenantId, DayStart(day), DayEnd(day));
    MatchingMembers(receipts, tenantId, DayStart(day), DayEnd(day));
    LatestOfIsHighest(found);
    forall row | row in receipts
      ensures row in found <==> row.receipt.tenantId == tenantId && DayStart(row.receipt.signedAt) == DayStart(day)
    {
      DayHoldsItsInstants(day, row.receipt.signedAt);
    }
    if found != [] {
      assert found[0] in found && found[0] in receipts;
    }
  }

  // ----- The table -----

  predicate SameDay(row: AnchorRow, tenantId: Uuid, date: Time)
  {
    row.tenantId == tenantId && row.anchorDate == date
  }

  function Existing(rows: seq<AnchorRow>, tenantId: Uuid, date: Time): (found: Option<AnchorRow>)
    ensures found.None? <==> forall row | row in rows :: !SameDay(row, tenantId, date)
    ensures found.Some? ==> found.value in rows && SameDay(found.value, tenantId, date)
  {
    if rows == [] then None
    else if SameDay(rows[0], tenantId, date) then Some(rows[0])
    else
      assert rows == [rows[0]] + rows[1..];
      Existing(rows[1..], tenantId, date)
  }

  function Without(rows: seq<AnchorRow>, id: Uuid): (kept: seq<AnchorRow>)
    ensures forall row :: row in kept <==> row in rows && row.id != id
  {
    if rows == [] then []
    else
      assert rows == [rows[0]] + rows[1..];
      (if rows[0].id != id then [rows[0]] else []) + Without(rows[1..], id)
  }

  /** Deleting the tombstone and inserting the new row under the unique constraint on (tenant, date). */
  function Replace(rows: seq<AnchorRow>, existing: Option<AnchorRow>, row: AnchorRow): Option<seq<AnchorRow>>
  {
    var kept := if existing.Some? then Without(rows, existing.value.id) else rows;
    if Existing(kept, row.tenantId, row.anchorDate).Some? then None else Some(kept + [row])
  }

  /** `tsa_identifier or default`: an empty override counts as none. */
  function Identifier(override: Option<string>, default: string): string
  {
    if override.Some? && override.value != "" then override.value else default
  }

  /** The row a call writes: a tombstone without a receipt or a stamp, an anchor with both. */
  function NewRow(tenantId: Uuid, date: Time, latest: Option<ReceiptRow>, tsa: TsaOutcome, settings: Settings): AnchorRow
  {
    if latest.Some? && tsa.Stamped? then
      AnchorRow(settings.id, tenantId, date, Some(latest.value.receipt.receiptHash),
                Identifier(settings.override, tsa.identifier), Some(tsa.tsr), Some(tsa.signature),
                Some(tsa.timestampedAt), settings.now, Anchored)
    else
      AnchorRow(settings.id, tenantId, date, None, Identifier(settings.override, settings.clientIdentifier), None, None, None,
                settings.now, Deferred)
  }

  /** Root, TSR, signature and time are null together, exactly on tombstones. */
  ghost predicate Shaped(row: AnchorRow)
  {
    && DayStart(row.anchorDate) == row.anchorDate
    && (row.status.Anchored? <==> row.rootHash.Some?) && (row.status.Anchored? <==> row.tsrBytes.Some?)
    && (row.status.Anchored? <==> row.tsaSignature.Some?) && (row.status.Anchored? <==> row.timestampedAt.Some?)
  }

  /** The row of a call, field by field: an anchor exactly when the day has a receipt and the TSA answers. */
  ghost predicate Records(
    row: AnchorRow, tenantId: Uuid, date: Time, latest: Option<ReceiptRow>, tsa: TsaOutcome, settings: Settings
  )
  {
    && row.id == settings.id && row.tenantId == tenantId && row.anchorDate == date && row.anchoredAt == settings.now
    && (row.status.Anchored? <==> latest.Some? && tsa.Stamped?)
    && (row.status.Anchored? ==>
          && row.rootHash == Some(latest.value.receipt.receiptHash) && row.tsrBytes == Some(tsa.tsr)
          && row.tsaSignature == Some(tsa.signature) && row.timestampedAt == Some(tsa.timestampedAt))
    && (row.status.Deferred? ==> row.rootHash.None? && row.tsrBytes.None? && row.tsaSignature.None? && row.timestampedAt.None?)
    && row.tsaIdentifier == (if settings.override.Some? && settings.override.value != "" then settings.override.value
                             else if row.status.Anchored? then tsa.identifier else settings.clientIdentifier)
  }

  ghost predicate OneRowPerDay(rows: seq<AnchorRow>)
  {
    forall i, j :: 0 <= i < j < |rows| ==> !SameDay(rows[i], rows[j].tenantId, rows[j].anchorDate)
  }

  ghost predicate DistinctIds(rows: seq<AnchorRow>)
  {
    forall i, j :: 0 <= i < j < |rows| ==> rows[i].id != rows[j].id
  }

  ghost predicate ValidTable(rows: seq<AnchorRow>)
  {
    OneRowPerDay(rows) && DistinctIds(rows) && forall row | row in rows :: Shaped(row)
  }

  /** The day's row, and no other, is replaced by `row`. */
  ghost predicate DayReplaced(before: seq<AnchorRow>, after: seq<AnchorRow>, tenantId: Uuid, date: Time, row: AnchorRow)
  {
    forall x :: x in after <==> x == row || (x in before && !SameDay(x, tenantId, date))
  }

  ghost predicate IsAnchored(rows: seq<AnchorRow>, tenantId: Uuid, date: Time)
  {
    exists row :: row in rows && SameDay(row, tenantId, date) && row.status.Anchored?
  }

  class AnchorTable {
    var rows: seq<AnchorRow>

    constructor ()
      ensures rows == [] && ValidTable(rows)
    {
      rows := [];
    }

    /**
      `anchor_day` with nothing running beside it: refused exactly when the day
      is anchored already; otherwise the day's row, and no other, is replaced,
      and it is an anchor exactly when the day has a receipt and the TSA answers.
     */
    method AnchorDay(receipts: seq<ReceiptRow>, tenantId: Uuid, day: Time, tsa: TsaOutcome, settings: Settings)
      returns (r: Result<AnchorResult, AnchorError>)
      requires ValidTable(rows) && IdUnused(rows, settings.id)
      modifies this
      ensures ValidTable(rows)
      ensures r.Failure? <==> IsAnchored(old(rows), tenantId, DayStart(day))
      ensures r.Failure? ==> r.error == AlreadyExists && rows == old(rows)
      ensures r.Success? ==>
                var latest := LatestForDay(receipts, tenantId, day);
                var row := NewRow(tenantId, DayStart(day), latest, tsa, settings);
                && Records(row, tenantId, DayStart(day), latest, tsa, settings)
                && DayReplaced(old(rows), rows, tenantId, DayStart(day), row)
                && r.value == AnchorResult(row.id, row.status, row.rootHash, row.timestampedAt,
                                           |Matching(receipts, tenantId, DayStart(day), DayEnd(day))|)
    {
      hide Matching, LatestOf, DayStart, DayEnd, OneRowPerDay, DistinctIds, Shaped, Records;
      var date := DayStart(day);
      var existing := Existing(rows, tenantId, date);
      ExistingIsUnique(rows, tenantId, date);
      if existing.Some? && existing.value.status.Anchored? {
        return Failure(AlreadyExists);
      }
      var latest := LatestForDay(receipts, tenantId, day);
      var row := NewRow(tenantId, date, latest, tsa, settings);
      NewRowShaped(tenantId, day, latest, tsa, settings);
      ReplaceOwnDay(rows, row, tenantId, date);
      if existing.Some? {
        rows := Without(rows, existing.value.id);
      }
      rows := rows + [row];
      var covered := Matching(receipts, tenantId, DayStart(day), DayEnd(day));
      return Success(AnchorResult(row.id, row.status, row.rootHash, row.timestampedAt, |covered|));
    }
  }

  ghost predicate IdUnused(rows: seq<AnchorRow>, id: Uuid)
  {
    forall row | row in rows :: row.id != id
  }

  lemma ExistingIsUnique(rows: seq<AnchorRow>, tenantId: Uuid, date: Time)
    requires OneRowPerDay(rows)
    ensures forall row | row in rows && SameDay(row, tenantId, date) :: Existing(rows, tenantId, date) == Some(row)
  {
    forall row | row in rows && SameDay(row, tenantId, date) ensures Existing(rows, tenantId, date) == Some(row) {
      var found := Existing(rows, tenantId, date).value;
      var i :| 0 <= i < |rows| && rows[i] == row;
      var j :| 0 <= j < |rows| && rows[j] == found;
      assert i == j;
    }
  }

  lemma {:induction false} WithoutKeepsOnePerDay(rows: seq<AnchorRow>, id: Uuid)
    requires OneRowPerDay(rows)
    ensures OneRowPerDay(Without(rows, id))
  {
    if rows != [] {
      forall i, j | 0 <= i < j < |rows[1..]| ensures !SameDay(rows[1..][i], rows[1..][j].tenantId, rows[1..][j].anchorDate) {
        assert rows[1..][i] == rows[i + 1] && rows[1..][j] == rows[j + 1];
      }
      WithoutKeepsOnePerDay(rows[1..], id);
      var kept := Without(rows[1..], id);
      forall j | 0 <= j < |kept| ensures !SameDay(rows[0], kept[j].tenantId, kept[j].anchorDate) {
        assert kept[j] in kept && kept[j] in rows[1..];
        var k :| 0 <= k < |rows[1..]| && rows[1..][k] == kept[j];
        assert rows[k + 1] == kept[j];
      }
    }
  }

  lemma AppendKeepsOnePerDay(rows: seq<AnchorRow>, row: AnchorRow)
    requires OneRowPerDay(rows) && Existing(rows, row.tenantId, row.anchorDate).None?
    ensures OneRowPerDay(rows + [row])
  {
    forall i, j | 0 <= i < j < |rows + [row]|
      ensures !SameDay((rows + [row])[i], (rows + [row])[j].tenantId, (rows + [row])[j].anchorDate)
    {
      if j == |rows| {
        assert rows[i] in rows;
      }
    }
  }

  lemma NewRowShaped(tenantId: Uuid, day: Time, latest: Option<ReceiptRow>, tsa: TsaOutcome, settings: Settings)
    ensures Shaped(NewRow(tenantId, DayStart(day), latest, tsa, settings))
    ensures Records(NewRow(tenantId, DayStart(day), latest, tsa, settings), tenantId, DayStart(day), latest, tsa, settings)
  {
    DayHoldsItsInstants(day, day);
  }

  lemma {:induction false} WithoutKeepsIds(rows: seq<AnchorRow>, id: Uuid)
    requires DistinctIds(rows)
    ensures DistinctIds(Without(rows, id))
  {
    if rows != [] {
      forall i, j | 0 <= i < j < |rows[1..]| ensures rows[1..][i].id != rows[1..][j].id {
        assert rows[1..][i] == rows[i + 1] && rows[1..][j] == rows[j + 1];
      }
      WithoutKeepsIds(rows[1..], id);
      var kept := Without(rows[1..], id);
      forall j | 0 <= j < |kept| ensures rows[0].id != kept[j].id {
        assert kept[j] in kept && kept[j] in rows[1..];
        var k :| 0 <= k < |rows[1..]| && rows[1..][k] == kept[j];
        assert rows[k + 1] == kept[j];
      }
    }
  }

  /** Deleting a row and adding one of a free day under a new id keeps the table valid. */
  lemma ReplaceKeepsTable(rows: seq<AnchorRow>, existing: Option<AnchorRow>, row: AnchorRow)
    requires ValidTable(rows) && IdUnused(rows, row.id) && Shaped(row)
    ensures Replace(rows, existing, row).Some? ==> ValidTable(Replace(rows, existing, row).value)
  {
    hide Shaped, OneRowPerDay;
    var kept := if existing.Some? then Without(rows, existing.value.id) else rows;
    if existing.Some? {
      WithoutKeepsOnePerDay(rows, existing.value.id);
      WithoutKeepsIds(rows, existing.value.id);
    }
    if Existing(kept, row.tenantId, row.anchorDate).None? {
      AppendKeepsOnePerDay(kept, row);
      forall i | 0 <= i < |kept| ensures kept[i].id != row.id {
        assert kept[i] in kept;
      }
    }
  }

  /** The row of an id is the only one with it. */
  lemma IdNamesOneRow(rows: seq<AnchorRow>, a: AnchorRow, b: AnchorRow)
    requires DistinctIds(rows) && a in rows && b in rows && a.id == b.id
    ensures a == b
  {
    var i :| 0 <= i < |rows| && rows[i] == a;
    var j :| 0 <= j < |rows| && rows[j] == b;
    assert i == j;
  }

  /** Replacing a day's own row always succeeds and touches exactly that day. */
  lemma ReplaceOwnDay(rows: seq<AnchorRow>, row: AnchorRow, tenantId: Uuid, date: Time)
    requires ValidTable(rows) && SameDay(row, tenantId, date) && IdUnused(rows, row.id) && Shaped(row)
    ensures var existing := Existing(rows, tenantId, date);
            var kept := if existing.Some? then Without(rows, existing.value.id) else rows;
      && Replace(rows, existing, row) == Some(kept + [row]) && ValidTable(kept + [row])
      && (forall x :: x in kept <==> x in rows && !SameDay(x, tenantId, date))
  {
    hide Shaped, OneRowPerDay, DistinctIds;
    var existing := Existing(rows, tenantId, date);
    var kept := if existing.Some? then Without(rows, existing.value.id) else rows;
    ExistingIsUnique(rows, tenantId, date);
    forall x ensures x in kept <==> x in rows && !SameDay(x, tenantId, date) {
      if existing.Some? && x in rows && x.id == existing.value.id {
        IdNamesOneRow(rows, x, existing.value);
      }
    }
    ReplaceKeepsTable(rows, existing, row);
  }

  // ----- Calls that overlap with ingest and with each other -----

  /** What one call has read so far. */
  datatype Look = Look(tenantId: Uuid, date: Time, existing: Option<AnchorRow>, latest: Option<ReceiptRow>)

  /** `issued` are all ids `uuid4` has handed out. */
  datatype System = System(
    receipts: seq<ReceiptRow>, rows: seq<AnchorRow>, calls: map<nat, Look>, issued: set<Uuid>)

  datatype Action =
    | Ingest(receipt: ReceiptRow)
    | Read(call: nat, tenantId: Uuid, day: Time)
    | Finish(call: nat, tsa: TsaOutcome, settings: Settings)
    | Crash(call: nat)

  function Forget(s: System, call: nat): System
  {
    s.(calls := s.calls - {call})
  }

  /** A refused commit, a day found anchored and a crash leave the table as it was. */
  function Step(s: System, a: Action): System
  {
    match a
    case Ingest(receipt) => s.(receipts := s.receipts + [receipt])
    case Read(call, tenantId, day) =>
      var existing := Existing(s.rows, tenantId, DayStart(day));
      if existing.Some? && existing.value.status.Anchored? then Forget(s, call)
      else s.(calls := s.calls[call := Look(tenantId, DayStart(day), existing, LatestForDay(s.receipts, tenantId, day))])
    case Finish(call, tsa, settings) =>
      if call !in s.calls then s
      else if settings.id in s.issued then Forget(s, call)
      else
        var look := s.calls[call];
        var row := NewRow(look.tenantId, look.date, look.latest, tsa, settings);
        var s' := Forget(s, call).(issued := s.issued + {settings.id});
        (match Replace(s.rows, look.existing, row)
         case None => s'
         case Some(rows) => s'.(rows := rows))
    case Crash(call) => Forget(s, call)
  }

  function Run(s: System, actions: seq<Action>): System
  {
    if actions == [] then s
    else Step(Run(s, actions[..|actions| - 1]), actions[|actions| - 1])
  }

  const Start := System([], [], map[], {})

  /** A row read earlier is a tombstone of its day, and its id still means it or nothing. */
  ghost predicate LookOk(s: System, look: Look)
  {
    && DayStart(look.date) == look.date
    && (look.existing.Some? ==>
          var e := look.existing.value;
          && SameDay(e, look.tenantId, look.date) && e.status.Deferred? && e.id in s.issued
          && forall row | row in s.rows && row.id == e.id :: row == e)
  }

  ghost predicate Invariant(s: System)
  {
    && ValidTable(s.rows)
    && (forall row | row in s.rows :: row.id in s.issued)
    && (forall c | c in s.calls :: LookOk(s, s.calls[c]))
  }

  lemma ReadOk(s: System, tenantId: Uuid, day: Time)
    requires Invariant(s)
    requires var existing := Existing(s.rows, tenantId, DayStart(day)); existing.None? || existing.value.status.Deferred?
    ensures LookOk(s, Look(tenantId, DayStart(day), Existing(s.rows, tenantId, DayStart(day)),
                           LatestForDay(s.receipts, tenantId, day)))
  {
    hide OneRowPerDay, Shaped, DistinctIds, LatestOf, Matching, DayStart;
    DayHoldsItsInstants(day, day);
    var existing := Existing(s.rows, tenantId, DayStart(day));
    if existing.Some? {
      forall row | row in s.rows && row.id == existing.value.id ensures row == existing.value {
        IdNamesOneRow(s.rows, row, existing.value);
      }
    }
  }

  lemma FinishKeepsInvariant(s: System, call: nat, tsa: TsaOutcome, settings: Settings)
    requires Invariant(s)
    ensures Invariant(Step(s, Finish(call, tsa, settings)))
    ensures forall row | row in s.rows && row.status.Anchored? :: row in Step(s, Finish(call, tsa, settings)).rows
  {
    hide OneRowPerDay, Shaped, DistinctIds, DayStart;
    var s' := Step(s, Finish(call, tsa, settings));
    if call in s.calls && settings.id !in s.issued {
      var look := s.calls[call];
      assert LookOk(s, look);
      var row := NewRow(look.tenantId, look.date, look.latest, tsa, settings);
      NewRowShaped(look.tenantId, look.date, look.latest, tsa, settings);
      ReplaceKeepsTable(s.rows, look.existing, row);
      forall c | c in s'.calls ensures LookOk(s', s'.calls[c]) {
        assert LookOk(s, s.calls[c]);
      }
    }
  }

  /** Every step keeps the table valid, and no anchored row is ever changed or removed. */
  lemma StepKeepsInvariant(s: System, a: Action)
    requires Invariant(s)
    ensures Invariant(Step(s, a))
    ensures forall row | row in s.rows && row.status.Anchored? :: row in Step(s, a).rows
  {
    hide ValidTable, LatestForDay, LookOk;
    match a
    case Ingest(receipt) => CallsStillOk(s, Step(s, a));
    case Read(call, tenantId, day) =>
      var existing := Existing(s.rows, tenantId, DayStart(day));
      CallsStillOk(s, Step(s, a));
      if existing.None? || existing.value.status.Deferred? {
        ReadOk(s, tenantId, day);
        CallsStillOk(s, Step(s, a));
      }
    case Finish(call, tsa, settings) => FinishKeepsInvariant(s, call, tsa, settings);
    case Crash(call) => CallsStillOk(s, Step(s, a));
  }

  lemma CallsStillOk(s: System, s': System)
    requires s'.rows == s.rows && s'.issued == s.issued
    ensures forall look: Look :: LookOk(s, look) <==> LookOk(s', look)
  {
  }

  lemma {:induction false} RunKeepsInvariant(actions: seq<Action>)
    ensures Invariant(Run(Start, actions))
  {
    hide Invariant, Step;
    if actions == [] {
      assert Invariant(Start) by {
        StartOk();
      }
    } else {
      RunKeepsInvariant(actions[..|actions| - 1]);
      StepKeepsInvariant(Run(Start, actions[..|actions| - 1]), actions[|actions| - 1]);
    }
  }

  lemma StartOk()
    ensures Invariant(Start)
  {
  }

  /**
    Whatever ingest, TSA failures, crashes and overlapping calls do: each tenant
    and UTC day has at most one row, and root, TSR, signature and time are null
    exactly on tombstones.
   */
  lemma OneShapedRowPerDay(actions: seq<Action>)
    ensures OneRowPerDay(Run(Start, actions).rows)
    ensures forall row | row in Run(Start, actions).rows :: Shaped(row)
  {
    hide Run;
    RunKeepsInvariant(actions);
  }

  /** An anchored row is never changed again. */
  lemma {:induction false} AnchorsArePermanent(actions: seq<Action>, later: seq<Action>)
    ensures forall row | row in Run(Start, actions).rows && row.status.Anchored? :: row in Run(Start, actions + later).rows
    decreases |later|
  {
    hide Invariant, Step;
    if later == [] {
      assert actions + later == actions;
    } else {
      var n := |later| - 1;
      var before := actions + later[..n];
      AnchorsArePermanent(actions, later[..n]);
      assert actions + later == before + [later[n]];
      assert (before + [later[n]])[..|before|] == before;
      RunKeepsInvariant(before);
      StepKeepsInvariant(Run(Start, before), later[n]);
    }
  }

  // ----- Calls do write -----

  /**
    A finish writes its row exactly when the day holds nothing but the tombstone
    the call had read, if any; otherwise its insert is refused and the table stays.
   */
  lemma FinishWritesIff(s: System, call: nat, tsa: TsaOutcome, settings: Settings)
    requires Invariant(s) && call in s.calls && settings.id !in s.issued
    ensures var look := s.calls[call];
            var row := NewRow(look.tenantId, look.date, look.latest, tsa, settings);
            var s' := Step(s, Finish(call, tsa, settings));
            var free := forall x | x in s.rows && SameDay(x, look.tenantId, look.date) :: look.existing == Some(x);
      && (row in s'.rows <==> free)
      && (free ==> DayReplaced(s.rows, s'.rows, look.tenantId, look.date, row))
      && (!free ==> s'.rows == s.rows)
      && Records(row, look.tenantId, look.date, look.latest, tsa, settings) && call !in s'.calls
  {
    hide OneRowPerDay, DistinctIds, DayStart, Records;
    var look := s.calls[call];
    assert LookOk(s, look);
    NewRowShaped(look.tenantId, look.date, look.latest, tsa, settings);
    var row := NewRow(look.tenantId, look.date, look.latest, tsa, settings);
    assert SameDay(row, look.tenantId, look.date) && IdUnused(s.rows, row.id);
    KeptOfDay(s.rows, look.existing, look.tenantId, look.date);
  }

  /** Once the tombstone read earlier is deleted, the other rows of its day are left. */
  lemma KeptOfDay(rows: seq<AnchorRow>, existing: Option<AnchorRow>, tenantId: Uuid, date: Time)
    requires existing.Some? ==> SameDay(existing.value, tenantId, date)
    requires existing.Some? ==> forall x | x in rows && x.id == existing.value.id :: x == existing.value
    ensures var kept := if existing.Some? then Without(rows, existing.value.id) else rows;
      && (forall x :: x in kept <==> x in rows && existing != Some(x))
      && (Existing(kept, tenantId, date).None? <==>
            forall x | x in rows && SameDay(x, tenantId, date) :: existing == Some(x))
  {
  }

  /**
    A read and a finish of one call with nothing in between do what `anchor_day`
    does with nothing beside it.
   */
  lemma {:induction false} CallIsOneRun(
    s: System, call: nat, tenantId: Uuid, day: Time, tsa: TsaOutcome, settings: Settings
  )
    requires Invariant(s) && settings.id !in s.issued
    ensures var s' := Run(s, [Read(call, tenantId, day), Finish(call, tsa, settings)]);
            var latest := LatestForDay(s.receipts, tenantId, day);
            var row := NewRow(tenantId, DayStart(day), latest, tsa, settings);
      && (IsAnchored(s.rows, tenantId, DayStart(day)) ==> s'.rows == s.rows)
      && (!IsAnchored(s.rows, tenantId, DayStart(day)) ==>
            && Records(row, tenantId, DayStart(day), latest, tsa, settings)
            && DayReplaced(s.rows, s'.rows, tenantId, DayStart(day), row))
  {
    hide LatestForDay, DayStart, LookOk, Shaped, DistinctIds, NewRow, Records, DayReplaced, OneRowPerDay;
    var read, finish := Read(call, tenantId, day), Finish(call, tsa, settings);
    assert [read, finish][..1] == [read] && [read][..0] == [];
    assert Run(s, []) == s && Run(s, [read]) == Step(s, read);
    assert Run(s, [read, finish]) == Step(Step(s, read), finish);
    StepKeepsInvariant(s, read);
    ExistingIsUnique(s.rows, tenantId, DayStart(day));
    var existing := Existing(s.rows, tenantId, DayStart(day));
    if existing.None? || existing.value.status.Deferred? {
      assert forall x | x in s.rows && SameDay(x, tenantId, DayStart(day)) :: existing == Some(x);
      FinishWritesIff(Step(s, read), call, tsa, settings);
    }
  }

  // ----- Where each row comes from -----

  predicate Touches(a: Action, call: nat)
  {
    (a.Read? || a.Finish? || a.Crash?) && a.call == call
  }

  /** No step of the call between `from` and `to`. */
  ghost predicate Quiet(actions: seq<Action>, call: nat, from: nat, to: nat)
  {
    to <= |actions| && forall k :: from <= k < to ==> !Touches(actions[k], call)
  }

  /** The call's read at step `i`, on `day`, found `latest`. */
  ghost predicate ReadAt(
    actions: seq<Action>, i: nat, call: nat, tenantId: Uuid, day: Time, date: Time, latest: Option<ReceiptRow>
  )
  {
    && i < |actions| && actions[i] == Read(call, tenantId, day) && DayStart(day) == date
    && latest == LatestForDay(Run(Start, actions[..i]).receipts, tenantId, day)
  }

  /** The look is what the call read at step `i`, its last step so far. */
  ghost predicate LookedAt(actions: seq<Action>, call: nat, look: Look, i: nat, day: Time)
  {
    ReadAt(actions, i, call, look.tenantId, day, look.date, look.latest) && Quiet(actions, call, i + 1, |actions|)
  }

  /**
    The row is what the call wrote when it finished at step `j`, out of what it
    had read at step `i`, with no step of its own in between.
   */
  ghost predicate WrittenAt(
    actions: seq<Action>, row: AnchorRow, i: nat, j: nat, call: nat, day: Time, latest: Option<ReceiptRow>,
    tsa: TsaOutcome, settings: Settings
  )
  {
    && i < j < |actions| && ReadAt(actions, i, call, row.tenantId, day, row.anchorDate, latest)
    && Quiet(actions, call, i + 1, j) && actions[j] == Finish(call, tsa, settings)
    && row == NewRow(row.tenantId, row.anchorDate, latest, tsa, settings)
  }

  ghost predicate Written(actions: seq<Action>, row: AnchorRow)
  {
    exists i, j, call, day, latest, tsa, settings :: WrittenAt(actions, row, i, j, call, day, latest, tsa, settings)
  }

  ghost predicate Looked(actions: seq<Action>, call: nat, look: Look)
  {
    exists i, day :: LookedAt(actions, call, look, i, day)
  }

  /** Every open look is its call's last read, and every row was written out of one. */
  ghost predicate History(actions: seq<Action>)
  {
    var s := Run(Start, actions);
    && (forall c | c in s.calls :: Looked(actions, c, s.calls[c]))
    && (forall row | row in s.rows :: Written(actions, row))
  }

  lemma ReadAtStays(
    actions: seq<Action>, a: Action, i: nat, call: nat, tenantId: Uuid, day: Time, date: Time, latest: Option<ReceiptRow>
  )
    requires ReadAt(actions, i, call, tenantId, day, date, latest)
    ensures ReadAt(actions + [a], i, call, tenantId, day, date, latest)
  {
    hide Run, LatestForDay, DayStart;
    assert (actions + [a])[..i] == actions[..i];
  }

  lemma WrittenStays(actions: seq<Action>, a: Action, row: AnchorRow)
    requires Written(actions, row)
    ensures Written(actions + [a], row)
  {
    hide ReadAt, NewRow;
    var i, j, call, day, latest, tsa, settings :| WrittenAt(actions, row, i, j, call, day, latest, tsa, settings);
    ReadAtStays(actions, a, i, call, row.tenantId, day, row.anchorDate, latest);
    assert WrittenAt(actions + [a], row, i, j, call, day, latest, tsa, settings);
  }

  lemma LookedStays(actions: seq<Action>, a: Action, call: nat, look: Look)
    requires Looked(actions, call, look) && !Touches(a, call)
    ensures Looked(actions + [a], call, look)
  {
    hide ReadAt;
    var i, day :| LookedAt(actions, call, look, i, day);
    ReadAtStays(actions, a, i, call, look.tenantId, day, look.date, look.latest);
    assert LookedAt(actions + [a], call, look, i, day);
  }

  lemma ReadIsLooked(actions: seq<Action>, call: nat, tenantId: Uuid, day: Time)
    ensures var s := Run(Start, actions);
            Looked(actions + [Read(call, tenantId, day)], call,
              Look(tenantId, DayStart(day), Existing(s.rows, tenantId, DayStart(day)), LatestForDay(s.receipts, tenantId, day)))
  {
    hide LatestForDay, DayStart, Run, Existing;
    var s := Run(Start, actions);
    var longer := actions + [Read(call, tenantId, day)];
    var look := Look(tenantId, DayStart(day), Existing(s.rows, tenantId, DayStart(day)), LatestForDay(s.receipts, tenantId, day));
    assert longer[..|actions|] == actions;
    assert LookedAt(longer, call, look, |actions|, day);
  }

  lemma FinishIsWritten(actions: seq<Action>, call: nat, look: Look, tsa: TsaOutcome, settings: Settings)
    requires Looked(actions, call, look)
    ensures Written(actions + [Finish(call, tsa, settings)], NewRow(look.tenantId, look.date, look.latest, tsa, settings))
  {
    hide ReadAt;
    var i, day :| LookedAt(actions, call, look, i, day);
    var a := Finish(call, tsa, settings);
    var row := NewRow(look.tenantId, look.date, look.latest, tsa, settings);
    ReadAtStays(actions, a, i, call, look.tenantId, day, look.date, look.latest);
    ReadAtIndex(actions, i, call, look.tenantId, day, look.date, look.latest);
    assert WrittenAt(actions + [a], row, i, |actions|, call, day, look.latest, tsa, settings);
  }

  lemma ReadAtIndex(
    actions: seq<Action>, i: nat, call: nat, tenantId: Uuid, day: Time, date: Time, latest: Option<ReceiptRow>
  )
    requires ReadAt(actions, i, call, tenantId, day, date, latest)
    ensures i < |actions|
  {
  }

  lemma FinishRows(s: System, call: nat, tsa: TsaOutcome, settings: Settings)
    ensures forall row | row in Step(s, Finish(call, tsa, settings)).rows ::
              row in s.rows
              || (call in s.calls
                  && row == NewRow(s.calls[call].tenantId, s.calls[call].date, s.calls[call].latest, tsa, settings))
  {
    hide NewRow;
  }

  /** Which looks a step leaves open: those of the calls it does not touch, and the one it opens. */
  lemma OpenLooks(s: System, a: Action)
    ensures forall c | c in Step(s, a).calls ::
              (!Touches(a, c) && c in s.calls && Step(s, a).calls[c] == s.calls[c])
              || (a.Read? && a.call == c
                  && Step(s, a).calls[c] == Look(a.tenantId, DayStart(a.day), Existing(s.rows, a.tenantId, DayStart(a.day)),
                                                 LatestForDay(s.receipts, a.tenantId, a.day)))
  {
    hide NewRow, LatestForDay, DayStart, Existing, Replace;
  }

  lemma StepKeepsHistory(actions: seq<Action>, a: Action)
    requires History(actions)
    ensures History(actions + [a])
  {
    hide Looked, Written, LatestForDay, DayStart, Existing, Without, Touches, NewRow, Replace;
    var s, s' := Run(Start, actions), Run(Start, actions + [a]);
    assert (actions + [a])[..|actions|] == actions;
    assert s' == Step(s, a);
    OpenLooks(s, a);
    forall c | c in s'.calls ensures Looked(actions + [a], c, s'.calls[c]) {
      if a.Read? && a.call == c {
        ReadIsLooked(actions, c, a.tenantId, a.day);
        if !(s'.calls[c] == Look(a.tenantId, DayStart(a.day), Existing(s.rows, a.tenantId, DayStart(a.day)),
                                 LatestForDay(s.receipts, a.tenantId, a.day))) {
          LookedStays(actions, a, c, s.calls[c]);
        }
      } else {
        LookedStays(actions, a, c, s.calls[c]);
      }
    }
    if a.Finish? {
      FinishRows(s, a.call, a.tsa, a.settings);
      if a.call in s.calls {
        FinishIsWritten(actions, a.call, s.calls[a.call], a.tsa, a.settings);
      }
    }
    forall row | row in s'.rows ensures Written(actions + [a], row) {
      if row in s.rows {
        WrittenStays(actions, a, row);
      }
    }
  }

  lemma {:induction false} RunKeepsHistory(actions: seq<Action>)
    ensures History(actions)
  {
    hide Looked, Written, Step;
    if actions != [] {
      var n := |actions| - 1;
      RunKeepsHistory(actions[..n]);
      StepKeepsHistory(actions[..n], actions[n]);
      assert actions == actions[..n] + [actions[n]];
    }
  }

  /**
    Every row comes from one call: it read the day's last receipt at some step
    `i`, took no step until it finished at a later step `j`, and wrote what the
    TSA's answer made of that very receipt.
   */
  lemma {:induction false} RowsComeFromTheirCall(actions: seq<Action>, row: AnchorRow)
    requires row in Run(Start, actions).rows
    ensures Written(actions, row)
  {
    hide Written, Run;
    RunKeepsHistory(actions);
  }

  /** The receipt anchored by the call that read it at step `i` and finished at step `j`. */
  ghost predicate AnchoredBy(
    actions: seq<Action>, row: AnchorRow, i: nat, j: nat, call: nat, day: Time, tsa: TsaOutcome, settings: Settings,
    r: ReceiptRow
  )
  {
    && i < j < |actions|
    && actions[i] == Read(call, row.tenantId, day) && DayStart(day) == row.anchorDate
    && actions[j] == Finish(call, tsa, settings) && settings.id == row.id && tsa.Stamped?
    && Quiet(actions, call, i + 1, j)
    && LatestForDay(Run(Start, actions[..i]).receipts, row.tenantId, day) == Some(r)
    && row.rootHash == Some(r.receipt.receiptHash) && row.timestampedAt == Some(tsa.timestampedAt)
  }

  /**
    The root of an anchored row is the hash of the receipt that had the highest
    sequence of the tenant's day at the very step at which the call that wrote the
    row had read it: not of any earlier one.
   */
  lemma {:induction false} AnchoredRootIsDaysLatest(actions: seq<Action>, row: AnchorRow)
    requires row in Run(Start, actions).rows && row.status.Anchored?
    ensures exists i, j, call, day, tsa, settings, r :: AnchoredBy(actions, row, i, j, call, day, tsa, settings, r)
  {
    hide Run, LatestForDay, DayStart, Quiet;
    RowsComeFromTheirCall(actions, row);
    var i, j, call, day, latest, tsa, settings :| WrittenAt(actions, row, i, j, call, day, latest, tsa, settings);
    assert AnchoredBy(actions, row, i, j, call, day, tsa, settings, latest.value);
  }
}
