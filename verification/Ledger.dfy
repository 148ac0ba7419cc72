/**
  Concurrent ingest (apps/api/ingest_service.py, packages/ledger/repositories.py).
  No lock is taken: a process reads the head, builds on it and commits later,
  when the head may be stale. Only uniqueness and append-only rows protect the
  chain.
 */
module Ledger {
  import opened Wrappers
  import opened Bytes
  import opened CanonicalJson
  import opened Primitives
  import opened Receipts

  /** packages/schema/event.py, after its validators. */
  datatype Event = Event(
    id: Uuid, tenantId: Uuid, agentId: Uuid, traceId: string, spanId: string, parentSpanId: Option<string>,
    kind: string, occurredAt: Stamp, payload: Value, reasoning: Option<string>, output: Option<string>,
    policyVersion: Option<string>, policyVerdict: Option<string>)

  datatype SnapshotRow = SnapshotRow(id: Uuid, tenantId: Uuid, snapshot: PolicySnapshot)

  /** The rows of other tables that foreign keys may point to. */
  datatype References = References(tenants: set<Uuid>, agents: set<Uuid>, bundles: set<Uuid>)

  /** The committed tables, rows in the order they were committed. */
  datatype Db = Db(known: References, snapshots: seq<SnapshotRow>, events: seq<Event>, receipts: seq<ReceiptRow>)

  datatype WriteError = BundleMismatch | TenantMismatch | EventMismatch | IntegrityError

  // ----- Reading -----

  /** A tenant's receipts in commit order. */
  function Chain(rows: seq<ReceiptRow>, tenantId: Uuid): seq<ReceiptRow>
  {
    if rows == [] then []
    else
      var n := |rows| - 1;
      Chain(rows[..n], tenantId) + (if rows[n].receipt.tenantId == tenantId then [rows[n]] else [])
  }

  /** `get_latest_receipt_for_tenant`: the row of highest sequence. */
  function Latest(rows: seq<ReceiptRow>, tenantId: Uuid): Option<ReceiptRow>
  {
    if rows == [] then None
    else
      var n := |rows| - 1;
      var best := Latest(rows[..n], tenantId);
      if rows[n].receipt.tenantId == tenantId
         && (best.None? || best.value.receipt.sequence < rows[n].receipt.sequence)
      then Some(rows[n]) else best
  }

  function HeadReceipt(db: Db, tenantId: Uuid): Option<Receipt>
  {
    match Latest(db.receipts, tenantId)
    case None => None
    case Some(row) => Some(row.receipt)
  }

  // ----- Writing -----

  /** The foreign keys of the three rows; those among the rows themselves hold by construction. */
  predicate ReferencesHold(db: Db, event: Event, bundleId: Uuid)
  {
    event.tenantId in db.known.tenants && event.agentId in db.known.agents && bundleId in db.known.bundles
  }

  /** The primary keys of the three rows. */
  predicate FreshIds(db: Db, event: Event, receipt: Receipt, snapshotId: Uuid)
  {
    && (forall s | s in db.snapshots :: s.id != snapshotId)
    && (forall e | e in db.events :: e.id != event.id)
    && (forall r | r in db.receipts :: r.receipt.id != receipt.id)
  }

  /** The unique constraint on (tenant, sequence). */
  predicate SequenceFree(db: Db, receipt: Receipt)
  {
    forall r | r in db.receipts ::
      r.receipt.tenantId != receipt.tenantId || r.receipt.sequence != receipt.sequence
  }

  /** The unique constraint on receipt_hash. */
  predicate HashFree(db: Db, receipt: Receipt)
  {
    forall r | r in db.receipts :: r.receipt.receiptHash != receipt.receiptHash
  }

  /** `write_event_with_receipt` and the commit that follows it: three rows, or an error and none. */
  function Write(db: Db, event: Event, snapshot: PolicySnapshot, receipt: Receipt, snapshotId: Uuid)
    : Result<Db, WriteError>
  {
    if receipt.policyBundleId != snapshot.policyBundleId then Failure(BundleMismatch)
    else if receipt.tenantId != event.tenantId then Failure(TenantMismatch)
    else if receipt.eventId != event.id then Failure(EventMismatch)
    else if ReferencesHold(db, event, snapshot.policyBundleId) && FreshIds(db, event, receipt, snapshotId)
            && SequenceFree(db, receipt) && HashFree(db, receipt) then
      Success(Db(
        db.known,
        db.snapshots + [SnapshotRow(snapshotId, event.tenantId, snapshot)],
        db.events + [event],
        db.receipts + [ReceiptRow(receipt, snapshotId)]))
    else Failure(IntegrityError)
  }

  /**
    Exactly what a write demands, and in which order: the three guards, then the
    foreign keys, the primary keys and the two unique constraints; and the rows it
    adds, one to the end of each table.
   */
  lemma WritesExactlyWhen(db: Db, event: Event, snapshot: PolicySnapshot, receipt: Receipt, snapshotId: Uuid)
    ensures var r := Write(db, event, snapshot, receipt, snapshotId);
            var aligned := receipt.policyBundleId == snapshot.policyBundleId && receipt.tenantId == event.tenantId
                           && receipt.eventId == event.id;
            var accepted :=
              && event.tenantId in db.known.tenants && event.agentId in db.known.agents
              && snapshot.policyBundleId in db.known.bundles
              && (forall i :: 0 <= i < |db.snapshots| ==> db.snapshots[i].id != snapshotId)
              && (forall i :: 0 <= i < |db.events| ==> db.events[i].id != event.id)
              && (forall i :: 0 <= i < |db.receipts| ==>
                    var other := db.receipts[i].receipt;
                    && other.id != receipt.id && other.receiptHash != receipt.receiptHash
                    && (other.tenantId != receipt.tenantId || other.sequence != receipt.sequence));
      && (r == Failure(BundleMismatch) <==> receipt.policyBundleId != snapshot.policyBundleId)
      && (r == Failure(TenantMismatch) <==>
            receipt.policyBundleId == snapshot.policyBundleId && receipt.tenantId != event.tenantId)
      && (r == Failure(EventMismatch) <==>
            receipt.policyBundleId == snapshot.policyBundleId && receipt.tenantId == event.tenantId && receipt.eventId != event.id)
      && (r == Failure(IntegrityError) <==> aligned && !accepted)
      && (r.Success? <==> aligned && accepted)
      && (r.Success? ==>
            && r.value.known == db.known
            && r.value.snapshots == db.snapshots + [SnapshotRow(snapshotId, event.tenantId, snapshot)]
            && r.value.events == db.events + [event]
            && r.value.receipts == db.receipts + [ReceiptRow(receipt, snapshotId)])
  {
    assert forall i :: 0 <= i < |db.snapshots| ==> db.snapshots[i] in db.snapshots;
    assert forall i :: 0 <= i < |db.events| ==> db.events[i] in db.events;
    assert forall i :: 0 <= i < |db.receipts| ==> db.receipts[i] in db.receipts;
  }

  // ----- Many processes -----

  /** What one POST brings with it, and the fresh ids and keys it is given. */
  datatype Request = Request(
    event: Event, snapshot: PolicySnapshot, snapshotId: Uuid, receiptId: Uuid,
    tenantKey: ByteString, agentKey: Option<ByteString>)

  datatype Process =
    | Idle
    | HeadRead(req: Request, head: Option<Receipt>)
    | Built(req: Request, receipt: Receipt)
    | Finished(committed: bool)

  datatype System = System(db: Db, processes: map<nat, Process>, now: Time)

  /** One atomic step of one process, a crash of one, the clock moving, or rows appearing in other tables. */
  datatype Action =
    | ReadHead(p: nat, req: Request)
    | Build(p: nat)
    | Commit(p: nat)
    | Abort(p: nat)
    | SetClock(t: Time)
    | Register(more: References)

  function ProcessOf(s: System, p: nat): Process
  {
    if p in s.processes then s.processes[p] else Idle
  }

  function Move(s: System, p: nat, next: Process): System
  {
    s.(processes := s.processes[p := next])
  }

  function BuildFor(lib: Library, req: Request, head: Option<Receipt>, now: Time): Result<Receipt, BuildError>
  {
    BuildReceipt(lib, req.event.tenantId, req.event.id, req.event.payload, req.snapshot, req.snapshotId, head,
                 req.tenantKey, req.agentKey, req.receiptId, now)
  }

  function Step(lib: Library, s: System, a: Action): System
  {
    match a
    case ReadHead(p, req) => Move(s, p, HeadRead(req, HeadReceipt(s.db, req.event.tenantId)))
    case Build(p) =>
      (match ProcessOf(s, p)
       case HeadRead(req, head) =>
         (match BuildFor(lib, req, head, s.now)
          case Failure(_) => Move(s, p, Finished(false))
          case Success(receipt) => Move(s, p, Built(req, receipt)))
       case _ => s)
    case Commit(p) =>
      (match ProcessOf(s, p)
       case Built(req, receipt) =>
         (match Write(s.db, req.event, req.snapshot, receipt, req.snapshotId)
          case Failure(_) => Move(s, p, Finished(false))
          case Success(db) => Move(s, p, Finished(true)).(db := db))
       case _ => s)
    case Abort(p) => Move(s, p, Finished(false))
    case SetClock(t) => s.(now := t)
    case Register(more) => s.(db := s.db.(known := Joined(s.db.known, more)))
  }

  function Joined(a: References, b: References): References
  {
    References(a.tenants + b.tenants, a.agents + b.agents, a.bundles + b.bundles)
  }

  /** The system after a run: any list of actions is an interleaving. */
  function Run(lib: Library, s: System, actions: seq<Action>): System
  {
    if actions == [] then s
    else Step(lib, Run(lib, s, actions[..|actions| - 1]), actions[|actions| - 1])
  }

  function Start(now: Time): System
  {
    System(Db(References({}, {}, {}), [], [], []), map[], now)
  }

  /** The clock never goes back along the run. */
  predicate ClockNeverFallsBack(lib: Library, s: System, actions: seq<Action>)
  {
    forall i :: 0 <= i < |actions| && actions[i].SetClock? ==> Run(lib, s, actions[..i]).now <= actions[i].t
  }

  // ----- What every reachable state keeps -----

  /** The receipt row has its event and snapshot beside it, and binds that event's payload. */
  ghost predicate Accounted(lib: Library, db: Db, row: ReceiptRow)
  {
    && (exists e :: e in db.events && e.id == row.receipt.eventId && e.tenantId == row.receipt.tenantId
                    && Sha256Hex(lib, e.payload) == Success(row.receipt.payloadHash))
    && (exists s :: s in db.snapshots && s.id == row.snapshotId && s.tenantId == row.receipt.tenantId
                    && s.snapshot.policyBundleId == row.receipt.policyBundleId)
  }

  ghost predicate TimeOrdered(rows: seq<ReceiptRow>)
  {
    forall i, j :: 0 <= i <= j < |rows| ==> rows[i].receipt.signedAt <= rows[j].receipt.signedAt
  }

  /** No two rows of a table share an id, nor two receipts a hash. */
  ghost predicate Keyed(db: Db)
  {
    && (forall i, j :: 0 <= i < j < |db.snapshots| ==> db.snapshots[i].id != db.snapshots[j].id)
    && (forall i, j :: 0 <= i < j < |db.events| ==> db.events[i].id != db.events[j].id)
    && (forall i, j :: 0 <= i < j < |db.receipts| ==>
          && db.receipts[i].receipt.id != db.receipts[j].receipt.id
          && db.receipts[i].receipt.receiptHash != db.receipts[j].receipt.receiptHash)
  }

  ghost predicate Sound(lib: Library, db: Db)
  {
    && Keyed(db)
    && (forall t: Uuid :: ValidChain(lib, Chain(db.receipts, t)))
    && (forall row | row in db.receipts :: Accounted(lib, db, row))
  }

  ghost predicate Timely(db: Db, now: Time)
  {
    && (forall t: Uuid :: TimeOrdered(Chain(db.receipts, t)))
    && (forall row | row in db.receipts :: row.receipt.signedAt <= now)
  }

  /** `row` is a committed predecessor of `r`; `timed` adds that it was signed no later. */
  ghost predicate Precedes(row: ReceiptRow, r: Receipt, timed: bool)
  {
    && row.receipt.tenantId == r.tenantId
    && r.sequence == row.receipt.sequence + 1
    && r.prevReceiptHash == Some(row.receipt.receiptHash)
    && (timed ==> row.receipt.signedAt <= r.signedAt)
  }

  /** A built receipt stands on some committed row, current or not. */
  ghost predicate StandsOn(lib: Library, db: Db, req: Request, r: Receipt, timed: bool)
  {
    && r.tenantId == req.event.tenantId && r.eventId == req.event.id
    && r.policyBundleId == req.snapshot.policyBundleId
    && Sha256Hex(lib, req.event.payload) == Success(r.payloadHash)
    && Consistent(lib, ReceiptRow(r, req.snapshotId))
    && ((r.sequence == 0 && r.prevReceiptHash == None)
        || exists row :: row in db.receipts && Precedes(row, r, timed))
  }

  ghost predicate ProcessOk(lib: Library, s: System, process: Process, timed: bool)
  {
    match process
    case HeadRead(req, head) =>
      head.Some? ==> exists row :: row in s.db.receipts && row.receipt == head.value
                                   && row.receipt.tenantId == req.event.tenantId
    case Built(req, r) => StandsOn(lib, s.db, req, r, timed) && (timed ==> r.signedAt <= s.now)
    case _ => true
  }

  ghost predicate Invariant(lib: Library, s: System, timed: bool)
  {
    && Sound(lib, s.db)
    && (timed ==> Timely(s.db, s.now))
    && (forall p | p in s.processes :: ProcessOk(lib, s, s.processes[p], timed))
  }

  // ----- The chain as the table grows -----

  lemma ChainAppend(rows: seq<ReceiptRow>, row: ReceiptRow, tenantId: Uuid)
    ensures Chain(rows + [row], tenantId)
         == Chain(rows, tenantId) + if row.receipt.tenantId == tenantId then [row] else []
  {
    assert (rows + [row])[..|rows|] == rows;
  }

  lemma {:induction false} ChainMembers(rows: seq<ReceiptRow>, tenantId: Uuid)
    ensures forall row :: row in Chain(rows, tenantId) <==> row in rows && row.receipt.tenantId == tenantId
  {
    if rows != [] {
      var n := |rows| - 1;
      ChainMembers(rows[..n], tenantId);
      assert rows == rows[..n] + [rows[n]];
    }
  }

  lemma {:induction false} LatestIsHighest(rows: seq<ReceiptRow>, tenantId: Uuid)
    ensures Latest(rows, tenantId).None? ==> forall row | row in rows :: row.receipt.tenantId != tenantId
    ensures Latest(rows, tenantId).Some? ==>
              var best := Latest(rows, tenantId).value;
              && best in rows && best.receipt.tenantId == tenantId
              && forall row | row in rows && row.receipt.tenantId == tenantId ::
                   row.receipt.sequence <= best.receipt.sequence
  {
    if rows != [] {
      var n := |rows| - 1;
      LatestIsHighest(rows[..n], tenantId);
      assert rows == rows[..n] + [rows[n]];
    }
  }

  /** Every row of a tenant stands in its valid chain at its own sequence. */
  lemma RowInChain(lib: Library, rows: seq<ReceiptRow>, tenantId: Uuid, row: ReceiptRow)
    requires ValidChain(lib, Chain(rows, tenantId))
    requires row in rows && row.receipt.tenantId == tenantId
    ensures row.receipt.sequence < |Chain(rows, tenantId)|
    ensures Chain(rows, tenantId)[row.receipt.sequence] == row
  {
    hide Chain, ValidChain;
    var chain := Chain(rows, tenantId);
    ChainMembers(rows, tenantId);
    var i :| 0 <= i < |chain| && chain[i] == row;
    ChainAt(lib, chain, i);
  }

  /** On a valid chain the row of highest sequence is the last one committed. */
  lemma {:induction false} LatestIsLast(lib: Library, rows: seq<ReceiptRow>, tenantId: Uuid)
    requires ValidChain(lib, Chain(rows, tenantId))
    ensures var chain := Chain(rows, tenantId);
            Latest(rows, tenantId) == if chain == [] then None else Some(chain[|chain| - 1])
  {
    hide Chain, ValidChain, Latest;
    var chain := Chain(rows, tenantId);
    LatestIsHighest(rows, tenantId);
    ChainMembers(rows, tenantId);
    if chain != [] {
      var last := chain[|chain| - 1];
      assert last in chain;
      RowInChain(lib, rows, tenantId, Latest(rows, tenantId).value);
      ChainAt(lib, chain, |chain| - 1);
    }
  }

  // ----- A commit extends the chain at its head -----

  /** A sequence is free exactly when the chain has not reached it. */
  lemma FreeMeansBeyond(lib: Library, db: Db, r: Receipt)
    requires ValidChain(lib, Chain(db.receipts, r.tenantId))
    ensures SequenceFree(db, r) <==> |Chain(db.receipts, r.tenantId)| <= r.sequence
  {
    hide Chain, ValidChain;
    var chain := Chain(db.receipts, r.tenantId);
    ChainMembers(db.receipts, r.tenantId);
    if r.sequence < |chain| {
      ChainAt(lib, chain, r.sequence);
      assert chain[r.sequence] in chain;
    } else {
      forall row | row in db.receipts && row.receipt.tenantId == r.tenantId
        ensures row.receipt.sequence != r.sequence
      {
        RowInChain(lib, db.receipts, r.tenantId, row);
      }
    }
  }

  /** A built receipt with a free sequence can only be the next one, linked to the current head. */
  lemma {:induction false} NextInLine(lib: Library, db: Db, req: Request, r: Receipt, timed: bool)
    requires ValidChain(lib, Chain(db.receipts, r.tenantId)) && StandsOn(lib, db, req, r, timed)
    ensures var chain := Chain(db.receipts, r.tenantId);
      && r.sequence <= |chain|
      && (SequenceFree(db, r) <==> r.sequence == |chain|)
      && (r.sequence == |chain| ==>
            && FollowsAt(lib, ReceiptRow(r, req.snapshotId), |chain|, HeadHash(chain))
            && (timed && chain != [] ==> chain[|chain| - 1].receipt.signedAt <= r.signedAt))
  {
    hide Chain, ValidChain, Consistent, SequenceFree, Sha256Hex;
    FreeMeansBeyond(lib, db, r);
    if !(r.sequence == 0 && r.prevReceiptHash == None) {
      var row :| row in db.receipts && Precedes(row, r, timed);
      RowInChain(lib, db.receipts, r.tenantId, row);
    }
  }

  /** The tables only grow: every row found before is found after. */
  ghost predicate Grows(db: Db, db': Db)
  {
    && db.snapshots <= db'.snapshots && db.events <= db'.events && db.receipts <= db'.receipts
    && db.known.tenants <= db'.known.tenants && db.known.agents <= db'.known.agents && db.known.bundles <= db'.known.bundles
  }

  lemma AccountedGrows(lib: Library, db: Db, db': Db, row: ReceiptRow)
    requires Grows(db, db') && Accounted(lib, db, row)
    ensures Accounted(lib, db', row)
  {
    var e :| e in db.events && e.id == row.receipt.eventId && e.tenantId == row.receipt.tenantId
             && Sha256Hex(lib, e.payload) == Success(row.receipt.payloadHash);
    assert e in db'.events;
    var s :| s in db.snapshots && s.id == row.snapshotId && s.tenantId == row.receipt.tenantId
             && s.snapshot.policyBundleId == row.receipt.policyBundleId;
    assert s in db'.snapshots;
  }

  lemma ProcessOkGrows(lib: Library, s: System, s': System, process: Process, timed: bool)
    requires Grows(s.db, s'.db) && (timed ==> s.now <= s'.now) && ProcessOk(lib, s, process, timed)
    ensures ProcessOk(lib, s', process, timed)
  {
    hide Consistent;
    match process
    case HeadRead(req, head) =>
      if head.Some? {
        var row :| row in s.db.receipts && row.receipt == head.value && row.receipt.tenantId == req.event.tenantId;
        assert row in s'.db.receipts;
      }
    case Built(req, r) =>
      if !(r.sequence == 0 && r.prevReceiptHash == None) {
        var row :| row in s.db.receipts && Precedes(row, r, timed);
        assert row in s'.db.receipts;
      }
    case _ =>
  }

  lemma TimeOrderedExtends(rows: seq<ReceiptRow>, row: ReceiptRow)
    requires TimeOrdered(rows) && (rows != [] ==> rows[|rows| - 1].receipt.signedAt <= row.receipt.signedAt)
    ensures TimeOrdered(rows + [row])
  {
    forall i | 0 <= i < |rows| ensures rows[i].receipt.signedAt <= row.receipt.signedAt {
      assert rows[i].receipt.signedAt <= rows[|rows| - 1].receipt.signedAt;
    }
  }

  /** One tenant's chain after a receipt of another tenant, or its own next one, is appended. */
  lemma AppendKeepsChain(lib: Library, db: Db, req: Request, r: Receipt, timed: bool, t: Uuid)
    requires ValidChain(lib, Chain(db.receipts, t)) && (timed ==> TimeOrdered(Chain(db.receipts, t)))
    requires StandsOn(lib, db, req, r, timed) && SequenceFree(db, r)
    ensures var chain := Chain(db.receipts + [ReceiptRow(r, req.snapshotId)], t);
            ValidChain(lib, chain) && (timed ==> TimeOrdered(chain))
  {
    hide Chain, ValidChain, StandsOn, SequenceFree, FollowsAt, TimeOrdered;
    var row := ReceiptRow(r, req.snapshotId);
    var chain := Chain(db.receipts, t);
    ChainAppend(db.receipts, row, t);
    if t == r.tenantId {
      NextInLine(lib, db, req, r, timed);
      ChainExtends(lib, chain, row);
      if timed {
        TimeOrderedExtends(chain, row);
      }
    } else {
      assert chain + [] == chain;
    }
  }

  lemma AppendAccounts(lib: Library, db: Db, req: Request, r: Receipt, timed: bool, db': Db)
    requires Sound(lib, db) && StandsOn(lib, db, req, r, timed)
    requires Write(db, req.event, req.snapshot, r, req.snapshotId) == Success(db')
    ensures forall row | row in db'.receipts :: Accounted(lib, db', row)
  {
    hide ValidChain, Chain, Consistent, FreshIds, SequenceFree, HashFree, ReferencesHold, Keyed;
    forall row | row in db'.receipts ensures Accounted(lib, db', row) {
      if row in db.receipts {
        AccountedGrows(lib, db, db', row);
      } else {
        assert req.event in db'.events;
        assert SnapshotRow(req.snapshotId, req.event.tenantId, req.snapshot) in db'.snapshots;
      }
    }
  }

  lemma WriteKeepsKeys(db: Db, event: Event, snapshot: PolicySnapshot, r: Receipt, snapshotId: Uuid, db': Db)
    requires Keyed(db) && Write(db, event, snapshot, r, snapshotId) == Success(db')
    ensures Keyed(db')
  {
    hide SequenceFree, ReferencesHold;
  }

  /** Registering rows elsewhere touches none of the three tables. */
  lemma RegisterKeepsSound(lib: Library, db: Db, more: References, now: Time, timed: bool)
    requires Sound(lib, db) && (timed ==> Timely(db, now))
    ensures var db' := db.(known := Joined(db.known, more));
            Grows(db, db') && Sound(lib, db') && (timed ==> Timely(db', now))
  {
    hide Chain, ValidChain, TimeOrdered;
    var db' := db.(known := Joined(db.known, more));
    forall row | row in db'.receipts ensures Accounted(lib, db', row) {
      AccountedGrows(lib, db, db', row);
    }
  }

  /** An accepted write keeps the tables sound and, with the clock, in time order. */
  lemma {:induction false} WriteKeepsSound(lib: Library, db: Db, req: Request, r: Receipt, timed: bool, now: Time)
    requires Sound(lib, db) && (timed ==> Timely(db, now))
    requires StandsOn(lib, db, req, r, timed) && (timed ==> r.signedAt <= now)
    requires Write(db, req.event, req.snapshot, r, req.snapshotId).Success?
    ensures var db' := Write(db, req.event, req.snapshot, r, req.snapshotId).value;
            Grows(db, db') && Sound(lib, db') && (timed ==> Timely(db', now))
  {
    hide FreshIds, HashFree, SequenceFree, ReferencesHold, StandsOn, ValidChain, TimeOrdered, Chain, Accounted, Keyed;
    var db' := Write(db, req.event, req.snapshot, r, req.snapshotId).value;
    WriteKeepsKeys(db, req.event, req.snapshot, r, req.snapshotId, db');
    AppendAccounts(lib, db, req, r, timed, db');
    forall t: Uuid
      ensures ValidChain(lib, Chain(db'.receipts, t)) && (timed ==> TimeOrdered(Chain(db'.receipts, t)))
    {
      AppendKeepsChain(lib, db, req, r, timed, t);
    }
  }

  lemma BuildStandsOn(lib: Library, s: System, req: Request, head: Option<Receipt>, timed: bool)
    requires ProcessOk(lib, s, HeadRead(req, head), timed) && (timed ==> Timely(s.db, s.now))
    requires BuildFor(lib, req, head, s.now).Success?
    ensures ProcessOk(lib, s, Built(req, BuildFor(lib, req, head, s.now).value), timed)
  {
    hide Consistent, BuildReceipt;
    BuiltReceipt(lib, req.event.tenantId, req.event.id, req.event.payload, req.snapshot, req.snapshotId, head,
                 req.tenantKey, req.agentKey, req.receiptId, s.now);
    var r := BuildFor(lib, req, head, s.now).value;
    if head.Some? {
      var row :| row in s.db.receipts && row.receipt == head.value && row.receipt.tenantId == req.event.tenantId;
      assert Precedes(row, r, timed);
    }
  }

  lemma ReadHeadOk(lib: Library, s: System, req: Request, timed: bool)
    ensures ProcessOk(lib, s, HeadRead(req, HeadReceipt(s.db, req.event.tenantId)), timed)
  {
    LatestIsHighest(s.db.receipts, req.event.tenantId);
  }

  lemma TimelyLater(db: Db, now: Time, later: Time, timed: bool)
    requires timed ==> Timely(db, now) && now <= later
    ensures timed ==> Timely(db, later)
  {
  }

  /** Tables that stay sound and only grow keep every process valid, save the one that moved. */
  lemma MoveKeepsInvariant(lib: Library, s: System, s': System, timed: bool)
    requires Invariant(lib, s, timed)
    requires Grows(s.db, s'.db) && Sound(lib, s'.db) && (timed ==> Timely(s'.db, s'.now) && s.now <= s'.now)
    requires forall p | p in s'.processes ::
               (p in s.processes && s'.processes[p] == s.processes[p]) || ProcessOk(lib, s', s'.processes[p], timed)
    ensures Invariant(lib, s', timed)
  {
    hide Sound, Timely, ProcessOk, Grows;
    forall p | p in s'.processes ensures ProcessOk(lib, s', s'.processes[p], timed) {
      if p in s.processes && s'.processes[p] == s.processes[p] {
        ProcessOkGrows(lib, s, s', s.processes[p], timed);
      }
    }
  }

  lemma CommitKeepsInvariant(lib: Library, s: System, p: nat, timed: bool)
    requires Invariant(lib, s, timed)
    ensures Invariant(lib, Step(lib, s, Commit(p)), timed)
    ensures Grows(s.db, Step(lib, s, Commit(p)).db)
  {
    hide Sound, Timely, StandsOn, Write;
    var s' := Step(lib, s, Commit(p));
    match ProcessOf(s, p)
    case Built(req, r) =>
      assert ProcessOk(lib, s, s.processes[p], timed);
      if Write(s.db, req.event, req.snapshot, r, req.snapshotId).Success? {
        WriteKeepsSound(lib, s.db, req, r, timed, s.now);
      }
      MoveKeepsInvariant(lib, s, s', timed);
    case _ =>
  }

  lemma BuildKeepsInvariant(lib: Library, s: System, p: nat, timed: bool)
    requires Invariant(lib, s, timed)
    ensures Invariant(lib, Step(lib, s, Build(p)), timed)
  {
    hide Sound, Timely, StandsOn, BuildFor;
    match ProcessOf(s, p)
    case HeadRead(req, head) =>
      assert ProcessOk(lib, s, s.processes[p], timed);
      if BuildFor(lib, req, head, s.now).Success? {
        BuildStandsOn(lib, s, req, head, timed);
        assert ProcessOk(lib, Step(lib, s, Build(p)), Built(req, BuildFor(lib, req, head, s.now).value), timed);
      }
      MoveKeepsInvariant(lib, s, Step(lib, s, Build(p)), timed);
    case _ =>
  }

  /** Every step of every process keeps the invariant, and the tables only grow. */
  lemma StepKeepsInvariant(lib: Library, s: System, a: Action, timed: bool)
    requires Invariant(lib, s, timed)
    requires timed && a.SetClock? ==> s.now <= a.t
    ensures Invariant(lib, Step(lib, s, a), timed)
    ensures Grows(s.db, Step(lib, s, a).db)
  {
    hide Sound, Timely, StandsOn, Write, BuildFor, HeadReceipt;
    var s' := Step(lib, s, a);
    match a
    case ReadHead(p, req) =>
      ReadHeadOk(lib, s, req, timed);
      ProcessOkGrows(lib, s, s', s'.processes[p], timed);
      MoveKeepsInvariant(lib, s, s', timed);
    case Build(p) => BuildKeepsInvariant(lib, s, p, timed);
    case Commit(p) => CommitKeepsInvariant(lib, s, p, timed);
    case Abort(p) =>
      assert ProcessOk(lib, s', Finished(false), timed);
      MoveKeepsInvariant(lib, s, s', timed);
    case SetClock(t) =>
      TimelyLater(s.db, s.now, t, timed);
      MoveKeepsInvariant(lib, s, s', timed);
    case Register(more) =>
      RegisterKeepsSound(lib, s.db, more, s.now, timed);
      MoveKeepsInvariant(lib, s, s', timed);
  }

  // ----- Over whole runs -----

  lemma StartInvariant(lib: Library, now: Time, timed: bool)
    ensures Invariant(lib, Start(now), timed)
  {
    forall t: Uuid ensures Chain(Start(now).db.receipts, t) == [] {
    }
  }

  lemma {:induction false} RunKeepsInvariant(lib: Library, s: System, actions: seq<Action>, timed: bool)
    requires Invariant(lib, s, timed)
    requires timed ==> ClockNeverFallsBack(lib, s, actions)
    ensures Invariant(lib, Run(lib, s, actions), timed)
    decreases |actions|
  {
    hide Invariant, Step;
    if actions != [] {
      var n := |actions| - 1;
      forall i | 0 <= i < n ensures actions[..n][..i] == actions[..i] {
      }
      RunKeepsInvariant(lib, s, actions[..n], timed);
      StepKeepsInvariant(lib, Run(lib, s, actions[..n]), actions[n], timed);
    }
  }

  lemma {:induction false} ChainPrefix(rows: seq<ReceiptRow>, more: seq<ReceiptRow>, tenantId: Uuid)
    ensures Chain(rows, tenantId) <= Chain(rows + more, tenantId)
    decreases |more|
  {
    if more == [] {
      assert rows + more == rows;
    } else {
      var n := |more| - 1;
      ChainPrefix(rows, more[..n], tenantId);
      assert rows + more == (rows + more[..n]) + [more[n]];
      ChainAppend(rows + more[..n], more[n], tenantId);
    }
  }

  /** Rows are never changed or removed: what one state has committed, every later state still has in front. */
  lemma {:induction false} RunGrows(lib: Library, s: System, actions: seq<Action>, later: seq<Action>)
    requires Invariant(lib, s, false)
    ensures Grows(Run(lib, s, actions).db, Run(lib, s, actions + later).db)
    decreases |later|
  {
    hide Invariant, Step;
    if later == [] {
      assert actions + later == actions;
    } else {
      var n := |later| - 1;
      RunGrows(lib, s, actions, later[..n]);
      var before := actions + later[..n];
      assert actions + later == before + [later[n]];
      assert (before + [later[n]])[..|before|] == before;
      RunKeepsInvariant(lib, s, before, false);
      StepKeepsInvariant(lib, Run(lib, s, before), later[n], false);
    }
  }

  /**
    Whatever the interleaving, stale head reads and crashes: each tenant's
    committed receipts have sequences 0..n-1, are linked, recompute under their
    stored snapshot id, and have their event and snapshot rows, which no other row
    shares an id with, nor any two receipts a hash; and the chain of any earlier moment is a prefix of it.
   */
  lemma ConcurrentIngestIsSafe(lib: Library, now: Time, actions: seq<Action>, later: seq<Action>, tenantId: Uuid)
    ensures var before := Run(lib, Start(now), actions).db;
            var db := Run(lib, Start(now), actions + later).db;
            var chain := Chain(db.receipts, tenantId);
      && ValidChain(lib, chain)
      && (forall row :: row in chain <==> row in db.receipts && row.receipt.tenantId == tenantId)
      && Keyed(db) && (forall row | row in db.receipts :: Accounted(lib, db, row))
      && Chain(before.receipts, tenantId) <= chain
  {
    hide Accounted, ValidChain, Chain, Run;
    StartInvariant(lib, now, false);
    RunKeepsInvariant(lib, Start(now), actions + later, false);
    RunGrows(lib, Start(now), actions, later);
    var before := Run(lib, Start(now), actions).db.receipts;
    var after := Run(lib, Start(now), actions + later).db.receipts;
    ChainMembers(after, tenantId);
    ChainPrefix(before, after[|before|..], tenantId);
    assert before + after[|before|..] == after;
  }

  /** With a clock that never falls back, signing times never fall along a chain, although receipts are built and committed apart. */
  lemma SigningTimesNeverFall(lib: Library, now: Time, actions: seq<Action>, tenantId: Uuid)
    requires ClockNeverFallsBack(lib, Start(now), actions)
    ensures TimeOrdered(Chain(Run(lib, Start(now), actions).db.receipts, tenantId))
  {
    hide Chain, Run, TimeOrdered, ClockNeverFallsBack, Sound;
    StartInvariant(lib, now, true);
    RunKeepsInvariant(lib, Start(now), actions, true);
  }

  /** A process that crashes, or cannot build, ends without having committed. */
  lemma EndsUncommitted(lib: Library, s: System, p: nat)
    ensures Step(lib, s, Abort(p)) == s.(processes := s.processes[p := Finished(false)])
    ensures forall req, head | ProcessOf(s, p) == HeadRead(req, head) && BuildFor(lib, req, head, s.now).Failure? ::
              Step(lib, s, Build(p)) == s.(processes := s.processes[p := Finished(false)])
  {
    hide BuildFor;
  }

  /** A stored receipt hash met again at a free sequence is a collision of two bound texts. */
  lemma TakenHashIsClash(lib: Library, db: Db, row: ReceiptRow, mine: ReceiptRow)
    requires ValidChain(lib, Chain(db.receipts, row.receipt.tenantId)) && row in db.receipts
    requires Consistent(lib, mine) && SequenceFree(db, mine.receipt)
    requires row.receipt.receiptHash == mine.receipt.receiptHash
    ensures Clash(lib, {BoundText(row)}, {BoundText(mine)})
  {
    hide ValidChain, Chain, Clash, BoundText;
    RowInChain(lib, db.receipts, row.receipt.tenantId, row);
    ChainAt(lib, Chain(db.receipts, row.receipt.tenantId), row.receipt.sequence);
    RecomputeDetermines(lib, row, mine);
  }

  ghost predicate HashTakenByClash(lib: Library, db: Db, mine: ReceiptRow)
  {
    exists row :: row in db.receipts && Clash(lib, {BoundText(row)}, {BoundText(mine)})
  }

  /**
    Exactly when a built receipt commits: its references exist, its ids are new and the head it was
    built on is still the head, whatever committed in between; its hash is then new too. Only a digest
    collision with a stored receipt can refuse it otherwise.
   */
  lemma {:induction false} CommitIffHeadStillCurrent(lib: Library, s: System, p: nat, req: Request, r: Receipt)
    requires Invariant(lib, s, false) && ProcessOf(s, p) == Built(req, r)
    ensures var chain := Chain(s.db.receipts, req.event.tenantId);
            var current := ReferencesHold(s.db, req.event, r.policyBundleId)
                           && FreshIds(s.db, req.event, r, req.snapshotId) && r.sequence == |chain|;
            var committed := Step(lib, s, Commit(p)).db != s.db;
      && ProcessOf(Step(lib, s, Commit(p)), p) == Finished(committed)
      && (committed ==> current && HashFree(s.db, r))
      && (current ==> committed || HashTakenByClash(lib, s.db, ReceiptRow(r, req.snapshotId)))
      && (committed ==> r.prevReceiptHash == HeadHash(chain)
                        && Chain(Step(lib, s, Commit(p)).db.receipts, req.event.tenantId)
                           == chain + [ReceiptRow(r, req.snapshotId)])
  {
    hide ValidChain, Chain, FreshIds, SequenceFree, Accounted, Clash, Consistent, BoundText, ReferencesHold, Keyed;
    assert ProcessOk(lib, s, s.processes[p], false);
    NextInLine(lib, s.db, req, r, false);
    var mine := ReceiptRow(r, req.snapshotId);
    ChainAppend(s.db.receipts, mine, req.event.tenantId);
    if SequenceFree(s.db, r) && !HashFree(s.db, r) {
      var row :| row in s.db.receipts && row.receipt.receiptHash == r.receiptHash;
      TakenHashIsClash(lib, s.db, row, mine);
    }
  }
}
