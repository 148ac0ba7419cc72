/**
  Approval of policy bundles: five statuses, an append-only log, segregation of
  duties and a savepoint around activation (packages/ledger/bundle_workflow.py,
  packages/ledger/bundle_repository.py:35-62).
 */
module BundleWorkflow {
  import opened Wrappers
  import opened Primitives

  datatype Status = Proposed | Reviewed | Approved | Active | Superseded

  datatype Role = Author | Reviewer | Approver | Activator | SystemRole

  datatype Bundle = Bundle(tenantId: Uuid, version: string, status: Status)

  /** One row of the log; only an author may be unnamed. */
  datatype Approval = Approval(
    bundleId: Uuid, tenantId: Uuid, from: Status, to: Status, actor: Option<Uuid>, role: Role, reason: string)

  datatype Tables = Tables(bundles: map<Uuid, Bundle>, log: seq<Approval>)

  datatype WorkflowError = NotFound | WrongStatus | SegregationViolated | BlankReason | Conflict | FlushFailed

  /** The flushes of an activation, any of which the database may refuse. */
  datatype Flush = PriorLogged | PriorSuperseded | ActivationLogged | ActivationDone

  datatype Op =
    | WriteBundle(id: Uuid, tenantId: Uuid, version: string)
    | Propose(id: Uuid, author: Option<Uuid>, reason: string)
    | Review(id: Uuid, actor: Uuid, reason: string)
    | Approve(id: Uuid, actor: Uuid, reason: string)
    | Activate(id: Uuid, actor: Uuid, reason: string, failing: Option<Flush>)
    | Supersede(id: Uuid, actor: Uuid, reason: string)

  // ----- The rules -----

  predicate ValidTransition(from: Status, to: Status)
  {
    || (from == Proposed && to == Reviewed) || (from == Reviewed && to == Approved)
    || (from == Approved && to == Active) || (from == Active && to == Superseded)
  }

  function RequiredRole(to: Status): Role
  {
    match to
    case Proposed => Author
    case Reviewed => Reviewer
    case Approved => Approver
    case Active => Activator
    case Superseded => SystemRole
  }

  predicate Filled(log: seq<Approval>, id: Uuid, role: Role, actor: Uuid)
  {
    exists i :: 0 <= i < |log| && log[i].bundleId == id && log[i].role == role && log[i].actor == Some(actor)
  }

  function Row(id: Uuid, b: Bundle, to: Status, actor: Option<Uuid>, reason: string): Approval
  {
    Approval(id, b.tenantId, b.status, to, actor, RequiredRole(to), reason)
  }

  /** `_transition`: the reason is looked at before the bundle. */
  function Transition(t: Tables, id: Uuid, to: Status, actor: Uuid, reason: string): Result<Tables, WorkflowError>
  {
    if IsBlank(reason) then Failure(BlankReason)
    else if id !in t.bundles then Failure(NotFound)
    else
      var b := t.bundles[id];
      if !ValidTransition(b.status, to) then Failure(WrongStatus)
      else Success(Tables(t.bundles[id := b.(status := to)], t.log + [Row(id, b, to, Some(actor), reason)]))
  }

  ghost predicate IsActiveFor(t: Tables, id: Uuid, tenantId: Uuid)
  {
    id in t.bundles && t.bundles[id].tenantId == tenantId && t.bundles[id].status.Active?
  }

  /** The tenant's active bundle moved out of the way, with its own log row. */
  ghost function SupersedePrior(t: Tables, id: Uuid, tenantId: Uuid, actor: Uuid): Tables
  {
    if exists p :: IsActiveFor(t, p, tenantId) then
      var p :| IsActiveFor(t, p, tenantId);
      var b := t.bundles[p];
      Tables(t.bundles[p := b.(status := Superseded)],
             t.log + [Row(p, b, Superseded, Some(actor), SupersededReason(id))])
    else t
  }

  function SupersededReason(id: Uuid): string
  {
    "automatically superseded by activation of bundle " + id
  }

  /** What one call does to the tables; a failure leaves them alone. */
  ghost function Apply(t: Tables, op: Op): Result<Tables, WorkflowError>
  {
    match op
    case WriteBundle(id, tenantId, version) =>
      if id in t.bundles || exists b :: b in t.bundles && t.bundles[b].tenantId == tenantId && t.bundles[b].version == version
      then Failure(Conflict)
      else Success(t.(bundles := t.bundles[id := Bundle(tenantId, version, Proposed)]))
    case Propose(id, author, reason) =>
      if id !in t.bundles then Failure(NotFound)
      else if !t.bundles[id].status.Proposed? then Failure(WrongStatus)
      else Success(t.(log := t.log + [Row(id, t.bundles[id], Proposed, author, reason)]))
    case Review(id, actor, reason) =>
      if Filled(t.log, id, Author, actor) then Failure(SegregationViolated)
      else Transition(t, id, Reviewed, actor, reason)
    case Approve(id, actor, reason) =>
      if Filled(t.log, id, Author, actor) || Filled(t.log, id, Reviewer, actor) then Failure(SegregationViolated)
      else Transition(t, id, Approved, actor, reason)
    case Activate(id, actor, reason, failing) =>
      if id !in t.bundles then Failure(NotFound)
      else if !t.bundles[id].status.Approved? then Failure(WrongStatus)
      else
        var tenantId := t.bundles[id].tenantId;
        var hasPrior := exists p :: IsActiveFor(t, p, tenantId);
        if hasPrior && (failing == Some(PriorLogged) || failing == Some(PriorSuperseded)) then Failure(FlushFailed)
        else if IsBlank(reason) then Failure(BlankReason)
        else if failing == Some(ActivationLogged) || failing == Some(ActivationDone) then Failure(FlushFailed)
        else Transition(SupersedePrior(t, id, tenantId, actor), id, Active, actor, reason)
    case Supersede(id, actor, reason) => Transition(t, id, Superseded, actor, reason)
  }

  ghost function After(t: Tables, op: Op): Tables
  {
    match Apply(t, op)
    case Success(t') => t'
    case Failure(_) => t
  }

  /** What the caller of `op` sees. */
  ghost function Raised(t: Tables, op: Op): Option<WorkflowError>
  {
    match Apply(t, op)
    case Success(_) => None
    case Failure(e) => Some(e)
  }

  /** Bundle `id` went from one status to the next, and one row says who did it, in which role and why. */
  ghost predicate Moved(t: Tables, t': Tables, id: Uuid, from: Status, to: Status, actor: Uuid, role: Role, reason: string)
  {
    && id in t.bundles && t.bundles[id].status == from
    && t'.bundles == t.bundles[id := t.bundles[id].(status := to)]
    && t'.log == t.log + [Approval(id, t.bundles[id].tenantId, from, to, Some(actor), role, reason)]
  }

  /** A call that moves `id` on from `from` gets this far: the reason is looked at first, then the bundle. */
  ghost predicate Checks(error: Option<WorkflowError>, t: Tables, id: Uuid, from: Status, reason: string)
  {
    && (error == Some(BlankReason) <==> IsBlank(reason))
    && (error == Some(NotFound) <==> !IsBlank(reason) && id !in t.bundles)
    && (error == Some(WrongStatus) <==> !IsBlank(reason) && id in t.bundles && t.bundles[id].status != from)
    && (error.None? <==> !IsBlank(reason) && id in t.bundles && t.bundles[id].status == from)
  }

  const Empty := Tables(map[], [])

  ghost function Run(ops: seq<Op>): Tables
  {
    if ops == [] then Empty else After(Run(ops[..|ops| - 1]), ops[|ops| - 1])
  }

  // ----- What every reachable state keeps -----

  ghost predicate OneActive(t: Tables)
  {
    forall a, b, tenantId :: IsActiveFor(t, a, tenantId) && IsActiveFor(t, b, tenantId) ==> a == b
  }

  /** What the log says of a bundle: its rows taken in order from `proposed`, or nothing if one does not fit. */
  function Replay(log: seq<Approval>, id: Uuid): Option<Status>
  {
    if log == [] then Some(Proposed)
    else
      var n := |log| - 1;
      var before := Replay(log[..n], id);
      if log[n].bundleId != id then before
      else if before == Some(log[n].from) && log[n].role == RequiredRole(log[n].to)
              && (ValidTransition(log[n].from, log[n].to) || log[n].from == log[n].to == Proposed)
      then Some(log[n].to)
      else None
  }

  ghost predicate LogTells(t: Tables)
  {
    && (forall id :: id in t.bundles ==> Replay(t.log, id) == Some(t.bundles[id].status))
    && (forall i :: 0 <= i < |t.log| ==>
          t.log[i].bundleId in t.bundles && t.log[i].tenantId == t.bundles[t.log[i].bundleId].tenantId)
  }

  function Rank(s: Status): nat
  {
    match s
    case Proposed => 0
    case Reviewed => 1
    case Approved => 2
    case Active => 3
    case Superseded => 4
  }

  /** Two rows of one bundle that must not be the same person's. */
  predicate MustDiffer(a: Role, b: Role)
  {
    (a == Reviewer && b == Author) || (a == Approver && (b == Author || b == Reviewer))
  }

  ghost predicate Segregated(log: seq<Approval>)
  {
    && (forall i :: 0 <= i < |log| && log[i].role != Author ==> log[i].actor.Some?)
    && (forall i, j :: 0 <= i < |log| && 0 <= j < |log| ==>
          (log[i].bundleId == log[j].bundleId && MustDiffer(log[i].role, log[j].role) ==> log[i].actor != log[j].actor))
  }

  ghost predicate Invariant(t: Tables)
  {
    OneActive(t) && LogTells(t) && Segregated(t.log)
  }

  /** A judgment row stays behind its bundle's status. */
  lemma {:induction false} RankOfRows(log: seq<Approval>, id: Uuid, i: nat)
    requires i < |log| && log[i].bundleId == id && Replay(log, id).Some?
    ensures log[i].role == RequiredRole(log[i].to) && Rank(log[i].to) <= Rank(Replay(log, id).value)
  {
    var n := |log| - 1;
    if i < n {
      assert log[..n][i] == log[i];
      RankOfRows(log[..n], id, i);
    }
  }

  /** A bundle past a judgment has its row in the log, and only one. */
  lemma {:induction false} JudgedMeansLogged(log: seq<Approval>, id: Uuid, to: Status)
    requires Replay(log, id).Some? && 1 <= Rank(to) <= Rank(Replay(log, id).value)
    ensures exists i :: 0 <= i < |log| && log[i].bundleId == id && log[i].to == to
    ensures forall i, j :: 0 <= i < j < |log| && log[i].bundleId == id && log[j].bundleId == id ==> !(log[i].to == log[j].to == to)
  {
    var n := |log| - 1;
    var init := log[..n];
    assert forall i :: 0 <= i < n ==> init[i] == log[i];
    if log[n].bundleId == id && log[n].to == to {
      forall i | 0 <= i < n && log[i].bundleId == id ensures log[i].to != to {
        RankOfRows(init, id, i);
      }
    } else {
      JudgedMeansLogged(init, id, to);
    }
  }

  lemma ReplayAppend(log: seq<Approval>, row: Approval, id: Uuid)
    ensures Replay(log + [row], id)
         == if row.bundleId != id then Replay(log, id)
            else if Replay(log, id) == Some(row.from) && row.role == RequiredRole(row.to)
                    && (ValidTransition(row.from, row.to) || row.from == row.to == Proposed)
            then Some(row.to) else None
  {
    assert (log + [row])[..|log|] == log;
  }

  /** Moving one bundle forward, with its row, keeps the log telling every status. */
  lemma MoveKeepsLog(t: Tables, id: Uuid, to: Status, actor: Option<Uuid>, reason: string)
    requires LogTells(t) && id in t.bundles
    requires var from := t.bundles[id].status; ValidTransition(from, to) || from == to == Proposed
    ensures var b := t.bundles[id];
            LogTells(Tables(t.bundles[id := b.(status := to)], t.log + [Row(id, b, to, actor, reason)]))
  {
    hide Replay, ValidTransition, RequiredRole;
    var b := t.bundles[id];
    var t' := Tables(t.bundles[id := b.(status := to)], t.log + [Row(id, b, to, actor, reason)]);
    forall x | x in t'.bundles ensures Replay(t'.log, x) == Some(t'.bundles[x].status) {
      ReplayAppend(t.log, Row(id, b, to, actor, reason), x);
    }
  }

  /** A new row keeps duties apart when its actor has filled no forbidden role and no judgment is behind it. */
  lemma RowKeepsSegregation(t: Tables, id: Uuid, to: Status, actor: Option<Uuid>, reason: string)
    requires LogTells(t) && Segregated(t.log) && id in t.bundles
    requires var from := t.bundles[id].status; ValidTransition(from, to) || from == to == Proposed
    requires to != Proposed ==> actor.Some?
    requires to == Reviewed ==> !Filled(t.log, id, Author, actor.value)
    requires to == Approved ==>
               !Filled(t.log, id, Author, actor.value) && !Filled(t.log, id, Reviewer, actor.value)
    ensures Segregated(t.log + [Row(id, t.bundles[id], to, actor, reason)])
  {
    hide Replay;
    var row := Row(id, t.bundles[id], to, actor, reason);
    var log := t.log + [row];
    forall i, j | 0 <= i < |log| && 0 <= j < |log| && log[i].bundleId == log[j].bundleId
                  && MustDiffer(log[i].role, log[j].role)
      ensures log[i].actor != log[j].actor
    {
      if i < |t.log| && j == |t.log| {
        RankOfRows(t.log, id, i);
      }
    }
  }

  lemma TransitionKeeps(t: Tables, id: Uuid, to: Status, actor: Uuid, reason: string)
    requires Invariant(t) && Transition(t, id, to, actor, reason).Success?
    requires to == Reviewed ==> !Filled(t.log, id, Author, actor)
    requires to == Approved ==> !Filled(t.log, id, Author, actor) && !Filled(t.log, id, Reviewer, actor)
    requires to == Active ==> forall p :: !IsActiveFor(t, p, t.bundles[id].tenantId)
    ensures Invariant(Transition(t, id, to, actor, reason).value)
  {
    hide LogTells, Segregated, Filled, IsBlank;
    MoveKeepsLog(t, id, to, Some(actor), reason);
    RowKeepsSegregation(t, id, to, Some(actor), reason);
    var t' := Transition(t, id, to, actor, reason).value;
    forall a, b, tenantId | IsActiveFor(t', a, tenantId) && IsActiveFor(t', b, tenantId) ensures a == b {
      assert a == id || IsActiveFor(t, a, tenantId);
      assert b == id || IsActiveFor(t, b, tenantId);
    }
  }

  /** After the prior active bundle is superseded the tenant has none, and the others are as they were. */
  lemma SupersedePriorKeeps(t: Tables, id: Uuid, actor: Uuid)
    requires Invariant(t) && id in t.bundles && t.bundles[id].status.Approved?
    ensures var t' := SupersedePrior(t, id, t.bundles[id].tenantId, actor);
      && Invariant(t') && id in t'.bundles && t'.bundles[id] == t.bundles[id]
      && forall p :: !IsActiveFor(t', p, t.bundles[id].tenantId)
  {
    hide LogTells, Segregated, Row;
    var tenantId := t.bundles[id].tenantId;
    if exists p :: IsActiveFor(t, p, tenantId) {
      var t' := SupersedePrior(t, id, tenantId, actor);
      var p :| IsActiveFor(t, p, tenantId);
      MoveKeepsLog(t, p, Superseded, Some(actor), SupersededReason(id));
      RowKeepsSegregation(t, p, Superseded, Some(actor), SupersededReason(id));
      forall q ensures !IsActiveFor(t', q, tenantId) {
        assert IsActiveFor(t, q, tenantId) ==> q == p;
      }
      forall a, b, other | IsActiveFor(t', a, other) && IsActiveFor(t', b, other) ensures a == b {
        assert IsActiveFor(t, a, other) && IsActiveFor(t, b, other);
      }
    }
  }

  lemma WriteBundleKeeps(t: Tables, id: Uuid, tenantId: Uuid, version: string)
    requires Invariant(t) && id !in t.bundles
    ensures Invariant(t.(bundles := t.bundles[id := Bundle(tenantId, version, Proposed)]))
  {
    hide Replay;
    NothingLogged(t, |t.log|, id);
    var t' := t.(bundles := t.bundles[id := Bundle(tenantId, version, Proposed)]);
    assert t.log[..|t.log|] == t.log;
    forall a, b, other | IsActiveFor(t', a, other) && IsActiveFor(t', b, other) ensures a == b {
      assert IsActiveFor(t, a, other) && IsActiveFor(t, b, other);
    }
  }

  lemma {:induction false} NothingLogged(t: Tables, n: nat, id: Uuid)
    requires LogTells(t) && id !in t.bundles && n <= |t.log|
    ensures Replay(t.log[..n], id) == Some(Proposed)
  {
    if n > 0 {
      NothingLogged(t, n - 1, id);
      assert t.log[..n][..n - 1] == t.log[..n - 1];
    }
  }

  lemma ProposeKeeps(t: Tables, id: Uuid, author: Option<Uuid>, reason: string)
    requires Invariant(t) && id in t.bundles && t.bundles[id].status.Proposed?
    ensures Invariant(t.(log := t.log + [Row(id, t.bundles[id], Proposed, author, reason)]))
  {
    hide LogTells, Segregated;
    MoveKeepsLog(t, id, Proposed, author, reason);
    RowKeepsSegregation(t, id, Proposed, author, reason);
    var t' := t.(log := t.log + [Row(id, t.bundles[id], Proposed, author, reason)]);
    assert t.bundles[id := t.bundles[id].(status := Proposed)] == t.bundles;
    forall a, b, other | IsActiveFor(t', a, other) && IsActiveFor(t', b, other) ensures a == b {
      assert IsActiveFor(t, a, other) && IsActiveFor(t, b, other);
    }
  }

  lemma ApplyKeepsInvariant(t: Tables, op: Op)
    requires Invariant(t)
    ensures Invariant(After(t, op))
    ensures t.log <= After(t, op).log
  {
    hide Invariant, Transition, SupersedePrior, IsActiveFor;
    if Apply(t, op).Success? {
      match op
      case WriteBundle(id, tenantId, version) => WriteBundleKeeps(t, id, tenantId, version);
      case Propose(id, author, reason) => ProposeKeeps(t, id, author, reason);
      case Review(id, actor, reason) =>
        TransitionKeeps(t, id, Reviewed, actor, reason);
        TransitionAppends(t, id, Reviewed, actor, reason);
      case Approve(id, actor, reason) =>
        TransitionKeeps(t, id, Approved, actor, reason);
        TransitionAppends(t, id, Approved, actor, reason);
      case Activate(id, actor, reason, failing) =>
        SupersedePriorKeeps(t, id, actor);
        SupersedePriorAppends(t, id, t.bundles[id].tenantId, actor);
        var t' := SupersedePrior(t, id, t.bundles[id].tenantId, actor);
        TransitionKeeps(t', id, Active, actor, reason);
        TransitionAppends(t', id, Active, actor, reason);
      case Supersede(id, actor, reason) =>
        TransitionKeeps(t, id, Superseded, actor, reason);
        TransitionAppends(t, id, Superseded, actor, reason);
    }
  }

  lemma TransitionAppends(t: Tables, id: Uuid, to: Status, actor: Uuid, reason: string)
    requires Transition(t, id, to, actor, reason).Success?
    ensures t.log <= Transition(t, id, to, actor, reason).value.log
  {
  }

  lemma SupersedePriorAppends(t: Tables, id: Uuid, tenantId: Uuid, actor: Uuid)
    ensures t.log <= SupersedePrior(t, id, tenantId, actor).log
  {
  }

  lemma {:induction false} RunKeepsInvariant(ops: seq<Op>)
    ensures Invariant(Run(ops))
  {
    hide Apply, Invariant;
    if ops == [] {
      assert Invariant(Empty) by {
        EmptyOk();
      }
    } else {
      RunKeepsInvariant(ops[..|ops| - 1]);
      ApplyKeepsInvariant(Run(ops[..|ops| - 1]), ops[|ops| - 1]);
    }
  }

  lemma EmptyOk()
    ensures Invariant(Empty)
  {
  }

  /**
    After any sequence of calls, in any order and with any failures: a tenant has
    at most one active bundle, and every bundle's status is the replay of its log
    rows along proposed, reviewed, approved, active, superseded.
   */
  lemma OneActiveAndLogTells(ops: seq<Op>)
    ensures forall a, b, tenantId :: IsActiveFor(Run(ops), a, tenantId) && IsActiveFor(Run(ops), b, tenantId) ==> a == b
    ensures forall id :: id in Run(ops).bundles ==> Replay(Run(ops).log, id) == Some(Run(ops).bundles[id].status)
  {
    hide Run, Replay;
    RunKeepsInvariant(ops);
  }

  /** Row `r` is the bundle's one reviewer and row `a` its one approver, apart from each other and from every author. */
  ghost predicate JudgedApart(log: seq<Approval>, id: Uuid, r: nat, a: nat)
  {
    && r < |log| && log[r].bundleId == id && log[r].role == Reviewer && log[r].actor.Some?
    && a < |log| && log[a].bundleId == id && log[a].role == Approver && log[a].actor.Some?
    && log[r].actor != log[a].actor
    && (forall k :: 0 <= k < |log| && log[k].bundleId == id ==>
          && (log[k].role == Author ==> log[k].actor != log[r].actor && log[k].actor != log[a].actor)
          && (log[k].role == Reviewer ==> k == r) && (log[k].role == Approver ==> k == a))
  }

  /**
    After any sequence of calls: a bundle ever approved has exactly one reviewer
    and one approver row; the reviewer is none of the authors ever logged, and the
    approver neither the reviewer nor any author.
   */
  lemma DutiesStayApart(ops: seq<Op>, id: Uuid)
    requires id in Run(ops).bundles && Rank(Run(ops).bundles[id].status) >= 2
    ensures exists r, a :: JudgedApart(Run(ops).log, id, r, a)
  {
    hide Run, Replay, Segregated, JudgedApart;
    RunKeepsInvariant(ops);
    var log := Run(ops).log;
    JudgedMeansLogged(log, id, Reviewed);
    JudgedMeansLogged(log, id, Approved);
    var r :| 0 <= r < |log| && log[r].bundleId == id && log[r].to == Reviewed;
    var a :| 0 <= a < |log| && log[a].bundleId == id && log[a].to == Approved;
    DutiesOf(log, id, r, a);
  }

  lemma DutiesOf(log: seq<Approval>, id: Uuid, r: nat, a: nat)
    requires Segregated(log) && Replay(log, id).Some?
    requires r < |log| && a < |log| && log[r].bundleId == id && log[a].bundleId == id
    requires log[r].to == Reviewed && log[a].to == Approved
    requires forall i, j :: 0 <= i < j < |log| && log[i].bundleId == id && log[j].bundleId == id ==>
               !(log[i].to == log[j].to == Reviewed) && !(log[i].to == log[j].to == Approved)
    ensures JudgedApart(log, id, r, a)
  {
    hide Replay;
    RankOfRows(log, id, r);
    RankOfRows(log, id, a);
    assert MustDiffer(log[a].role, log[r].role);
    forall k | 0 <= k < |log| && log[k].bundleId == id
      ensures log[k].role == Author ==> log[k].actor != log[r].actor && log[k].actor != log[a].actor
      ensures (log[k].role == Reviewer ==> k == r) && (log[k].role == Approver ==> k == a)
    {
      RankOfRows(log, id, k);
      if log[k].role == Author {
        assert MustDiffer(log[r].role, log[k].role) && MustDiffer(log[a].role, log[k].role);
      }
    }
  }

  // ----- What an activation does, from the tables alone -----

  /**
    Exactly when an activation goes through: an approved bundle, a reason, and no
    flush refused that is made. A bundle that is active already does not stand in
    its way.
   */
  ghost predicate Activates(t: Tables, id: Uuid, reason: string, failing: Option<Flush>)
  {
    && id in t.bundles && t.bundles[id].status == Approved && !IsBlank(reason)
    && failing != Some(ActivationLogged) && failing != Some(ActivationDone)
    && ((failing == Some(PriorLogged) || failing == Some(PriorSuperseded)) ==>
          forall p :: !IsActiveFor(t, p, t.bundles[id].tenantId))
  }

  /** `p` gave way to `id`: two bundles changed status, and two rows were logged, in that order. */
  ghost predicate Replaced(t: Tables, t': Tables, p: Uuid, id: Uuid, actor: Uuid, reason: string)
  {
    && p in t.bundles && id in t.bundles && p != id
    && t'.bundles == t.bundles[p := t.bundles[p].(status := Superseded)][id := t.bundles[id].(status := Active)]
    && t'.log == t.log
         + [Approval(p, t.bundles[p].tenantId, Active, Superseded, Some(actor), SystemRole,
                     "automatically superseded by activation of bundle " + id),
            Approval(id, t.bundles[id].tenantId, Approved, Active, Some(actor), Activator, reason)]
  }

  /**
    An activation goes through exactly when it may, active bundle or none; then it
    moves the bundle, and before it the one that was active.
   */
  lemma ActivationIs(t: Tables, id: Uuid, actor: Uuid, reason: string, failing: Option<Flush>)
    requires Invariant(t)
    ensures var op := Activate(id, actor, reason, failing);
            var t' := After(t, op);
      && (Raised(t, op).None? <==> Activates(t, id, reason, failing))
      && (Raised(t, op) == Some(NotFound) <==> id !in t.bundles)
      && (Raised(t, op) == Some(WrongStatus) <==> id in t.bundles && t.bundles[id].status != Approved)
      && (failing.None? ==>
            (Raised(t, op) == Some(BlankReason) <==> id in t.bundles && t.bundles[id].status == Approved && IsBlank(reason)))
      && (Raised(t, op).None? ==>
            && ((forall p :: !IsActiveFor(t, p, t.bundles[id].tenantId)) ==>
                  Moved(t, t', id, Approved, Active, actor, Activator, reason))
            && (forall p | IsActiveFor(t, p, t.bundles[id].tenantId) :: Replaced(t, t', p, id, actor, reason)))
  {
    hide LogTells, Segregated, IsBlank;
    if id in t.bundles && t.bundles[id].status.Approved? {
      forall p | IsActiveFor(t, p, t.bundles[id].tenantId)
        ensures forall q :: IsActiveFor(t, q, t.bundles[id].tenantId) ==> q == p
        ensures SupersedePrior(t, id, t.bundles[id].tenantId, actor)
             == Tables(t.bundles[p := t.bundles[p].(status := Superseded)],
                       t.log + [Row(p, t.bundles[p], Superseded, Some(actor), SupersededReason(id))])
      {
        PriorIsTheOne(t, id, p, t.bundles[id].tenantId, actor);
      }
    }
  }

  // ----- The calls themselves -----

  class WorkflowStore {
    var bundles: map<Uuid, Bundle>
    var log: seq<Approval>

    function State(): Tables
      reads this
    {
      Tables(bundles, log)
    }

    constructor ()
      ensures State() == Empty
    {
      bundles, log := map[], [];
    }

    method WriteBundle(id: Uuid, tenantId: Uuid, version: string) returns (error: Option<WorkflowError>)
      modifies this
      ensures var op := Op.WriteBundle(id, tenantId, version);
              State() == After(old(State()), op) && error == Raised(old(State()), op)
      ensures error.None? <==>
                && id !in old(bundles)
                && forall b | b in old(bundles) && old(bundles)[b].tenantId == tenantId :: old(bundles)[b].version != version
      ensures error.None? ==> bundles == old(bundles)[id := Bundle(tenantId, version, Proposed)] && log == old(log)
      ensures error.Some? ==> error == Some(Conflict) && State() == old(State())
    {
      if id in bundles || exists b :: b in bundles && bundles[b].tenantId == tenantId && bundles[b].version == version {
        return Some(Conflict);
      }
      bundles := bundles[id := Bundle(tenantId, version, Proposed)];
      return None;
    }

    method Propose(id: Uuid, author: Option<Uuid>, reason: string) returns (error: Option<WorkflowError>)
      modifies this`log
      ensures var op := Op.Propose(id, author, reason);
              State() == After(old(State()), op) && error == Raised(old(State()), op)
      ensures error.None? <==> id in bundles && bundles[id].status.Proposed?
      ensures error == Some(NotFound) <==> id !in bundles
      ensures error.None? ==>
                log == old(log) + [Approval(id, bundles[id].tenantId, Proposed, Proposed, author, Author, reason)]
      ensures error.Some? ==> State() == old(State())
    {
      if id !in bundles {
        return Some(NotFound);
      }
      if !bundles[id].status.Proposed? {
        return Some(WrongStatus);
      }
      log := log + [Row(id, bundles[id], Proposed, author, reason)];
      return None;
    }

    /** `_enforce_segregation` */
    method EnforceSegregation(id: Uuid, actor: Uuid, forbidden: set<Role>) returns (ok: bool)
      ensures ok <==> forall role | role in forbidden :: !Filled(log, id, role, actor)
    {
      for i := 0 to |log|
        invariant forall j :: 0 <= j < i ==> !(log[j].bundleId == id && log[j].role in forbidden && log[j].actor == Some(actor))
      {
        if log[i].bundleId == id && log[i].role in forbidden && log[i].actor == Some(actor) {
          assert Filled(log, id, log[i].role, actor);
          return false;
        }
      }
      return true;
    }

    /** `_transition`; `failing` names the flush the database refuses, leaving what was staged before it. */
    method MoveTo(id: Uuid, to: Status, actor: Uuid, reason: string, failing: Option<Flush>)
      returns (error: Option<WorkflowError>)
      modifies this
      ensures var next := Transition(old(State()), id, to, actor, reason);
        && (error.None? ==> next == Success(State()))
        && (error.Some? && failing.None? ==> next == Failure(error.value) && State() == old(State()))
        && (error.None? <==> next.Success? && failing != Some(ActivationLogged) && failing != Some(ActivationDone))
        && (error.Some? ==> error.value == if next.Failure? then next.error else FlushFailed)
    {
      if IsBlank(reason) {
        return Some(BlankReason);
      }
      if id !in bundles {
        return Some(NotFound);
      }
      var b := bundles[id];
      if !ValidTransition(b.status, to) {
        return Some(WrongStatus);
      }
      if failing == Some(ActivationLogged) {
        return Some(FlushFailed);
      }
      log := log + [Row(id, b, to, Some(actor), reason)];
      if failing == Some(ActivationDone) {
        return Some(FlushFailed);
      }
      bundles := bundles[id := b.(status := to)];
      return None;
    }

    method Review(id: Uuid, actor: Uuid, reason: string) returns (error: Option<WorkflowError>)
      modifies this
      ensures var op := Op.Review(id, actor, reason);
              State() == After(old(State()), op) && error == Raised(old(State()), op)
      ensures error == Some(SegregationViolated) <==> Filled(old(log), id, Author, actor)
      ensures !Filled(old(log), id, Author, actor) ==> Checks(error, old(State()), id, Proposed, reason)
      ensures error.None? ==> Moved(old(State()), State(), id, Proposed, Reviewed, actor, Reviewer, reason)
      ensures error.Some? ==> State() == old(State())
    {
      var ok := EnforceSegregation(id, actor, {Author});
      assert ok <==> !Filled(log, id, Author, actor);
      if !ok {
        return Some(SegregationViolated);
      }
      error := MoveTo(id, Reviewed, actor, reason, None);
    }

    method Approve(id: Uuid, actor: Uuid, reason: string) returns (error: Option<WorkflowError>)
      modifies this
      ensures var op := Op.Approve(id, actor, reason);
              State() == After(old(State()), op) && error == Raised(old(State()), op)
      ensures error == Some(SegregationViolated) <==>
                Filled(old(log), id, Author, actor) || Filled(old(log), id, Reviewer, actor)
      ensures !Filled(old(log), id, Author, actor) && !Filled(old(log), id, Reviewer, actor) ==>
                Checks(error, old(State()), id, Reviewed, reason)
      ensures error.None? ==> Moved(old(State()), State(), id, Reviewed, Approved, actor, Approver, reason)
      ensures error.Some? ==> State() == old(State())
    {
      var ok := EnforceSegregation(id, actor, {Author, Reviewer});
      assert ok <==> !Filled(log, id, Author, actor) && !Filled(log, id, Reviewer, actor);
      if !ok {
        return Some(SegregationViolated);
      }
      error := MoveTo(id, Approved, actor, reason, None);
    }

    method Supersede(id: Uuid, actor: Uuid, reason: string) returns (error: Option<WorkflowError>)
      modifies this
      ensures var op := Op.Supersede(id, actor, reason);
              State() == After(old(State()), op) && error == Raised(old(State()), op)
      ensures Checks(error, old(State()), id, Active, reason)
      ensures error.None? ==> Moved(old(State()), State(), id, Active, Superseded, actor, SystemRole, reason)
      ensures error.Some? ==> State() == old(State())
    {
      error := MoveTo(id, Superseded, actor, reason, None);
    }

    /**
      `activate`: the prior active bundle is superseded first, inside a
      savepoint. When anything after that fails, a blank reason included, the
      rows and the log are exactly as before the call.
     */
    method Activate(id: Uuid, actor: Uuid, reason: string, failing: Option<Flush>)
      returns (error: Option<WorkflowError>)
      requires Invariant(State())
      modifies this
      ensures Invariant(State())
      ensures var op := Op.Activate(id, actor, reason, failing);
              State() == After(old(State()), op) && error == Raised(old(State()), op)
      ensures error.Some? ==> State() == old(State())
      ensures error.None? <==> Activates(old(State()), id, reason, failing)
      ensures error == Some(NotFound) <==> id !in old(bundles)
      ensures error == Some(WrongStatus) <==> id in old(bundles) && !old(bundles)[id].status.Approved?
      ensures failing.None? ==>
                (error == Some(BlankReason) <==> id in old(bundles) && old(bundles)[id].status.Approved? && IsBlank(reason))
      ensures error.None? && (forall p :: !old(IsActiveFor(State(), p, bundles[id].tenantId))) ==>
                Moved(old(State()), State(), id, Approved, Active, actor, Activator, reason)
      ensures error.None? ==> forall p | old(IsActiveFor(State(), p, bundles[id].tenantId)) ::
                Replaced(old(State()), State(), p, id, actor, reason)
    {
      hide Invariant, Row, IsBlank, SupersededReason, LogTells, Segregated, OneActive, Replay;
      ghost var op := Op.Activate(id, actor, reason, failing);
      hide Activates, Replaced, Moved;
      ApplyKeepsInvariant(State(), op);
      ActivationIs(State(), id, actor, reason, failing);
      if id !in bundles {
        return Some(NotFound);
      }
      if !bundles[id].status.Approved? {
        return Some(WrongStatus);
      }
      var tenantId := bundles[id].tenantId;
      SupersedePriorKeeps(State(), id, actor);
      var savedBundles, savedLog := bundles, log;
      if exists p :: p in bundles && bundles[p].tenantId == tenantId && bundles[p].status.Active? {
        var p :| p in bundles && bundles[p].tenantId == tenantId && bundles[p].status.Active?;
        PriorIsTheOne(State(), id, p, tenantId, actor);
        if failing == Some(PriorLogged) {
          return Some(FlushFailed);
        }
        log := log + [Row(p, bundles[p], Superseded, Some(actor), SupersededReason(id))];
        if failing == Some(PriorSuperseded) {
          bundles, log := savedBundles, savedLog;
          return Some(FlushFailed);
        }
        bundles := bundles[p := bundles[p].(status := Superseded)];
      } else {
        assert forall p :: !IsActiveFor(State(), p, tenantId);
      }
      assert State() == SupersedePrior(old(State()), id, tenantId, actor);
      error := MoveTo(id, Active, actor, reason, failing);
      if error.Some? {
        bundles, log := savedBundles, savedLog;
      }
    }
  }

  lemma PriorIsTheOne(t: Tables, id: Uuid, p: Uuid, tenantId: Uuid, actor: Uuid)
    requires Invariant(t) && IsActiveFor(t, p, tenantId)
    ensures forall q :: IsActiveFor(t, q, tenantId) ==> q == p
    ensures SupersedePrior(t, id, tenantId, actor)
         == Tables(t.bundles[p := t.bundles[p].(status := Superseded)],
                   t.log + [Row(p, t.bundles[p], Superseded, Some(actor), SupersededReason(id))])
  {
    hide LogTells, Segregated;
  }
}
