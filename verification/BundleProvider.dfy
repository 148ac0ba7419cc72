/**
  Resolving a tenant's active bundle, with the bootstrap that walks a default
  bundle through the whole approval workflow
  (apps/api/ingest_service.py:258-307, packages/ledger/bundle_repository.py:35-62).
 */
module BundleProvider {
  import opened Wrappers
  import opened Primitives
  import opened BundleWorkflow

  const DEFAULT_VERSION := "1.0.0"
  const BOOTSTRAP_REASON := "auto-bootstrap by PostgresBundleProvider"

  /** The fresh ids of one call: the bundle's and its four actors'. */
  datatype Ids = Ids(bundle: Uuid, author: Uuid, reviewer: Uuid, approver: Uuid, activator: Uuid)

  /** No actor fills two of the segregated roles. */
  predicate ActorsDiffer(ids: Ids)
  {
    ids.reviewer != ids.author && ids.approver != ids.author && ids.approver != ids.reviewer
  }

  /** A bundle of the default version exists for the tenant, whatever its status. */
  ghost predicate VersionTaken(t: Tables, tenantId: Uuid)
  {
    exists b :: b in t.bundles && t.bundles[b].tenantId == tenantId && t.bundles[b].version == DEFAULT_VERSION
  }

  ghost predicate NoActive(t: Tables, tenantId: Uuid)
  {
    forall p :: !IsActiveFor(t, p, tenantId)
  }

  /** The four rows a bootstrap logs. */
  function BootstrapLog(ids: Ids, tenantId: Uuid): seq<Approval>
  {
    [Approval(ids.bundle, tenantId, Proposed, Proposed, Some(ids.author), Author, BOOTSTRAP_REASON),
     Approval(ids.bundle, tenantId, Proposed, Reviewed, Some(ids.reviewer), Reviewer, BOOTSTRAP_REASON),
     Approval(ids.bundle, tenantId, Reviewed, Approved, Some(ids.approver), Approver, BOOTSTRAP_REASON),
     Approval(ids.bundle, tenantId, Approved, Active, Some(ids.activator), Activator, BOOTSTRAP_REASON)]
  }

  lemma ReasonIsGiven()
    ensures !IsBlank(BOOTSTRAP_REASON)
  {
    assert BOOTSTRAP_REASON[0] == 'a';
    assert BOOTSTRAP_REASON[0] in BOOTSTRAP_REASON;
  }

  /** The tables while a bootstrap is under way: the new bundle, and `n` of its rows. */
  ghost predicate Underway(t: Tables, t': Tables, ids: Ids, tenantId: Uuid, status: Status, n: nat)
  {
    && n <= 4 && ids.bundle !in t.bundles && LogTells(t)
    && t'.bundles == t.bundles[ids.bundle := Bundle(tenantId, DEFAULT_VERSION, status)]
    && t'.log == t.log + BootstrapLog(ids, tenantId)[..n]
  }

  /** The only rows of the new bundle are the bootstrap's own. */
  lemma NotFilled(t: Tables, t': Tables, ids: Ids, tenantId: Uuid, status: Status, n: nat, role: Role, actor: Uuid)
    requires Underway(t, t', ids, tenantId, status, n) && n <= 2
    requires role == Author ==> actor != ids.author
    requires role == Reviewer ==> n < 2 || actor != ids.reviewer
    requires role == Author || role == Reviewer
    ensures !Filled(t'.log, ids.bundle, role, actor)
  {
    hide Replay;
    forall i | 0 <= i < |t'.log| && t'.log[i].bundleId == ids.bundle
      ensures !(t'.log[i].role == role && t'.log[i].actor == Some(actor))
    {
    }
  }

  /**
    `PostgresBundleProvider.get_active_bundle` inside its session. The active
    bundle if there is one; else a default bundle, proposed and - when asked -
    reviewed, approved and activated by distinct actors. It fails exactly when no
    bundle is active and the default version exists already, and then changes
    nothing.
   */
  method GetActiveBundle(store: WorkflowStore, tenantId: Uuid, autoActivate: bool, ids: Ids)
    returns (r: Result<Uuid, WorkflowError>)
    requires Invariant(store.State()) && ids.bundle !in store.bundles && ActorsDiffer(ids)
    modifies store
    ensures Invariant(store.State())
    ensures forall p :: old(IsActiveFor(store.State(), p, tenantId)) ==> r == Success(p) && store.State() == old(store.State())
    ensures r.Failure? <==> old(NoActive(store.State(), tenantId)) && old(VersionTaken(store.State(), tenantId))
    ensures r.Failure? ==> r.error == Conflict && store.State() == old(store.State())
    ensures r.Success? && old(NoActive(store.State(), tenantId)) ==>
              && r.value == ids.bundle
              && store.bundles == old(store.bundles)[ids.bundle :=
                   Bundle(tenantId, DEFAULT_VERSION, if autoActivate then Active else Proposed)]
              && store.log == old(store.log) + if autoActivate then BootstrapLog(ids, tenantId) else []
  {
    hide Invariant, IsBlank, Filled;
    ghost var before := store.State();
    assert LogTells(before) && OneActive(before) by {
      InvariantParts(before);
    }
    if exists p :: p in store.bundles && store.bundles[p].tenantId == tenantId && store.bundles[p].status.Active? {
      var p :| p in store.bundles && store.bundles[p].tenantId == tenantId && store.bundles[p].status.Active?;
      assert IsActiveFor(before, p, tenantId);
      return Success(p);
    }
    assert NoActive(before, tenantId);
    ApplyKeepsInvariant(before, Op.WriteBundle(ids.bundle, tenantId, DEFAULT_VERSION));
    var error := store.WriteBundle(ids.bundle, tenantId, DEFAULT_VERSION);
    if error.Some? {
      return Failure(error.value);
    }
    if autoActivate {
      WalkToActive(store, before, tenantId, ids);
    }
    return Success(ids.bundle);
  }

  lemma InvariantParts(t: Tables)
    requires Invariant(t)
    ensures LogTells(t) && OneActive(t)
  {
  }

  lemma ProposeGoesOn(t: Tables, t': Tables, ids: Ids, tenantId: Uuid)
    requires Underway(t, t', ids, tenantId, Proposed, 0)
    ensures Underway(t, After(t', Op.Propose(ids.bundle, Some(ids.author), BOOTSTRAP_REASON)), ids, tenantId, Proposed, 1)
  {
    hide LogTells;
  }

  lemma ReviewGoesOn(t: Tables, t': Tables, ids: Ids, tenantId: Uuid)
    requires Underway(t, t', ids, tenantId, Proposed, 1) && ActorsDiffer(ids)
    ensures Underway(t, After(t', Op.Review(ids.bundle, ids.reviewer, BOOTSTRAP_REASON)), ids, tenantId, Reviewed, 2)
  {
    hide LogTells, Filled, IsBlank;
    ReasonIsGiven();
    NotFilled(t, t', ids, tenantId, Proposed, 1, Author, ids.reviewer);
  }

  lemma ApproveGoesOn(t: Tables, t': Tables, ids: Ids, tenantId: Uuid)
    requires Underway(t, t', ids, tenantId, Reviewed, 2) && ActorsDiffer(ids)
    ensures Underway(t, After(t', Op.Approve(ids.bundle, ids.approver, BOOTSTRAP_REASON)), ids, tenantId, Approved, 3)
  {
    hide LogTells, Filled, IsBlank;
    ReasonIsGiven();
    NotFilled(t, t', ids, tenantId, Reviewed, 2, Author, ids.approver);
    NotFilled(t, t', ids, tenantId, Reviewed, 2, Reviewer, ids.approver);
  }

  lemma ActivateGoesOn(t: Tables, t': Tables, ids: Ids, tenantId: Uuid)
    requires Underway(t, t', ids, tenantId, Approved, 3) && NoActive(t, tenantId)
    ensures Underway(t, After(t', Op.Activate(ids.bundle, ids.activator, BOOTSTRAP_REASON, None)), ids, tenantId, Active, 4)
  {
    hide LogTells, IsBlank;
    ReasonIsGiven();
    forall p ensures !IsActiveFor(t', p, tenantId) {
      assert !IsActiveFor(t, p, tenantId);
    }
  }

  /** The four workflow calls of a bootstrap, none of which can fail. */
  method WalkToActive(store: WorkflowStore, ghost before: Tables, tenantId: Uuid, ids: Ids)
    requires Invariant(store.State()) && ActorsDiffer(ids) && NoActive(before, tenantId)
    requires Underway(before, store.State(), ids, tenantId, Proposed, 0)
    modifies store
    ensures Invariant(store.State())
    ensures Underway(before, store.State(), ids, tenantId, Active, 4)
  {
    hide Invariant, After, Underway, NoActive, BundleWorkflow.Filled, IsBlank;
    ProposeGoesOn(before, store.State(), ids, tenantId);
    ApplyKeepsInvariant(store.State(), Op.Propose(ids.bundle, Some(ids.author), BOOTSTRAP_REASON));
    var proposed := store.Propose(ids.bundle, Some(ids.author), BOOTSTRAP_REASON);
    ReviewGoesOn(before, store.State(), ids, tenantId);
    ApplyKeepsInvariant(store.State(), Op.Review(ids.bundle, ids.reviewer, BOOTSTRAP_REASON));
    var reviewed := store.Review(ids.bundle, ids.reviewer, BOOTSTRAP_REASON);
    ApproveGoesOn(before, store.State(), ids, tenantId);
    ApplyKeepsInvariant(store.State(), Op.Approve(ids.bundle, ids.approver, BOOTSTRAP_REASON));
    var approved := store.Approve(ids.bundle, ids.approver, BOOTSTRAP_REASON);
    ActivateGoesOn(before, store.State(), ids, tenantId);
    var activated := store.Activate(ids.bundle, ids.activator, BOOTSTRAP_REASON, None);
  }

  /**
    The documentation promises that revoking the active bundle falls back to the
    bootstrap. It does not once the revoked bundle has the default version: the
    tenant is then left without an active bundle and the version is taken, which
    is exactly when the next call fails.
   */
  lemma SupersededDefaultBlocksBootstrap(t: Tables, tenantId: Uuid, id: Uuid, actor: Uuid, reason: string)
    requires Invariant(t) && IsActiveFor(t, id, tenantId) && t.bundles[id].version == DEFAULT_VERSION
    requires !IsBlank(reason)
    ensures var t' := After(t, Op.Supersede(id, actor, reason));
            NoActive(t', tenantId) && VersionTaken(t', tenantId)
  {
    hide LogTells, Segregated, IsBlank, Row;
    var t' := After(t, Op.Supersede(id, actor, reason));
    forall p ensures !IsActiveFor(t', p, tenantId) {
      assert IsActiveFor(t, p, tenantId) ==> p == id;
    }
    assert t'.bundles[id].version == DEFAULT_VERSION;
  }

  /** Without automatic activation, the call after a bootstrap fails too, until the workflow has completed. */
  lemma ProposedDefaultBlocksBootstrap(t: Tables, t': Tables, tenantId: Uuid, id: Uuid)
    requires NoActive(t, tenantId) && id !in t.bundles
    requires t'.bundles == t.bundles[id := Bundle(tenantId, DEFAULT_VERSION, Proposed)]
    ensures NoActive(t', tenantId) && VersionTaken(t', tenantId)
  {
    forall p ensures !IsActiveFor(t', p, tenantId) {
      assert !IsActiveFor(t, p, tenantId);
    }
    assert t'.bundles[id].version == DEFAULT_VERSION;
  }
}
