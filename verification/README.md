# Forensa, verified

Forensa is an evidence ledger. An event posted to it becomes a receipt in its
tenant's hash chain; receipts are anchored day by day at an external timestamp
authority, exported as evidence packs, and bundled for due diligence. This
project models that path, from an ingested event to a sealed export, and the
state machines around it, and proves what they keep.

## What is modelled

- **Encoding.** `Bytes` (UTF-8, base64), `CanonicalJson` (the canonical encoder
  and a parser that inverts it), `CanonicalText` (the grammar of canonical text,
  stated apart from both), `Sorting` (the stable sort, Python's string order),
  `Primitives` (digests, and what equal digests mean).
- **Chains and receipts.** `MerkleChain`, `Receipts`, `Ledger` (any number of
  ingest processes with stale heads), `Ingest` (one call, start to finish).
- **Exports.** `Windows` (the signed-at query), `EvidencePack` and `PackBuilder`,
  `MaExport`, `ExportPipeline` and `ExportAccounting`, `Streaming`.
- **Anchors.** `AnchorDays` (daily anchoring with overlapping calls) and
  `AnchorProofs` (is this receipt under that root?).
- **Around the ledger.** `Paging`, `Idempotency`, `Token`, `BundleWorkflow`,
  `BundleProvider`, `ExportJobs`, `Tabletop`.

Three conventions run through the whole model.

- **Nothing is assumed of SHA-256** except that digests are 64 lowercase hex
  digits. It is a function parameter, as are Ed25519 signing, HMAC, MD5 and the
  ISO-8601 text of an instant. A tamper theorem says "the contents are equal, or
  two distinct byte strings, one from each of these two explicit finite sets,
  have the same digest" (`Primitives.Clash`). A bound time is an instant with the
  UTC offset it is written in; distinct ones are taken to have distinct ISO texts
  (`FaithfulIso`).
- **A run is any list of atomic steps**, so a theorem about all lists covers every
  interleaving. Rows are committed or rolled back as a session scope does
  (packages/ledger/session.py:58-73). Fresh UUIDs, the clock and the outcomes of
  outside calls are inputs; times are whole microseconds since the epoch.
- **A dict is a list of members** in the order it was filled, with distinct keys;
  `Meaning` forgets the order.

## Where the code and its comments differ

The model follows the code.

- `lookup_or_claim` reserves nothing (apps/api/idempotency_store.py:217-220), so
  overlapping requests with one key can both ingest; the theorems are about
  requests that do not overlap.
- Day windows of an export include both midnights
  (packages/jobs/ma_export_runner.py:310-313): a receipt signed exactly at the
  midnight between two anchored days is exported twice.
  `ExportAccounting.AtMostTwoPacks` says when, `TotalIsDistinctPlusShared` how it
  is counted.
- A full last page ending at sequence 0 yields cursor 0, which the route itself
  rejects (apps/api/routes/receipts.py:158-160, 251); nothing is left then.
- A pack's root is said to bind its whole content. It does not bind `@context`,
  and does not tell a null from an empty string in three fields:
  `EvidencePack.RootDeterminesPack` is the exact statement.
- Tampering with any included artefact is said to invalidate a bundle
  (packages/export/ma_export.py:210-212). The root binds the packs' own root hashes,
  the anchor ids and the anchor roots, each as a list of its own, and verifying a
  bundle does not verify its packs: `MaExport.RootDeterminesExport` is the exact
  statement, `EmptiedPackStillVerifies`, `AnchorEditUnseen` and `IdTradeUnseen` are
  edits it does not see.
- `verify_chain` accepts entries that `next_entry` would never build, such as one
  under an empty payload hash: `MerkleChain.BuiltIffChainedAndPlain` says which.
- `build_evidence_pack` says an anchor must belong to the tenant; it carries no
  tenant and none is checked.
- Revoking the active bundle is said to fall back to the bootstrap
  (packages/ledger/bundle_workflow.py:266-269). The bootstrap always writes version
  1.0.0, which is unique per tenant, so it fails when that version exists:
  `BundleProvider.GetActiveBundle` gives the exact condition, and
  `SupersededDefaultBlocksBootstrap` the case. The same holds for repeated calls
  without automatic activation (apps/api/ingest_service.py:225-232).
- Job transitions read without a row lock
  (packages/ledger/ma_export_job_repository.py:144-153); the model takes each
  session as one atomic step.

## Model

| member | source | states |
|---|---|---|
| `Bytes.Utf8RoundTrip` | packages/crypto/hash.py:27-32 | decoding the UTF-8 bytes of any text gives it back |
| `Bytes.Base64RoundTrip` | packages/crypto/hash.py:42-45 | the lenient decoder undoes the padded encoder, standard or URL-safe, on every byte string |
| `CanonicalJson.ParseRender` | packages/crypto/hash.py:27-32 | parsing printed JSON, escapes, surrogate pairs and nesting included, gives exactly the value printed |
| `CanonicalJson.CanonicalIffSameMeaning` | packages/crypto/hash.py:21-54 | canonical bytes are equal if and only if the values are, whatever order their dicts were filled in |
| `CanonicalJson.CanonicalRoundTrip` | packages/crypto/hash.py:21-54 | canonical bytes decode and parse back to the value |
| `Sorting.LessIsBefore` | packages/crypto/hash.py:27-32 | the string order decides by the first differing character, the smaller first, and puts a proper prefix first |
| `CanonicalText.CanonicalForm` | packages/crypto/hash.py:21-54 | it fails exactly when some path leads to a null; otherwise its bytes are the UTF-8 of the one text that spells the value by the grammar: keys rising character by character, no spaces, and only quotes, backslashes and control characters escaped, each in its one form |
| `Primitives.DigestDetermines` | packages/crypto/hash.py:57-59 | equal digests of two values mean equal canonical texts, or a collision of exactly those two texts |
| `MerkleChain.VerifyChain` | packages/crypto/merkle.py:111-135 | over entries of any JSON values: true if and only if every entry is complete, in sequence, linked and rehashes; raises exactly when the walk meets a null it would have to hash |
| `MerkleChain.NextEntryFits` | packages/crypto/merkle.py:83-108 | what next_entry returns is the one entry with a number and that payload hash that may follow the chain |
| `MerkleChain.BuiltIsChained` | packages/crypto/merkle.py:83-135 | every list built by repeated next_entry verifies, is plain, and carries the given payload hashes |
| `MerkleChain.BuiltIffChainedAndPlain` | packages/crypto/merkle.py:83-135 | the lists repeated next_entry calls build are exactly those verify_chain accepts whose sequences are numbers and whose payload hashes are text and not empty |
| `MerkleChain.VerifiedButNeverBuilt` | packages/crypto/merkle.py:91-92 | the counterexample without that condition: a verified entry under an empty payload hash, which next_entry refuses |
| `MerkleChain.BindDetermines` | packages/crypto/merkle.py:65-80 | equal entry hashes fix sequence, payload hash and link, or the two bound texts collide |
| `MerkleChain.HeadDeterminesChain` | packages/crypto/merkle.py:65-135 | two verified chains with the same head hash are equal in length and the same entry by entry, or a collision is exhibited |
| `Receipts.BuiltReceipt` | packages/ledger/receipt_builder.py:59-118 | when building succeeds, and that the receipt recomputes, follows its predecessor and binds the payload |
| `Receipts.RecomputeDetermines` | packages/ledger/receipt_builder.py:146-163 | the receipt hash fixes every bound field up to a collision, and nothing else: equal bound fields give equal hashes |
| `Receipts.ChainExtends` | packages/ledger/receipt_builder.py:183-193 | a receipt that follows the head extends a valid chain |
| `Ledger.LatestIsHighest` | packages/ledger/repositories.py:340-357 | the head query returns the tenant's row of highest sequence, or nothing if it has none |
| `Ledger.LatestIsLast` | packages/ledger/repositories.py:340-357 | on a valid chain that row is the one committed last |
| `Ledger.FreeMeansBeyond` | packages/ledger/models.py:249-249 | a sequence is free under the unique constraint exactly when the chain has not reached it |
| `Ledger.WritesExactlyWhen` | packages/ledger/repositories.py:33-125 | a write is accepted exactly when the three guards, the foreign keys, the primary keys and the two unique constraints hold, else names the first guard that fails or the database; it adds one row to the end of each table |
| `Ledger.NextInLine` | packages/ledger/receipt_builder.py:183-193 | a receipt built on any committed head, stale or not, has a free sequence only if it is the next one, and then links to the current head |
| `Ledger.WriteKeepsSound` | packages/ledger/repositories.py:33-125 | an accepted write keeps every tenant's chain valid, every receipt accounted for by its event and snapshot rows, and time order |
| `Ledger.StepKeepsInvariant` | apps/api/ingest_service.py:377-403 | every step of every process keeps the invariant and only adds rows |
| `Ledger.ConcurrentIngestIsSafe` | apps/api/ingest_service.py:360-422 | under every interleaving, with stale heads and crashes, each tenant's receipts are 0..n-1, linked, recompute, have their rows, which share their ids with no other, nor any two receipts a hash, and extend every earlier chain |
| `Ledger.SigningTimesNeverFall` | packages/ledger/receipt_builder.py:117-117 | with a clock that never falls back, signed_at is nondecreasing along each chain although receipts are built and committed apart |
| `Ledger.CommitIffHeadStillCurrent` | packages/ledger/repositories.py:33-125 | a built receipt commits exactly when its foreign keys exist, its ids are new and its head is still the head, unless its hash collides with a stored one |
| `Ingest.IngestExtendsChain` | apps/api/ingest_service.py:360-422 | one call adds exactly its three rows at the head of its tenant's chain and leaves all others alone; a failure adds nothing |
| `Ingest.IngestSucceedsIff` | apps/api/ingest_service.py:360-422 | one undisturbed call succeeds only if, and up to a collision whenever, the verdict binds the bundle, the payload can be hashed, the foreign keys exist and the ids are new |
| `Ingest.FailsAtTheFirstCheck` | apps/api/ingest_service.py:360-405 | which error a call ends with: no verdict, a verdict on another bundle, a snapshot that does not match, a payload that cannot be hashed, or a refused insert, in this order |
| `Ingest.IngestIsOneRun` | apps/api/ingest_service.py:377-403 | such a call is the three steps of one process run back to back |
| `Ingest.Store.WriteEventWithReceipt` | packages/ledger/repositories.py:33-125 | commits all three rows, or names the failed check and changes nothing |
| `Ingest.Store.IngestEvent` | apps/api/ingest_service.py:326-422 | on success the rows are the call's own, the chain is one receipt longer and the live recheck holds; on failure nothing changed |
| `Windows.BeforeSplits` | packages/ledger/repositories.py:317-324 | on a time-ordered chain the receipts before an instant are a prefix |
| `Windows.WindowIsContiguous` | packages/ledger/repositories.py:282-337 | the window query returns one contiguous run of the chain, cut at the limit, and exactly the window's part of it |
| `Windows.WindowIsComplete` | packages/ledger/repositories.py:282-337 | below its limit it returns every receipt of the window and nothing else |
| `Windows.WindowFinds` | packages/ledger/repositories.py:282-337 | on any table it finds only the window's receipts, below its limit each exactly as often as stored |
| `EvidencePack.ItemMeaning` | packages/export/builder.py:139-149 | two bound items agree exactly when the items do, a null previous hash reading as empty |
| `EvidencePack.AnchorMeaning` | packages/export/builder.py:152-165 | two bound anchors agree exactly when the anchors do, up to two null-or-empty fields |
| `EvidencePack.PackMeaning` | packages/export/builder.py:117-123 | two bound packs agree exactly when header, items, activities and the anchor, or its absence, do |
| `EvidencePack.RootDeterminesPack` | packages/export/builder.py:168-182 | two verifying packs have the same root exactly when their content agrees, offsets of their times included, up to a collision of their two texts |
| `EvidencePack.UnboundEdits` | packages/export/builder.py:139-182 | the edits the root does not see: context, and null against empty in the sentinel fields |
| `PackBuilder.BuildEvidencePack` | packages/export/builder.py:45-136 | refuses an inverted scope, then foreign receipts, else returns the pack of the sorted receipts |
| `PackBuilder.BuiltPackReports` | packages/export/builder.py:77-136 | whatever the input order, the pack verifies and reports exactly the given receipts by ascending sequence, each with its activity |
| `PackBuilder.ItemGivesBackReceipt` | packages/export/builder.py:82-96 | an item gives back its receipt and snapshot id, all but the agent's signature |
| `PackBuilder.SegmentReplays` | packages/export/builder.py:60-61 | the items of a contiguous segment have consecutive sequences and link each to the one before |
| `PackBuilder.WindowPackReplays` | packages/export/builder.py:45-136 | over any reachable ledger with a monotone clock, the pack of a window query is one segment of the chain, verifies, replays and is complete below the limit |
| `MaExport.BuiltExportVerifies` | packages/export/ma_export.py:188-263 | a bundle that is built verifies, carries the given packs and anchors, is one tenant's, and its header counts what it carries |
| `MaExport.BuildsExactlyWithinLimits` | packages/export/ma_export.py:214-230 | a bundle is built exactly when the scope is not inverted, there are at most 366 packs and 100,000 receipts, and every pack is the tenant's; else the first of these that fails is the error |
| `MaExport.ExportMeaning` | packages/export/ma_export.py:250-255 | two bound bundles agree exactly when headers, pack roots, the multiset of anchor ids and the list of anchor roots do |
| `MaExport.RootDeterminesExport` | packages/export/ma_export.py:266-279 | two verifying bundles of verifying packs have the same root exactly when headers, packs, anchor ids and anchor roots agree, or texts they bind collide |
| `MaExport.AnchorEditUnseen` | packages/export/ma_export.py:266-279 | an anchor's date, status, TSA, TSR, signature and times can change under the same root |
| `MaExport.IdTradeUnseen` | packages/export/ma_export.py:253-254 | two anchors can trade ids under the same root: ids and root hashes are bound apart |
| `MaExport.EmptiedPackStillVerifies` | packages/export/ma_export.py:244-279 | a bundle whose pack has lost its receipts still verifies under the same root; only verifying that pack shows it, up to a collision |
| `MaExport.DailyChunks` | packages/export/ma_export.py:282-298 | fails exactly on an inverted scope, else the chunks tile it end to end, each at most a day and all but the last a whole one |
| `MaExport.InstantInOneChunk` | packages/export/ma_export.py:282-298 | every instant of the scope but its last is in exactly one chunk |
| `ExportPipeline.EvidenceShowsRow` | packages/export/schema.py:88-114 | the embedded evidence shows every field of the anchor row, its bytes as base64 that decodes back |
| `ExportPipeline.BuildForJob` | packages/jobs/ma_export_runner.py:263-346 | the job's loop computes the specified bundle or its first error; `ExportAccounting.ExportsExactlyWithinLimits` says when |
| `ExportPipeline.ExportRoute` | apps/api/routes/exports.py:153-266 | the route's loop computes the very same bundle, after its own checks of tenant, offsets and order, or 413 exactly when there is none |
| `ExportAccounting.HitsAre` | packages/jobs/ma_export_runner.py:310-313 | an instant is in the window of its own day and, at midnight, of the day before, and in no other |
| `ExportAccounting.DoubleCounting` | packages/export/ma_export.py:220-220 | summing window sizes over days is summing windows over receipts |
| `ExportAccounting.PipelineRows` | packages/jobs/ma_export_runner.py:282-304 | a successful export runs over exactly the scope's anchors, distinct midnights by rising date, and embeds them in that order |
| `ExportAccounting.PackHoldsItsWindow` | packages/jobs/ma_export_runner.py:306-336 | each pack verifies, reports exactly the tenant's receipts signed in its day's clipped window, both ends included, and carries that window's bounds and its day's anchor |
| `ExportAccounting.TotalIsDistinctPlusShared` | packages/export/ma_export.py:220-242 | the total is the receipts carried plus one more for each signed at a midnight between two anchored days |
| `ExportAccounting.ExportsExactlyWithinLimits` | packages/jobs/ma_export_runner.py:282-346 | a scope is exported exactly when it is not inverted, has at most 366 anchored days, at most 1000 receipts in each day's window and at most 100,000 in all, midnight repeats counted twice; else what is refused, down to the first day that does not fit |
| `ExportAccounting.AtMostTwoPacks` | packages/jobs/ma_export_runner.py:310-313 | a receipt is in at most two packs, and in two exactly at a midnight shared by two anchored days |
| `AnchorDays.DayHoldsItsInstants` | packages/ledger/anchor.py:105-122 | an instant is within the bounds of exactly its own UTC day |
| `AnchorDays.LatestForDayIsHighest` | packages/ledger/anchor.py:312-329 | the day's root receipt is the tenant's highest sequence signed that day, or there is none |
| `AnchorDays.AnchorTable.AnchorDay` | packages/ledger/anchor.py:125-290 | refused exactly when the day is anchored; otherwise it replaces that day's row and no other, and counts the day's receipts |
| `AnchorDays.StepKeepsInvariant` | packages/ledger/anchor.py:165-290 | every step of overlapping calls keeps the table valid and every anchored row |
| `AnchorDays.OneShapedRowPerDay` | packages/ledger/anchor.py:165-290 | after any run each tenant and day has at most one row, with root, TSR, signature and time null exactly on deferred ones |
| `AnchorDays.AnchorsArePermanent` | packages/ledger/anchor.py:168-173 | an anchored row is in the table of every later state, unchanged |
| `AnchorDays.FinishWritesIff` | packages/ledger/anchor.py:165-290 | a call writes its row exactly when the day still holds nothing but the tombstone it had read, if any; else the table stays as it is |
| `AnchorDays.CallIsOneRun` | packages/ledger/anchor.py:125-290 | a read and a finish with nothing in between do what one undisturbed call does: nothing on an anchored day, else the day's row is replaced |
| `AnchorDays.RowsComeFromTheirCall` | packages/ledger/anchor.py:175-271 | every row, tombstones included, is what one call wrote at its finish out of exactly what it had read last |
| `AnchorDays.AnchoredRootIsDaysLatest` | packages/ledger/anchor.py:175-271 | an anchored root is the hash of the receipt that was the day's highest at the very read of the call that wrote the row, with no other step of that call in between |
| `AnchorProofs.VerifyReceiptAnchoredIn` | packages/ledger/anchor.py:361-408 | the walk with its early exits decides the five documented conditions |
| `AnchorProofs.PathIsLedger` | packages/ledger/anchor.py:396-408 | walking back from a root in a valid ledger, each linked receipt is the ledger's own in every bound field, or a collision is exhibited |
| `AnchorProofs.AcceptedMeansInLedger` | packages/ledger/anchor.py:361-408 | soundness: accepted receipts that recompute are the ledger segment ending at the root, or a collision is exhibited |
| `AnchorProofs.LedgerSliceIsAccepted` | packages/ledger/anchor.py:361-408 | completeness: given the ledger slice up to a root, a receipt is accepted exactly against an anchored row of its tenant with that root, stamped no earlier than the receipt was signed |
| `AnchorProofs.UnboundFieldsStayFree` | packages/ledger/receipt_builder.py:146-163 | id, signatures and signing time can differ without a trace in hash or acceptance, as long as the time check still holds |
| `Paging.OrderedIsNewest` | packages/ledger/repositories.py:194-199 | on a valid chain the ordered query is the filtered chain from its newest receipt down |
| `Paging.PageAndRest` | apps/api/routes/receipts.py:249-251 | a page is the first `limit` of the list past the offset; with what its cursor leaves it makes up the list; with no cursor, or cursor 0, nothing is left |
| `Paging.ServedExactlyToOwner` | apps/api/routes/receipts.py:147-262 | a page is served exactly for parameters within bounds, the principal's own tenant and a window of aware times that is not inverted, else 422, 403 and 422 in that order; the cursor is the least sequence of a full page |
| `Paging.FollowReadsTheRest` | packages/ledger/repositories.py:253-260 | whatever is appended meanwhile, following a cursor returns exactly what the first fetch could see below it |
| `Paging.PagesAreTheFilteredList` | apps/api/routes/receipts.py:227-262 | following the cursors returns each receipt of the tenant and the time window, both ends included, in the table of the first fetch, once, by strictly falling sequence, at any page size and offset |
| `Paging.RunsGrow` | apps/api/ingest_service.py:377-403 | the table read at successive moments of any concurrent run is such a growing one |
| `BundleWorkflow.ApplyKeepsInvariant` | packages/ledger/bundle_workflow.py:101-277 | every call keeps one active bundle per tenant, a truthful log and duties apart, and only appends to the log |
| `BundleWorkflow.JudgedMeansLogged` | packages/ledger/bundle_workflow.py:66-72 | a bundle past a judgment has that judgment's row in its log, exactly once |
| `BundleWorkflow.OneActiveAndLogTells` | packages/ledger/bundle_workflow.py:344-372 | after any calls a tenant has at most one active bundle, and each status is the replay of the bundle's log |
| `BundleWorkflow.DutiesStayApart` | packages/ledger/bundle_workflow.py:118-187 | every bundle ever approved has one reviewer, different from every author ever logged, and one approver, different from both |
| `BundleWorkflow.ActivationIs` | packages/ledger/bundle_workflow.py:190-254 | an activation goes through exactly for an approved bundle with a reason and no refused flush, whether or not another is active; then that one is superseded first, with its own row, and two rows are logged, else one |
| `BundleWorkflow.WorkflowStore.WriteBundle` | packages/ledger/bundle_repository.py:35-62 | adds a proposed bundle exactly when its id and its version within the tenant are new, else conflicts and changes nothing |
| `BundleWorkflow.WorkflowStore.Propose` | packages/ledger/bundle_workflow.py:101-131 | logs an author exactly while the bundle is proposed, with that row |
| `BundleWorkflow.WorkflowStore.EnforceSegregation` | packages/ledger/bundle_workflow.py:312-341 | passes exactly when the actor has filled none of the forbidden roles for the bundle |
| `BundleWorkflow.WorkflowStore.MoveTo` | packages/ledger/bundle_workflow.py:344-372 | makes the one forward transition with its row, or names the first failed check |
| `BundleWorkflow.WorkflowStore.Review` | packages/ledger/bundle_workflow.py:134-161 | moves to reviewed, logging the reviewer, exactly for a proposed bundle, a reason and someone who is not an author; else names the first check that fails and changes nothing |
| `BundleWorkflow.WorkflowStore.Approve` | packages/ledger/bundle_workflow.py:164-187 | moves to approved, logging the approver, exactly for a reviewed bundle, a reason and someone who is neither author nor reviewer; else names the first check that fails and changes nothing |
| `BundleWorkflow.WorkflowStore.Activate` | packages/ledger/bundle_workflow.py:190-254 | activates exactly an approved bundle with a reason, an active one or not, and supersedes exactly the prior one, each with its row; any failure, a blank reason or a refused flush included, leaves rows and log as before |
| `BundleWorkflow.WorkflowStore.Supersede` | packages/ledger/bundle_workflow.py:257-277 | moves a bundle to superseded, with its row, exactly when it is active and a reason is given; an error changes nothing |
| `BundleProvider.GetActiveBundle` | apps/api/ingest_service.py:258-307 | returns the active bundle, else bootstraps one through four distinct actors; fails exactly when none is active and version 1.0.0 exists, and then changes nothing |
| `BundleProvider.WalkToActive` | apps/api/ingest_service.py:272-306 | the four workflow calls of a bootstrap all succeed and log exactly four rows |
| `BundleProvider.SupersededDefaultBlocksBootstrap` | packages/ledger/bundle_workflow.py:257-277 | revoking a bundle of the default version leaves exactly the state in which the next call fails |
| `BundleProvider.ProposedDefaultBlocksBootstrap` | apps/api/ingest_service.py:225-232 | so does a bootstrap without automatic activation, until the workflow completes |
| `ExportJobs.Truncated` | packages/ledger/ma_export_job_repository.py:207-207 | the message or its first 2048 characters |
| `ExportJobs.StepKeepsInvariant` | packages/jobs/ma_export_runner.py:178-260 | every session of every runner, failing anywhere, keeps the invariant and moves rows only forward |
| `ExportJobs.JobsAreSafe` | packages/jobs/ma_export_runner.py:178-260 | after any run: results and bounded errors exactly where they belong, one runner per job past the lock, and a normal return only from a terminal job |
| `ExportJobs.TerminalRowsAreFinal` | packages/ledger/ma_export_job_repository.py:168-206 | a completed or failed row never changes again |
| `ExportJobs.JobStore.CreateJob` | packages/ledger/ma_export_job_repository.py:50-94 | inserts a pending row of the call's own tenant, scope and time, or refuses an inverted scope |
| `ExportJobs.JobStore.MarkPendingToRunning` | packages/ledger/ma_export_job_repository.py:140-153 | a pending row gets the status and its start time and nothing else; or its error and no change |
| `ExportJobs.JobStore.MarkRunningToCompleted` | packages/ledger/ma_export_job_repository.py:156-182 | a running row gets the status, the payload and its end time and nothing else; or its error and no change |
| `ExportJobs.JobStore.MarkJobFailed` | packages/ledger/ma_export_job_repository.py:185-209 | a row that is not terminal gets the status, the message cut to 2048 characters and its end time and nothing else; or its error and no change |
| `ExportJobs.JobStore.RunJob` | packages/jobs/ma_export_runner.py:132-260 | every end an undisturbed runner can come to, for every failure of the work and before or after each of the three commits |
| `ExportJobs.RunnerIsOneRun` | packages/jobs/ma_export_runner.py:178-260 | the three steps of one runner with nothing in between come to the same ends |
| `Token.UnpaddedRoundTrip` | apps/api/auth/token.py:100-108 | the pad characters put back are those stripped: every byte string survives, and no dot is ever written |
| `Token.SplitInTwo` | apps/api/auth/token.py:138-142 | splitting two dotless texts joined by a dot gives exactly those two |
| `Token.PayloadReadsBack` | apps/api/auth/token.py:154-155 | the minted payload text parses back to the same claims |
| `Token.MintThenVerify` | apps/api/auth/token.py:136-254 | verifying a minted token returns exactly the minted principal, or expired, or invalid for an empty slug or another tenant; under another secret it is invalid unless the MACs agree |
| `Token.AcceptedMeansAuthentic` | apps/api/auth/token.py:136-201 | any text is accepted as a principal exactly when it is two parts, the second the MAC of the first, and the dict in the first names that principal, of the verifier's tenant, unexpired; it is expired exactly when only that is wrong |
| `Streaming.SplitIntoParts` | packages/export/streaming.py:317-359 | max(1, ceil(n/c)) parts numbered from 1, each holding the next c bytes |
| `Streaming.SplitIsLossless` | packages/export/streaming.py:317-359 | the parts joined are the data, and all but the last are full |
| `Streaming.MockUploader.Initiate` | packages/export/streaming.py:211-215 | a fresh upload with no parts |
| `Streaming.MockUploader.UploadPart` | packages/export/streaming.py:217-226 | puts the part under its number, or refuses an unknown upload |
| `Streaming.MockUploader.Complete` | packages/export/streaming.py:228-244 | the object is the parts joined by number, and the upload is gone |
| `Streaming.MockUploader.Abort` | packages/export/streaming.py:246-249 | the upload is gone and recorded as aborted |
| `Streaming.UploadAll` | packages/export/streaming.py:423-437 | the object is the joined parts, or a failing call left completed objects alone |
| `Streaming.StreamExport` | packages/export/streaming.py:362-452 | the completed object is the plaintext and the reference describes it; after a failure completed objects are as before and the upload is aborted and gone |
| `Idempotency.BodyHashDetermines` | apps/api/idempotency_store.py:95-97 | body hashes are equal exactly when the bodies are, up to a collision |
| `Idempotency.ClientHashDetermines` | apps/api/routes/events.py:301-308 | two events are hashed alike exactly when they are the same but for their ids, absent options and an empty payload left out, up to a collision |
| `Idempotency.InMemoryIdempotencyStore.LookupOrClaim` | apps/api/idempotency_store.py:211-232 | the live record, a conflict or nothing, dropping an expired record |
| `Idempotency.InMemoryIdempotencyStore.StoreResponse` | apps/api/idempotency_store.py:234-260 | the first store wins, and keeps the response for 24 hours |
| `Idempotency.SubmitEvent` | apps/api/routes/events.py:231-372 | the route over both stores does what the specification of one request says and keeps the ledger sound; another tenant's or agent's event is refused and changes nothing |
| `Idempotency.ForeignEventsAreRefused` | apps/api/routes/events.py:263-278 | a request is answered 403 exactly when its event names another tenant or agent than its principal |
| `Idempotency.AnswersBeforeIngest` | apps/api/routes/events.py:279-328 | exactly which requests are answered 400, 409 or from the cache, and that these change nothing |
| `Idempotency.CreatesExactlyWhenIngested` | apps/api/routes/events.py:330-372 | a receipt is created exactly when the event is the caller's own, the key is absent or valid with nothing live under it, and ingest succeeds; what the answer says and the cache keeps |
| `Idempotency.ReadyMeansCreated` | apps/api/routes/events.py:330-372 | on sound tables, whenever ingest has what it needs, up to a collision |
| `Idempotency.ChainGrowsByOwnPrincipals` | apps/api/routes/events.py:261-372 | over any run a tenant's chain grows only by requests of that tenant's own principals |
| `Idempotency.RecordSurvives` | apps/api/idempotency_store.py:211-260 | until it expires, no request drops or replaces a record |
| `Idempotency.RetriesGetTheFirstResponse` | apps/api/routes/events.py:279-372 | until expiry every retry changes nothing: the same body gets the first response, another hash conflicts |
| `Idempotency.OneReceiptPerKey` | apps/api/routes/events.py:330-368 | over a run of retries and of anything else, until expiry, each tenant's chain grows by the first receipt and by those of the requests that are not retries, and by nothing more |
| `Idempotency.RefusalsChangeNothing` | apps/api/routes/events.py:261-347 | a refused request leaves the ledger and every live record alone |
| `Idempotency.ExpiredKeyStartsAfresh` | apps/api/idempotency_store.py:221-225 | after expiry the request is handled as if the record had never been |
| `Tabletop.IndexByLabel` | packages/policy/tabletop.py:396-411 | succeeds exactly on unique labels and maps each to its row; else names a repeated label |
| `Tabletop.Diff` | packages/policy/tabletop.py:303-393 | succeeds exactly when labels are unique on each side, with the specified report; else names a repeated label |
| `Tabletop.EntryFrom` | packages/policy/tabletop.py:354-382 | the branches over the two dicts classify and fill the entry as specified |
| `Tabletop.LabelsAreSortedUnion` | packages/policy/tabletop.py:342-342 | the labels are those of either side, each once, rising character by character |
| `Tabletop.DiffIsExactJoin` | packages/policy/tabletop.py:336-393 | one entry per label of either side, or per label that is not a match, classified from the two rows and sorted |
| `Tabletop.ReportMeansRows` | packages/policy/tabletop.py:336-393 | from the rows alone: each entry is a match where both sides ran and decided alike, a drift where they did not, an error where either erred, one-sided where the other lacks the label, with each row's own decision and reason; each count is the number of labels of its kind |
| `Tabletop.CountsAddUp` | packages/policy/tabletop.py:384-393 | match, drift, errored and one-sided counts add up to the size of each side |
| `Tabletop.SwapMirrors` | packages/policy/tabletop.py:336-393 | swapping the sides swaps only the one-sided kinds and the paired fields |
| `Tabletop.BuildScenario` | packages/policy/tabletop.py:439-507 | succeeds exactly for 1 to 1000 payloads with unique labels of 1 to 128 characters, under a name of 1 to 256 |
| `Tabletop.Simulate` | packages/policy/tabletop.py:142-221 | one result per action whatever the gateway answers each time, and counts that add up |

## Left out

- Floats, naive datetimes, bytes, sets and dicts with keys that are not strings in
  canonical JSON: the encoder maps several of these onto strings and lists on purpose.
- Whitespace, fractions and exponents in parsed JSON, which no modelled printer writes,
  and lone surrogates, which a Dafny character cannot be.
- UUIDs are canonical text; other spellings appear only as the parsing parameter of
  `Token`. Times read from the database or the clock are in UTC.
- SHA-256, Ed25519, HMAC, MD5, X25519 encryption and the RFC 3161 client: library
  calls, taken as parameters; the TSA answers or fails.
- Checking and making the platform signature of a bundle, and its encryption: single
  calls into those libraries around an unchanged bundle.
- Postgres itself: tables are values, unique constraints and foreign keys are checks, a
  session is one atomic step. Column lengths are not checked.
- MerkleChain.VerifyChain: floats are not among the values, so a sequence written 1.0,
  which Python takes for 1, is not modelled; nor is int() of a textual sequence.
- Overlapping requests with one idempotency key, and the Postgres store, which never
  replaces an expired row (apps/api/idempotency_store.py:345).
- ExportJobs.JobsAreSafe: rests on atomic sessions; two sessions that both read a
  pending row before either writes are not modelled, since the code takes no row lock.
- BundleWorkflow.OneActiveAndLogTells: the same for concurrent approval sessions; a
  lost race of two activations appears as a refused flush.
- Token.MintThenVerify: expiry is a whole number of seconds; fractions are not modelled.
- The texts of error messages, apart from a failed job's; each error is its kind.
- The in-memory bundle and key caches, whose only content is that a tenant keeps its
  first value.
- The wiring of sessions in apps/api/main.py, header negotiation, metrics, narratives,
  PDF rendering, the console and the scripts.
