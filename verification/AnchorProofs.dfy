/**
  The proof that a receipt lies under an anchored root
  (packages/ledger/anchor.py:361-408), against the ledger it claims to come from.
 */
module AnchorProofs {
  import opened Wrappers
  import opened Bytes
  import opened Primitives
  import opened Receipts
  import opened AnchorDays
  import opened EvidencePack

  /** The receipt followed by its intermediates. */
  ghost predicate Linked(path: seq<Receipt>)
  {
    forall i :: 0 < i < |path| ==> path[i].prevReceiptHash == Some(path[i - 1].receiptHash)
  }

  /** Anchored and stamped no earlier than the receipt, same tenant, and an unbroken chain from the receipt to the root. */
  ghost predicate AnchoredIn(receipt: Receipt, anchor: AnchorRow, intermediates: seq<Receipt>)
  {
    var path := [receipt] + intermediates;
    && anchor.status.Anchored? && anchor.rootHash.Some? && anchor.timestampedAt.Some?
    && receipt.signedAt <= anchor.timestampedAt.value
    && receipt.tenantId == anchor.tenantId
    && Linked(path) && path[|path| - 1].receiptHash == anchor.rootHash.value
  }

  method VerifyReceiptAnchoredIn(receipt: Receipt, anchor: AnchorRow, intermediates: seq<Receipt>) returns (ok: bool)
    ensures ok <==> AnchoredIn(receipt, anchor, intermediates)
  {
    ghost var path := [receipt] + intermediates;
    if anchor.status != Anchored {
      return false;
    }
    if anchor.rootHash.None? || anchor.timestampedAt.None? {
      return false;
    }
    if receipt.signedAt > anchor.timestampedAt.value {
      return false;
    }
    if receipt.tenantId != anchor.tenantId {
      return false;
    }
    if intermediates == [] {
      return receipt.receiptHash == anchor.rootHash.value;
    }
    assert path[0] == receipt && path[1] == intermediates[0];
    if intermediates[0].prevReceiptHash != Some(receipt.receiptHash) {
      return false;
    }
    for i := 1 to |intermediates|
      invariant forall j :: 0 < j <= i ==> path[j].prevReceiptHash == Some(path[j - 1].receiptHash)
    {
      assert path[i + 1] == intermediates[i] && path[i] == intermediates[i - 1];
      if intermediates[i].prevReceiptHash != Some(intermediates[i - 1].receiptHash) {
        return false;
      }
    }
    return intermediates[|intermediates| - 1].receiptHash == anchor.rootHash.value;
  }

  function ReceiptsOf(rows: seq<ReceiptRow>): (rs: seq<Receipt>)
    ensures |rs| == |rows|
    ensures forall i :: 0 <= i < |rows| ==> rs[i] == rows[i].receipt
  {
    seq(|rows|, i requires 0 <= i < |rows| => rows[i].receipt)
  }

  ghost function Texts(rows: seq<ReceiptRow>): set<ByteString>
  {
    set row | row in rows :: BoundText(row)
  }

  ghost predicate AllConsistent(lib: Library, rows: seq<ReceiptRow>)
  {
    forall i :: 0 <= i < |rows| ==> Consistent(lib, rows[i])
  }

  /** The last `|path|` receipts of the ledger up to position `root`, field by field. */
  ghost predicate Matches(path: seq<ReceiptRow>, chain: seq<ReceiptRow>, root: nat)
  {
    && |path| <= root + 1 <= |chain|
    && forall i :: 0 <= i < |path| ==>
         var original := chain[root + 1 - |path| + i];
         Bound(path[i]) == Bound(original) && path[i].receipt.receiptHash == original.receipt.receiptHash
  }

  lemma LastMatches(lib: Library, path: seq<ReceiptRow>, chain: seq<ReceiptRow>, root: nat)
    requires path != [] && root < |chain| && ValidChain(lib, chain) && AllConsistent(lib, path)
    requires path[|path| - 1].receipt.receiptHash == chain[root].receipt.receiptHash
    ensures Bound(path[|path| - 1]) == Bound(chain[root]) || Clash(lib, Texts(path), Texts(chain))
  {
    hide Clash, BoundText, Bound, ValidChain;
    var row, original := path[|path| - 1], chain[root];
    ChainAt(lib, chain, root);
    RecomputeDetermines(lib, row, original);
    if Clash(lib, {BoundText(row)}, {BoundText(original)}) {
      ClashGrows(lib, {BoundText(row)}, {BoundText(original)}, Texts(path), Texts(chain));
    }
  }

  lemma LinkedPrefix(path: seq<ReceiptRow>, n: nat)
    requires Linked(ReceiptsOf(path)) && n <= |path|
    ensures Linked(ReceiptsOf(path[..n]))
  {
    forall i | 0 < i < n ensures path[i].receipt.prevReceiptHash == Some(path[i - 1].receipt.receiptHash) {
      assert ReceiptsOf(path)[i].prevReceiptHash == Some(ReceiptsOf(path)[i - 1].receiptHash);
    }
  }

  lemma StepBack(lib: Library, path: seq<ReceiptRow>, chain: seq<ReceiptRow>, root: nat)
    requires |path| > 1 && root < |chain| && ValidChain(lib, chain) && Linked(ReceiptsOf(path))
    requires Bound(path[|path| - 1]) == Bound(chain[root])
    ensures root > 0 && path[|path| - 2].receipt.receiptHash == chain[root - 1].receipt.receiptHash
  {
    hide ValidChain, Consistent;
    var n := |path| - 1;
    assert ReceiptsOf(path)[n].prevReceiptHash == Some(ReceiptsOf(path)[n - 1].receiptHash);
    ChainAt(lib, chain, root);
  }

  lemma MatchesExtends(path: seq<ReceiptRow>, chain: seq<ReceiptRow>, root: nat)
    requires path != [] && 0 < root && Matches(path[..|path| - 1], chain, root - 1) && root < |chain|
    requires Bound(path[|path| - 1]) == Bound(chain[root])
    requires path[|path| - 1].receipt.receiptHash == chain[root].receipt.receiptHash
    ensures Matches(path, chain, root)
  {
    hide Bound;
    var path' := path[..|path| - 1];
    forall i | 0 <= i < |path|
      ensures var original := chain[root + 1 - |path| + i];
              Bound(path[i]) == Bound(original) && path[i].receipt.receiptHash == original.receipt.receiptHash
    {
      if i < |path'| {
        assert path'[i] == path[i];
      }
    }
  }

  /** Walking back from the root, each linked receipt is the ledger's own, or two bound texts collide. */
  lemma {:induction false} PathIsLedger(lib: Library, path: seq<ReceiptRow>, chain: seq<ReceiptRow>, root: nat)
    requires path != [] && root < |chain| && ValidChain(lib, chain) && AllConsistent(lib, path)
    requires Linked(ReceiptsOf(path)) && path[|path| - 1].receipt.receiptHash == chain[root].receipt.receiptHash
    ensures Matches(path, chain, root) || Clash(lib, Texts(path), Texts(chain))
    decreases |path|
  {
    hide Clash, BoundText, Bound, ValidChain, Consistent, Linked;
    LastMatches(lib, path, chain, root);
    var n := |path| - 1;
    if !Clash(lib, Texts(path), Texts(chain)) && n > 0 {
      hide Matches;
      var path' := path[..n];
      StepBack(lib, path, chain, root);
      LinkedPrefix(path, n);
      PathIsLedger(lib, path', chain, root - 1);
      if Clash(lib, Texts(path'), Texts(chain)) {
        ClashGrows(lib, Texts(path'), Texts(chain), Texts(path), Texts(chain));
      } else {
        MatchesExtends(path, chain, root);
      }
    }
  }

  /**
    Soundness: if the verifier accepts receipts that recompute, against an anchor
    whose root is in a valid ledger, then the receipt and its intermediates agree
    on every bound field with the ledger segment that ends at the root; or two
    bound texts collide.
   */
  lemma {:induction false} AcceptedMeansInLedger(
    lib: Library, row: ReceiptRow, intermediates: seq<ReceiptRow>, anchor: AnchorRow, chain: seq<ReceiptRow>, root: nat
  )
    requires ValidChain(lib, chain) && root < |chain| && anchor.rootHash == Some(chain[root].receipt.receiptHash)
    requires AllConsistent(lib, [row] + intermediates)
    requires AnchoredIn(row.receipt, anchor, ReceiptsOf(intermediates))
    ensures Matches([row] + intermediates, chain, root) || Clash(lib, Texts([row] + intermediates), Texts(chain))
  {
    hide Clash, ValidChain, Matches, Texts, AllConsistent;
    var path := [row] + intermediates;
    assert ReceiptsOf(path) == [row.receipt] + ReceiptsOf(intermediates);
    assert path[|path| - 1].receipt == ReceiptsOf(path)[|path| - 1];
    PathIsLedger(lib, path, chain, root);
  }

  /**
    Completeness: handed the ledger slice from a receipt up to any later one, the
    verifier accepts it exactly when the anchor is an anchored row of that tenant,
    stamped no earlier than the receipt was signed, whose root is the slice's last
    hash.
   */
  lemma {:induction false} LedgerSliceIsAccepted(lib: Library, chain: seq<ReceiptRow>, i: nat, root: nat, anchor: AnchorRow)
    requires ValidChain(lib, chain) && i <= root < |chain|
    ensures AnchoredIn(chain[i].receipt, anchor, ReceiptsOf(chain[i + 1..root + 1]))
       <==> && anchor.status.Anchored? && anchor.rootHash == Some(chain[root].receipt.receiptHash)
            && anchor.timestampedAt.Some? && chain[i].receipt.signedAt <= anchor.timestampedAt.value
            && anchor.tenantId == chain[i].receipt.tenantId
  {
    hide ValidChain, Consistent;
    var path := [chain[i].receipt] + ReceiptsOf(chain[i + 1..root + 1]);
    forall j | 0 <= j < |path| ensures path[j] == chain[i + j].receipt {
    }
    forall j | 0 < j < |path| ensures path[j].prevReceiptHash == Some(path[j - 1].receiptHash) {
      ChainAt(lib, chain, i + j);
    }
  }

  /**
    What acceptance does not fix: a receipt with another id, other signatures or
    another signing time recomputes just the same, and is accepted exactly when
    that time too is no later than the timestamp.
   */
  lemma UnboundFieldsStayFree(
    lib: Library, row: ReceiptRow, intermediates: seq<Receipt>, anchor: AnchorRow,
    id: Uuid, signature: Signature, agentSignature: Option<Signature>, signedAt: Time
  )
    requires Consistent(lib, row) && AnchoredIn(row.receipt, anchor, intermediates)
    ensures var other := row.receipt.(id := id, signature := signature, agentSignature := agentSignature, signedAt := signedAt);
      && Consistent(lib, row.(receipt := other))
      && (AnchoredIn(other, anchor, intermediates) <==> signedAt <= anchor.timestampedAt.value)
  {
    hide Bind;
    var other := row.receipt.(id := id, signature := signature, agentSignature := agentSignature, signedAt := signedAt);
    RecomputeDetermines(lib, row, row.(receipt := other));
    var path, path' := [row.receipt] + intermediates, [other] + intermediates;
    forall j | 0 <= j < |path|
      ensures path'[j].receiptHash == path[j].receiptHash && path'[j].prevReceiptHash == path[j].prevReceiptHash
    {
    }
  }
}
