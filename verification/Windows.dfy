/**
  The signed-at window query (packages/ledger/repositories.py:282-337): a tenant's
  receipts with both endpoints inclusive, by ascending sequence, up to a limit.
 */
module Windows {
  import opened Primitives
  import opened Receipts
  import opened Ledger
  import Sorting

  predicate Within(row: ReceiptRow, tenantId: Uuid, start: Time, end: Time)
  {
    row.receipt.tenantId == tenantId && start <= row.receipt.signedAt <= end
  }

  function Matching(rows: seq<ReceiptRow>, tenantId: Uuid, start: Time, end: Time): seq<ReceiptRow>
  {
    if rows == [] then []
    else
      var n := |rows| - 1;
      Matching(rows[..n], tenantId, start, end) + (if Within(rows[n], tenantId, start, end) then [rows[n]] else [])
  }

  predicate BySequence(a: ReceiptRow, b: ReceiptRow)
  {
    a.receipt.sequence <= b.receipt.sequence
  }

  /** `list_receipts_with_snapshot_for_tenant` */
  function WindowQuery(rows: seq<ReceiptRow>, tenantId: Uuid, start: Time, end: Time, limit: nat): seq<ReceiptRow>
  {
    var ordered := Sorting.Sort(BySequence, Matching(rows, tenantId, start, end));
    if |ordered| <= limit then ordered else ordered[..limit]
  }

  /** How many receipts of a time-ordered chain come before `t`. */
  function Before(chain: seq<ReceiptRow>, t: Time): (n: nat)
    ensures n <= |chain|
  {
    if chain == [] then 0
    else if chain[|chain| - 1].receipt.signedAt < t then |chain|
    else Before(chain[..|chain| - 1], t)
  }

  lemma {:induction false} BeforeSplits(chain: seq<ReceiptRow>, t: Time)
    requires TimeOrdered(chain)
    ensures forall i :: 0 <= i < |chain| ==> (i < Before(chain, t) <==> chain[i].receipt.signedAt < t)
  {
    if chain != [] {
      var n := |chain| - 1;
      if !(chain[n].receipt.signedAt < t) {
        BeforeSplits(chain[..n], t);
        forall i | 0 <= i < |chain| ensures i < Before(chain, t) <==> chain[i].receipt.signedAt < t {
          if i < n {
            assert chain[..n][i] == chain[i];
          }
        }
      }
    }
  }

  /** The window's part of a time-ordered chain: `lo..hi`. */
  function Segment(chain: seq<ReceiptRow>, start: Time, end: Time): (r: (nat, nat))
    ensures r.0 <= r.1 <= |chain|
  {
    var lo, hi := Before(chain, start), Before(chain, end + 1);
    if lo <= hi then (lo, hi) else (lo, lo)
  }

  lemma SegmentIsWindow(chain: seq<ReceiptRow>, start: Time, end: Time)
    requires TimeOrdered(chain)
    ensures var (lo, hi) := Segment(chain, start, end);
            forall i :: 0 <= i < |chain| ==> (lo <= i < hi <==> start <= chain[i].receipt.signedAt <= end)
  {
    BeforeSplits(chain, start);
    BeforeSplits(chain, end + 1);
  }

  /** Selecting by time from the table is selecting by time from the tenant's chain. */
  lemma {:induction false} MatchingOfChain(rows: seq<ReceiptRow>, tenantId: Uuid, start: Time, end: Time)
    ensures Matching(rows, tenantId, start, end) == Matching(Chain(rows, tenantId), tenantId, start, end)
  {
    if rows != [] {
      var n := |rows| - 1;
      MatchingOfChain(rows[..n], tenantId, start, end);
      var below := Chain(rows[..n], tenantId);
      if rows[n].receipt.tenantId == tenantId {
        assert (below + [rows[n]])[..|below|] == below;
      } else {
        assert below + [] == below;
      }
    }
  }

  ghost predicate Covers(chain: seq<ReceiptRow>, lo: nat, hi: nat, tenantId: Uuid, start: Time, end: Time)
  {
    lo <= hi <= |chain| && forall i :: 0 <= i < |chain| ==> (Within(chain[i], tenantId, start, end) <==> lo <= i < hi)
  }

  /** What matches in the first `n` receipts of a chain is their part of the segment. */
  lemma {:induction false} MatchingIsSlice(
    chain: seq<ReceiptRow>, n: nat, lo: nat, hi: nat, tenantId: Uuid, start: Time, end: Time
  )
    requires n <= |chain| && Covers(chain, lo, hi, tenantId, start, end)
    ensures Matching(chain[..n], tenantId, start, end)
         == if n <= lo then [] else if n <= hi then chain[lo..n] else chain[lo..hi]
  {
    hide Within;
    if n > 0 {
      MatchingIsSlice(chain, n - 1, lo, hi, tenantId, start, end);
      assert chain[..n][..n - 1] == chain[..n - 1];
      assert chain[..n][n - 1] == chain[n - 1];
      if lo < n <= hi {
        assert chain[lo..n] == chain[lo..n - 1] + [chain[n - 1]];
      }
    }
  }

  lemma SliceAscends(lib: Library, chain: seq<ReceiptRow>, lo: nat, hi: nat)
    requires ValidChain(lib, chain) && lo <= hi <= |chain|
    ensures Sorting.Ascending(BySequence, chain[lo..hi])
  {
    forall i, j | 0 <= i < j < hi - lo ensures BySequence(chain[lo..hi][i], chain[lo..hi][j]) {
      ChainAt(lib, chain, lo + i);
      ChainAt(lib, chain, lo + j);
    }
  }

  /** On a valid, time-ordered chain the query returns one contiguous run of it, cut at the limit. */
  lemma {:induction false} WindowIsContiguous(lib: Library, rows: seq<ReceiptRow>, tenantId: Uuid, start: Time, end: Time, limit: nat)
    requires ValidChain(lib, Chain(rows, tenantId)) && TimeOrdered(Chain(rows, tenantId))
    ensures var chain := Chain(rows, tenantId);
            var (lo, hi) := Segment(chain, start, end);
      && WindowQuery(rows, tenantId, start, end, limit) == chain[lo..if hi <= lo + limit then hi else lo + limit]
      && (forall i :: 0 <= i < |chain| ==> (lo <= i < hi <==> start <= chain[i].receipt.signedAt <= end))
  {
    hide ValidChain, TimeOrdered, Chain, Segment, Matching, Sorting.Sort, Sorting.Ascending;
    var chain := Chain(rows, tenantId);
    var (lo, hi) := Segment(chain, start, end);
    ChainMembers(rows, tenantId);
    SegmentIsWindow(chain, start, end);
    MatchingIsSegment(rows, tenantId, start, end, lo, hi);
    SliceAscends(lib, chain, lo, hi);
    Sorting.SortIdentity(BySequence, chain[lo..hi]);
    if lo + limit < hi {
      assert chain[lo..hi][..limit] == chain[lo..lo + limit];
    }
  }

  lemma MatchingIsSegment(rows: seq<ReceiptRow>, tenantId: Uuid, start: Time, end: Time, lo: nat, hi: nat)
    requires var chain := Chain(rows, tenantId);
      && lo <= hi <= |chain|
      && (forall i :: 0 <= i < |chain| ==> (lo <= i < hi <==> start <= chain[i].receipt.signedAt <= end))
    ensures Matching(rows, tenantId, start, end) == Chain(rows, tenantId)[lo..hi]
  {
    hide Chain, Matching;
    var chain := Chain(rows, tenantId);
    ChainMembers(rows, tenantId);
    assert Covers(chain, lo, hi, tenantId, start, end) by {
      forall i | 0 <= i < |chain| ensures chain[i].receipt.tenantId == tenantId {
        assert chain[i] in chain;
      }
    }
    MatchingOfChain(rows, tenantId, start, end);
    MatchingIsSlice(chain, |chain|, lo, hi, tenantId, start, end);
    assert chain[..|chain|] == chain;
    if |chain| <= lo {
      assert chain[lo..hi] == [];
    }
  }

  /** Below its limit the query returns every receipt of the window and nothing else. */
  lemma WindowIsComplete(lib: Library, rows: seq<ReceiptRow>, tenantId: Uuid, start: Time, end: Time, limit: nat)
    requires ValidChain(lib, Chain(rows, tenantId)) && TimeOrdered(Chain(rows, tenantId))
    requires |WindowQuery(rows, tenantId, start, end, limit)| < limit
    ensures forall row :: row in WindowQuery(rows, tenantId, start, end, limit)
                     <==> row in rows && Within(row, tenantId, start, end)
  {
    hide ValidChain, TimeOrdered, Chain, Segment, WindowQuery;
    var chain := Chain(rows, tenantId);
    var found := WindowQuery(rows, tenantId, start, end, limit);
    var (lo, hi) := Segment(chain, start, end);
    WindowIsContiguous(lib, rows, tenantId, start, end, limit);
    ChainMembers(rows, tenantId);
    assert found == chain[lo..hi];
    forall row ensures row in found <==> row in rows && Within(row, tenantId, start, end) {
      if row in rows && Within(row, tenantId, start, end) {
        var i :| 0 <= i < |chain| && chain[i] == row;
        assert found[i - lo] == row;
      }
    }
  }

  lemma {:induction false} MatchingMembers(rows: seq<ReceiptRow>, tenantId: Uuid, start: Time, end: Time)
    ensures forall row :: row in Matching(rows, tenantId, start, end) <==> row in rows && Within(row, tenantId, start, end)
  {
    if rows != [] {
      var n := |rows| - 1;
      MatchingMembers(rows[..n], tenantId, start, end);
      assert rows == rows[..n] + [rows[n]];
    }
  }

  /** Whatever the table, the query finds only the window's receipts, and below its limit each exactly as often as stored. */
  lemma WindowFinds(rows: seq<ReceiptRow>, tenantId: Uuid, start: Time, end: Time, limit: nat)
    ensures var found := WindowQuery(rows, tenantId, start, end, limit);
      && (forall row | row in found :: row in rows && Within(row, tenantId, start, end))
      && (|found| < limit ==> multiset(found) == multiset(Matching(rows, tenantId, start, end)))
  {
    hide Matching, Sorting.Sort;
    var all := Matching(rows, tenantId, start, end);
    var ordered := Sorting.Sort(BySequence, all);
    MatchingMembers(rows, tenantId, start, end);
    Sorting.SortPermutes(BySequence, all);
    Sorting.SameElements(ordered, all);
    forall row | row in WindowQuery(rows, tenantId, start, end, limit) ensures row in rows && Within(row, tenantId, start, end) {
      assert row in ordered;
    }
  }
}
