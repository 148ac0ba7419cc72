/**
  Listing receipts page by page while the ledger grows
  (apps/api/routes/receipts.py:147-262, packages/ledger/repositories.py:171-279).
 */
module Paging {
  import opened Wrappers
  import opened Primitives
  import opened Receipts
  import opened Ledger
  import Sorting

  const MAX_LIMIT := 200

  /** The query parameters of the route. */
  datatype Query = Query(
    tenantId: Uuid, limit: int, offset: int, before: Option<int>, signedAfter: Option<RequestTime>,
    signedBefore: Option<RequestTime>)

  datatype Response = Response(items: seq<ReceiptRow>, offset: int, next: Option<int>)

  datatype HttpError = Unprocessable422 | Forbidden403

  predicate HasInstant(t: Option<RequestTime>)
  {
    t.Some? && t.value.Aware?
  }

  predicate IsNaive(t: Option<RequestTime>)
  {
    t.Some? && t.value.Naive?
  }

  predicate Selected(row: ReceiptRow, q: Query)
  {
    && row.receipt.tenantId == q.tenantId
    && (q.before.Some? ==> row.receipt.sequence < q.before.value)
    && (HasInstant(q.signedAfter) ==> q.signedAfter.value.stamp.at <= row.receipt.signedAt)
    && (HasInstant(q.signedBefore) ==> row.receipt.signedAt <= q.signedBefore.value.stamp.at)
  }

  /** The selected rows, last committed first. */
  function Newest(rows: seq<ReceiptRow>, q: Query): seq<ReceiptRow>
  {
    if rows == [] then []
    else
      var n := |rows| - 1;
      (if Selected(rows[n], q) then [rows[n]] else []) + Newest(rows[..n], q)
  }

  predicate Descending(a: ReceiptRow, b: ReceiptRow)
  {
    b.receipt.sequence <= a.receipt.sequence
  }

  /** `ORDER BY sequence DESC` */
  function Ordered(rows: seq<ReceiptRow>, q: Query): (found: seq<ReceiptRow>)
    ensures forall i :: 0 <= i < |found| ==> Selected(found[i], q)
  {
    NewestMembers(rows, q);
    Sorting.SortPermutes(Descending, Newest(rows, q));
    Sorting.SameElements(Sorting.Sort(Descending, Newest(rows, q)), Newest(rows, q));
    var found := Sorting.Sort(Descending, Newest(rows, q));
    assert forall i :: 0 <= i < |found| ==> found[i] in found;
    found
  }

  lemma {:induction false} NewestMembers(rows: seq<ReceiptRow>, q: Query)
    ensures forall row :: row in Newest(rows, q) <==> row in rows && Selected(row, q)
  {
    if rows != [] {
      var n := |rows| - 1;
      NewestMembers(rows[..n], q);
      assert rows == rows[..n] + [rows[n]];
    }
  }

  function Slice(found: seq<ReceiptRow>, offset: nat, limit: nat): seq<ReceiptRow>
  {
    if |found| <= offset then []
    else if |found| <= offset + limit then found[offset..]
    else found[offset..offset + limit]
  }

  function MinSequence(page: seq<ReceiptRow>): nat
    requires page != []
  {
    if |page| == 1 then page[0].receipt.sequence
    else
      var m := MinSequence(page[1..]);
      if page[0].receipt.sequence < m then page[0].receipt.sequence else m
  }

  /** It is the least of the page's sequences, and one of them. */
  lemma {:induction false} MinSequenceIsLeast(page: seq<ReceiptRow>)
    requires page != []
    ensures forall i :: 0 <= i < |page| ==> MinSequence(page) <= page[i].receipt.sequence
    ensures exists i :: 0 <= i < |page| && page[i].receipt.sequence == MinSequence(page)
  {
    if |page| == 1 {
      assert page[0].receipt.sequence == MinSequence(page);
    } else {
      MinSequenceIsLeast(page[1..]);
      var j :| 0 <= j < |page[1..]| && page[1..][j].receipt.sequence == MinSequence(page[1..]);
      assert page[j + 1] == page[1..][j];
      assert page[0].receipt.sequence == MinSequence(page) || page[j + 1].receipt.sequence == MinSequence(page);
      forall i | 0 < i < |page| ensures MinSequence(page) <= page[i].receipt.sequence {
        assert page[i] == page[1..][i - 1];
      }
    }
  }

  /** The bounds declared on the parameters. */
  predicate InBounds(q: Query)
  {
    1 <= q.limit <= MAX_LIMIT && 0 <= q.offset && (q.before.Some? ==> 1 <= q.before.value)
  }

  predicate Acceptable(q: Query)
  {
    && InBounds(q)
    && !IsNaive(q.signedAfter) && !IsNaive(q.signedBefore)
    && (q.signedAfter.Some? && q.signedBefore.Some? ==> q.signedAfter.value.stamp.at <= q.signedBefore.value.stamp.at)
  }

  /** `list_receipts`: a cursor makes it ignore the offset; a short page has no next cursor. */
  function ListReceipts(rows: seq<ReceiptRow>, principal: Uuid, q: Query): Result<Response, HttpError>
  {
    if !InBounds(q) then Failure(Unprocessable422)
    else if q.tenantId != principal then Failure(Forbidden403)
    else if !Acceptable(q) then Failure(Unprocessable422)
    else
      var offset := if q.before.Some? then 0 else q.offset;
      var page := Slice(Ordered(rows, q), offset, q.limit);
      Success(Response(page, offset, if |page| < q.limit then None else Some(MinSequence(page))))
  }

  /**
    Exactly when a page is served, and else why not: parameters out of bounds come
    first, then another tenant's receipts, then naive times or an inverted window. A page has
    at most `limit` receipts; a cursor makes it start at the newest below it.
   */
  lemma ServedExactlyToOwner(rows: seq<ReceiptRow>, principal: Uuid, q: Query)
    ensures var r := ListReceipts(rows, principal, q);
            var bounds := 1 <= q.limit <= 200 && 0 <= q.offset && (q.before.Some? ==> 1 <= q.before.value);
            var naive := (q.signedAfter.Some? && q.signedAfter.value.Naive?) || (q.signedBefore.Some? && q.signedBefore.value.Naive?);
            var inverted := !naive && q.signedAfter.Some? && q.signedBefore.Some?
                            && q.signedBefore.value.stamp.at < q.signedAfter.value.stamp.at;
      && (r.Success? <==> bounds && q.tenantId == principal && !naive && !inverted)
      && (r == Failure(Forbidden403) <==> bounds && q.tenantId != principal)
      && (r == Failure(Unprocessable422) <==> !bounds || (q.tenantId == principal && (naive || inverted)))
      && (r.Success? ==>
            && r.value.offset == (if q.before.Some? then 0 else q.offset)
            && r.value.items == Slice(Ordered(rows, q), r.value.offset, q.limit)
            && (r.value.next.Some? <==> |r.value.items| == q.limit)
            && (r.value.next.Some? ==>
                  && (forall i :: 0 <= i < |r.value.items| ==> r.value.next.value <= r.value.items[i].receipt.sequence)
                  && (exists i :: 0 <= i < |r.value.items| && r.value.items[i].receipt.sequence == r.value.next.value)))
  {
    hide Ordered, MinSequence;
    var r := ListReceipts(rows, principal, q);
    if r.Success? && r.value.items != [] {
      MinSequenceIsLeast(r.value.items);
    }
  }

  // ----- One page of a valid chain -----

  lemma {:induction false} NewestOfChain(rows: seq<ReceiptRow>, q: Query)
    ensures Newest(rows, q) == Newest(Chain(rows, q.tenantId), q)
  {
    if rows != [] {
      var n := |rows| - 1;
      NewestOfChain(rows[..n], q);
      var below := Chain(rows[..n], q.tenantId);
      if rows[n].receipt.tenantId == q.tenantId {
        assert (below + [rows[n]])[..|below|] == below;
      } else {
        assert below + [] == below;
      }
    }
  }

  ghost predicate Numbered(chain: seq<ReceiptRow>)
  {
    forall i :: 0 <= i < |chain| ==> chain[i].receipt.sequence == i
  }

  /** The selected part of a numbered chain falls strictly, and below any of its receipts lies the rest. */
  lemma {:induction false} NewestFalls(chain: seq<ReceiptRow>, q: Query, j: nat)
    requires Numbered(chain) && j < |Newest(chain, q)|
    ensures var found := Newest(chain, q);
      && found[j].receipt.sequence < |chain|
      && found == found[..j + 1] + Newest(chain[..found[j].receipt.sequence], q)
  {
    hide Selected;
    var n := |chain| - 1;
    var found, init := Newest(chain, q), Newest(chain[..n], q);
    if Selected(chain[n], q) {
      if j == 0 {
        assert found == found[..1] + init;
      } else {
        NewestFalls(chain[..n], q, j - 1);
        assert chain[..n][..init[j - 1].receipt.sequence] == chain[..init[j - 1].receipt.sequence];
        assert found[..j + 1] == [chain[n]] + init[..j];
      }
    } else {
      assert found == init;
      NewestFalls(chain[..n], q, j);
      assert chain[..n][..init[j].receipt.sequence] == chain[..init[j].receipt.sequence];
    }
  }

  /** Sequences fall strictly. */
  ghost predicate Falls(found: seq<ReceiptRow>)
  {
    forall i, j :: 0 <= i < j < |found| ==> found[j].receipt.sequence < found[i].receipt.sequence
  }

  lemma NewestDescends(chain: seq<ReceiptRow>, q: Query)
    requires Numbered(chain)
    ensures Falls(Newest(chain, q))
  {
    hide Selected;
    var found := Newest(chain, q);
    forall i, j | 0 <= i < j < |found| ensures found[j].receipt.sequence < found[i].receipt.sequence {
      NewestFalls(chain, q, i);
      var m := found[i].receipt.sequence;
      NewestMembers(chain[..m], q);
      assert found[j] == Newest(chain[..m], q)[j - i - 1];
      assert found[j] in chain[..m];
    }
  }

  lemma {:induction false} OrderedIsNewest(lib: Library, rows: seq<ReceiptRow>, q: Query)
    requires ValidChain(lib, Chain(rows, q.tenantId))
    ensures Ordered(rows, q) == Newest(Chain(rows, q.tenantId), q)
    ensures Numbered(Chain(rows, q.tenantId))
  {
    hide Newest, ValidChain, Chain, Sorting.Sort;
    var chain := Chain(rows, q.tenantId);
    NewestOfChain(rows, q);
    forall i | 0 <= i < |chain| ensures chain[i].receipt.sequence == i {
      ChainAt(lib, chain, i);
    }
    NewestDescends(chain, q);
    Sorting.SortIdentity(Descending, Newest(chain, q));
  }

  /** The filters without the cursor. */
  function Uncut(q: Query): Query
  {
    q.(before := None)
  }

  /** A cursor cuts the chain: only what lies below it can be selected. */
  lemma {:induction false} CursorCuts(chain: seq<ReceiptRow>, q: Query)
    requires Numbered(chain) && q.before.Some? && 0 <= q.before.value <= |chain|
    ensures Newest(chain, q) == Newest(chain[..q.before.value], Uncut(q))
    decreases |chain|
  {
    var b, n := q.before.value, |chain| - 1;
    if n >= 0 {
      if b <= n {
        CursorCuts(chain[..n], q);
        assert chain[..n][..b] == chain[..b];
      } else {
        NoCutBelow(chain, q);
        assert chain[..b] == chain;
      }
    }
  }

  lemma {:induction false} NoCutBelow(chain: seq<ReceiptRow>, q: Query)
    requires Numbered(chain) && q.before.Some? && |chain| <= q.before.value
    ensures Newest(chain, q) == Newest(chain, Uncut(q))
  {
    if chain != [] {
      NoCutBelow(chain[..|chain| - 1], q);
    }
  }

  /** The least sequence of a page of the descending list is its last. */
  lemma MinIsLast(page: seq<ReceiptRow>)
    requires page != [] && Falls(page)
    ensures MinSequence(page) == page[|page| - 1].receipt.sequence
  {
    hide MinSequence;
    MinSequenceIsLeast(page);
    var i :| 0 <= i < |page| && page[i].receipt.sequence == MinSequence(page);
    assert page[|page| - 1].receipt.sequence <= page[i].receipt.sequence;
  }

  /** A page is the first `limit` of what follows the offset. */
  lemma SliceIsPrefix(found: seq<ReceiptRow>, offset: nat, limit: nat)
    ensures var tail := if |found| <= offset then [] else found[offset..];
            Slice(found, offset, limit) == tail[..if |tail| < limit then |tail| else limit]
  {
  }

  lemma SliceFalls(found: seq<ReceiptRow>, offset: nat, limit: nat)
    requires Falls(found)
    ensures Falls(Slice(found, offset, limit))
  {
  }

  /** A page and what its cursor leaves make up the list; without a cursor, or with cursor 0, nothing is left. */
  lemma {:induction false} PageAndRest(chain: seq<ReceiptRow>, q: Query, offset: nat, limit: nat)
    requires Numbered(chain) && 1 <= limit
    ensures var found := Newest(chain, q);
            var page := Slice(found, offset, limit);
            var tail := if |found| <= offset then [] else found[offset..];
      && |page| == (if |tail| < limit then |tail| else limit) && page <= tail
      && (|page| < limit ==> page == tail)
      && (|page| >= limit ==>
            var m := MinSequence(page);
            m < |chain| && tail == page + Newest(chain[..m], q) && (m == 0 ==> page == tail))
  {
    hide Selected, Newest, MinSequence;
    var found := Newest(chain, q);
    var page := Slice(found, offset, limit);
    SliceIsPrefix(found, offset, limit);
    hide Slice, Falls;
    if |page| >= limit {
      var j := offset + limit - 1;
      NewestDescends(chain, q);
      SliceFalls(found, offset, limit);
      MinIsLast(page);
      NewestFalls(chain, q, j);
      var m := found[j].receipt.sequence;
      assert page[|page| - 1] == found[j];
      assert found[..j + 1] == found[..offset] + page;
      assert found == found[..offset] + (page + Newest(chain[..m], q));
      assert found[offset..] == page + Newest(chain[..m], q);
      if m == 0 {
        NothingBelow(chain[..m], q);
      }
    }
  }

  lemma NothingBelow(chain: seq<ReceiptRow>, q: Query)
    requires chain == []
    ensures Newest(chain, q) == []
  {
  }

  // ----- Following the cursor -----

  /** The table at each fetch: valid, with appends only. */
  ghost predicate Growing(lib: Library, tables: nat -> seq<ReceiptRow>, tenantId: Uuid)
  {
    && (forall k: nat :: ValidChain(lib, Chain(tables(k), tenantId)))
    && (forall k: nat :: Chain(tables(0), tenantId) <= Chain(tables(k), tenantId))
  }

  /** What an acceptable request to one's own tenant is served. */
  lemma Served(rows: seq<ReceiptRow>, q: Query)
    requires Acceptable(q)
    ensures var offset := if q.before.Some? then 0 else q.offset;
            var page := Slice(Ordered(rows, q), offset, q.limit);
            ListReceipts(rows, q.tenantId, q)
              == Success(Response(page, offset, if |page| < q.limit then None else Some(MinSequence(page))))
  {
    hide Slice, Ordered, MinSequence;
  }

  /** The cursor a page comes with is below the one it was asked with. */
  lemma CursorFalls(rows: seq<ReceiptRow>, q: Query)
    requires Acceptable(q) && q.before.Some?
    ensures var response := ListReceipts(rows, q.tenantId, q);
            response.Success? && (response.value.next.Some? ==> 0 <= response.value.next.value < q.before.value)
  {
    hide Ordered, MinSequence;
    Served(rows, q);
    var page := Slice(Ordered(rows, q), 0, q.limit);
    if |page| >= q.limit {
      MinSequenceIsLeast(page);
      var i :| 0 <= i < |page| && page[i].receipt.sequence == MinSequence(page);
      assert page[i] == Ordered(rows, q)[i];
    }
  }

  /** All pages from the `k`-th fetch on: each next cursor is sent back until there is none, or it is 0, which the route rejects. */
  function Follow(tables: nat -> seq<ReceiptRow>, k: nat, q: Query): seq<ReceiptRow>
    requires Acceptable(q) && q.before.Some?
    decreases q.before.value
  {
    CursorFalls(tables(k), q);
    var page := ListReceipts(tables(k), q.tenantId, q).value;
    if page.next.None? || page.next.value == 0 then page.items
    else page.items + Follow(tables, k + 1, q.(before := page.next))
  }

  function FollowFromStart(tables: nat -> seq<ReceiptRow>, q: Query): seq<ReceiptRow>
    requires Acceptable(q) && q.before.None?
  {
    var page := ListReceipts(tables(0), q.tenantId, q).value;
    if page.next.None? || page.next.value == 0 then page.items
    else page.items + Follow(tables, 1, q.(before := page.next))
  }

  /** What a later fetch returns below a cursor is what the first table holds there. */
  lemma LaterPage(lib: Library, tables: nat -> seq<ReceiptRow>, k: nat, q: Query)
    requires Growing(lib, tables, q.tenantId) && Acceptable(q) && q.before.Some?
    requires q.before.value <= |Chain(tables(0), q.tenantId)|
    ensures Numbered(Chain(tables(0), q.tenantId))
    ensures Ordered(tables(k), q) == Newest(Chain(tables(0), q.tenantId)[..q.before.value], Uncut(q))
  {
    hide ValidChain, Chain, Newest, Numbered, Ordered;
    var first, now := Chain(tables(0), q.tenantId), Chain(tables(k), q.tenantId);
    assert ValidChain(lib, first) && ValidChain(lib, now);
    OrderedIsNewest(lib, tables(0), q);
    OrderedIsNewest(lib, tables(k), q);
    CursorCuts(now, q);
    assert now[..q.before.value] == first[..q.before.value];
  }

  lemma {:induction false} FollowReadsTheRest(lib: Library, tables: nat -> seq<ReceiptRow>, k: nat, q: Query)
    requires Growing(lib, tables, q.tenantId) && Acceptable(q) && q.before.Some?
    requires q.before.value <= |Chain(tables(0), q.tenantId)|
    ensures Follow(tables, k, q) == Newest(Chain(tables(0), q.tenantId)[..q.before.value], Uncut(q))
    decreases q.before.value
  {
    hide Growing, Chain, Newest, Ordered, Slice, MinSequence, ListReceipts;
    Served(tables(k), q);
    var b := q.before.value;
    var first := Chain(tables(0), q.tenantId);
    var below := first[..b];
    LaterPage(lib, tables, k, q);
    assert Numbered(below);
    PageAndRest(below, Uncut(q), 0, q.limit);
    var found := Newest(below, Uncut(q));
    assert found[0..] == found;
    var page := Slice(found, 0, q.limit);
    if |page| >= q.limit && MinSequence(page) != 0 {
      var m := MinSequence(page);
      assert below[..m] == first[..m];
      FollowReadsTheRest(lib, tables, k + 1, q.(before := Some(m)));
    }
  }

  /**
    Following the cursors from a first page, at any page size, offset and time
    filter and whatever is appended between fetches, returns exactly the
    matching receipts the first fetch could see, past the offset: each once, in
    strictly falling sequence, with nothing left when the cursor is absent or 0.
   */
  lemma {:induction false} PagesAreTheFilteredList(lib: Library, tables: nat -> seq<ReceiptRow>, q: Query)
    requires Growing(lib, tables, q.tenantId) && Acceptable(q) && q.before.None?
    ensures var found := Newest(Chain(tables(0), q.tenantId), q);
      && FollowFromStart(tables, q) == (if |found| <= q.offset then [] else found[q.offset..])
      && (forall row :: row in found <==>
            && row in tables(0) && row.receipt.tenantId == q.tenantId
            && (q.signedAfter.Some? ==> q.signedAfter.value.stamp.at <= row.receipt.signedAt)
            && (q.signedBefore.Some? ==> row.receipt.signedAt <= q.signedBefore.value.stamp.at))
      && Falls(found)
  {
    hide ValidChain, Chain, Newest;
    NewestOfChain(tables(0), q);
    NewestMembers(tables(0), q);
    assert ValidChain(lib, Chain(tables(0), q.tenantId));
    OrderedIsNewest(lib, tables(0), q);
    NewestDescends(Chain(tables(0), q.tenantId), q);
    FollowsFromStart(lib, tables, q);
  }

  lemma FollowsFromStart(lib: Library, tables: nat -> seq<ReceiptRow>, q: Query)
    requires Growing(lib, tables, q.tenantId) && Acceptable(q) && q.before.None?
    ensures var found := Newest(Chain(tables(0), q.tenantId), q);
            FollowFromStart(tables, q) == (if |found| <= q.offset then [] else found[q.offset..])
  {
    hide ValidChain, Chain, Newest, Ordered, Slice, Selected, MinSequence, Follow, ListReceipts, Numbered;
    var first := Chain(tables(0), q.tenantId);
    assert ValidChain(lib, first);
    hide Growing;
    Served(tables(0), q);
    OrderedIsNewest(lib, tables(0), q);
    PageAndRest(first, q, q.offset, q.limit);
    var page := Slice(Newest(first, q), q.offset, q.limit);
    if |page| >= q.limit && MinSequence(page) != 0 {
      var m := MinSequence(page);
      FollowReadsTheRest(lib, tables, 1, q.(before := Some(m)));
    }
  }

  /** The receipts table at the moments `cut(0), cut(1), ...` of a run of concurrent ingest. */
  function TableAt(lib: Library, now: Time, actions: seq<Action>, cut: nat -> nat, k: nat): seq<ReceiptRow>
  {
    var n := cut(k);
    Run(lib, Start(now), if n <= |actions| then actions[..n] else actions).db.receipts
  }

  /** Reading at successive moments of any run, the table is always valid and only grows. */
  lemma {:induction false} RunsGrow(lib: Library, now: Time, actions: seq<Action>, cut: nat -> nat, tenantId: Uuid)
    requires forall k: nat :: cut(0) <= cut(k) <= |actions|
    ensures Growing(lib, (k: nat) => TableAt(lib, now, actions, cut, k), tenantId)
  {
    hide Run, Chain, ValidChain, Accounted;
    forall k: nat
      ensures ValidChain(lib, Chain(TableAt(lib, now, actions, cut, k), tenantId))
      ensures Chain(TableAt(lib, now, actions, cut, 0), tenantId) <= Chain(TableAt(lib, now, actions, cut, k), tenantId)
    {
      var early, late := actions[..cut(0)], actions[cut(0)..cut(k)];
      assert actions[..cut(k)] == early + late;
      ConcurrentIngestIsSafe(lib, now, early, late, tenantId);
    }
  }
}
