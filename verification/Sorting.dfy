/**
  The stable sort behind `sorted(...)`, `sort_keys=True` and `ORDER BY`,
  and Python's order on strings.
 */
module Sorting {

  /** `x` goes in front of the first element it is not larger than, so equal elements keep their order. */
  function Insert<T>(le: (T, T) -> bool, x: T, ys: seq<T>): seq<T>
  {
    if ys == [] then [x]
    else if le(x, ys[0]) then [x] + ys
    else [ys[0]] + Insert(le, x, ys[1..])
  }

  function Sort<T>(le: (T, T) -> bool, xs: seq<T>): seq<T>
  {
    if xs == [] then [] else Insert(le, xs[0], Sort(le, xs[1..]))
  }

  ghost predicate Ascending<T>(le: (T, T) -> bool, xs: seq<T>)
  {
    forall i, j :: 0 <= i < j < |xs| ==> le(xs[i], xs[j])
  }

  ghost predicate TotalPreorder<T(!new)>(le: (T, T) -> bool)
  {
    && (forall x, y :: le(x, y) || le(y, x))
    && (forall x, y, z :: le(x, y) && le(y, z) ==> le(x, z))
  }

  lemma {:induction false} InsertPermutes<T>(le: (T, T) -> bool, x: T, ys: seq<T>)
    ensures multiset(Insert(le, x, ys)) == multiset{x} + multiset(ys)
  {
    if ys != [] && !le(x, ys[0]) {
      InsertPermutes(le, x, ys[1..]);
      assert ys == [ys[0]] + ys[1..];
    }
  }

  lemma {:induction false} SortPermutes<T>(le: (T, T) -> bool, xs: seq<T>)
    ensures multiset(Sort(le, xs)) == multiset(xs)
  {
    if xs != [] {
      SortPermutes(le, xs[1..]);
      InsertPermutes(le, xs[0], Sort(le, xs[1..]));
      assert xs == [xs[0]] + xs[1..];
    }
  }

  lemma SameElements<T>(xs: seq<T>, ys: seq<T>)
    requires multiset(xs) == multiset(ys)
    ensures |xs| == |ys|
    ensures forall x :: x in xs <==> x in ys
  {
    assert |multiset(xs)| == |multiset(ys)|;
    forall x ensures x in xs <==> x in ys {
      assert x in multiset(xs) <==> x in multiset(ys);
    }
  }

  lemma {:induction false} InsertAscending<T(!new)>(le: (T, T) -> bool, x: T, ys: seq<T>)
    requires TotalPreorder(le) && Ascending(le, ys)
    ensures Ascending(le, Insert(le, x, ys))
  {
    if ys != [] && !le(x, ys[0]) {
      InsertAscending(le, x, ys[1..]);
      InsertPermutes(le, x, ys[1..]);
      var tail := Insert(le, x, ys[1..]);
      SameElements(tail, [x] + ys[1..]);
      forall y | y in tail ensures le(ys[0], y) {
        assert y in [x] + ys[1..];
      }
    }
  }

  lemma {:induction false} SortAscending<T(!new)>(le: (T, T) -> bool, xs: seq<T>)
    requires TotalPreorder(le)
    ensures Ascending(le, Sort(le, xs))
  {
    if xs != [] {
      SortAscending(le, xs[1..]);
      InsertAscending(le, xs[0], Sort(le, xs[1..]));
    }
  }

  /** Sorting what is already in order changes nothing. */
  lemma {:induction false} SortIdentity<T>(le: (T, T) -> bool, xs: seq<T>)
    requires Ascending(le, xs)
    ensures Sort(le, xs) == xs
  {
    if xs != [] {
      SortIdentity(le, xs[1..]);
      assert xs == [xs[0]] + xs[1..];
    }
  }

  lemma SwapPermutes<T>(xs: seq<T>, i: nat, j: nat)
    requires i < j < |xs|
    ensures multiset(xs[i := xs[j]][j := xs[i]]) == multiset(xs)
  {
  }

  /** Rearranging distinct elements keeps them distinct. */
  lemma DistinctStays<T>(xs: seq<T>, ys: seq<T>)
    requires multiset(xs) == multiset(ys)
    requires forall i, j :: 0 <= i < j < |xs| ==> xs[i] != xs[j]
    ensures forall i, j :: 0 <= i < j < |ys| ==> ys[i] != ys[j]
  {
    SameElements(xs, ys);
    forall i, j | 0 <= i < j < |ys| ensures ys[i] != ys[j] {
      var x := ys[i];
      assert x in xs;
      DistinctOnce(xs, x);
      assert ys == ys[..j] + ys[j..] && ys[..j][i] == x;
      assert multiset(ys[j..])[x] == 0;
      assert ys[j] == ys[j..][0];
    }
  }

  // ----- Counting -----

  function Count<T>(f: T -> bool, xs: seq<T>): (n: nat)
    ensures n <= |xs|
  {
    if xs == [] then 0 else Count(f, xs[..|xs| - 1]) + if f(xs[|xs| - 1]) then 1 else 0
  }

  lemma {:induction false} CountConcat<T>(f: T -> bool, xs: seq<T>, ys: seq<T>)
    ensures Count(f, xs + ys) == Count(f, xs) + Count(f, ys)
    decreases |ys|
  {
    if ys == [] {
      assert xs + ys == xs;
    } else {
      var n := |ys| - 1;
      CountConcat(f, xs, ys[..n]);
      assert (xs + ys)[..|xs| + n] == xs + ys[..n];
    }
  }

  lemma {:induction false} CountInsert<T>(f: T -> bool, le: (T, T) -> bool, x: T, ys: seq<T>)
    ensures Count(f, Insert(le, x, ys)) == Count(f, [x]) + Count(f, ys)
  {
    if ys == [] {
    } else if le(x, ys[0]) {
      CountConcat(f, [x], ys);
    } else {
      CountInsert(f, le, x, ys[1..]);
      CountConcat(f, [ys[0]], Insert(le, x, ys[1..]));
      CountConcat(f, [ys[0]], ys[1..]);
      assert ys == [ys[0]] + ys[1..];
    }
  }

  /** Sorting does not change how many elements satisfy a predicate. */
  lemma {:induction false} CountSort<T>(f: T -> bool, le: (T, T) -> bool, xs: seq<T>)
    ensures Count(f, Sort(le, xs)) == Count(f, xs)
  {
    if xs != [] {
      CountSort(f, le, xs[1..]);
      CountInsert(f, le, xs[0], Sort(le, xs[1..]));
      CountConcat(f, [xs[0]], xs[1..]);
      assert xs == [xs[0]] + xs[1..];
    }
  }

  /** Two lists of distinct elements with the same elements are rearrangements of each other. */
  lemma SameDistinctElements<T>(xs: seq<T>, ys: seq<T>)
    requires forall i, j :: 0 <= i < j < |xs| ==> xs[i] != xs[j]
    requires forall i, j :: 0 <= i < j < |ys| ==> ys[i] != ys[j]
    requires forall x :: x in xs <==> x in ys
    ensures multiset(xs) == multiset(ys)
  {
    forall x ensures multiset(xs)[x] == multiset(ys)[x] {
      DistinctOnce(xs, x);
      DistinctOnce(ys, x);
    }
  }

  lemma DistinctOnce<T>(xs: seq<T>, x: T)
    requires forall i, j :: 0 <= i < j < |xs| ==> xs[i] != xs[j]
    ensures multiset(xs)[x] == if x in xs then 1 else 0
  {
    if x in xs {
      var k :| 0 <= k < |xs| && xs[k] == x;
      assert xs == xs[..k] + [x] + xs[k + 1..];
      assert x !in xs[..k] && x !in xs[k + 1..];
    }
  }

  // ----- Stability -----

  function Filter<T>(f: T -> bool, xs: seq<T>): seq<T>
  {
    if xs == [] then [] else (if f(xs[0]) then [xs[0]] else []) + Filter(f, xs[1..])
  }

  lemma {:induction false} InsertIsStable<T(!new)>(f: T -> bool, le: (T, T) -> bool, x: T, ys: seq<T>)
    requires forall y | y in ys :: f(x) && f(y) ==> le(x, y)
    ensures Filter(f, Insert(le, x, ys)) == Filter(f, [x] + ys)
  {
    if ys != [] && !le(x, ys[0]) {
      InsertIsStable(f, le, x, ys[1..]);
      assert ([ys[0]] + Insert(le, x, ys[1..]))[1..] == Insert(le, x, ys[1..]);
      assert ([x] + ys[1..])[1..] == ys[1..];
    }
    assert ([x] + ys)[1..] == ys;
  }

  /** Elements that count as equal keep the order they came in. */
  lemma {:induction false} SortIsStable<T(!new)>(f: T -> bool, le: (T, T) -> bool, xs: seq<T>)
    requires forall x, y | x in xs && y in xs :: f(x) && f(y) ==> le(x, y)
    ensures Filter(f, Sort(le, xs)) == Filter(f, xs)
  {
    if xs != [] {
      SortIsStable(f, le, xs[1..]);
      SortPermutes(le, xs[1..]);
      SameElements(Sort(le, xs[1..]), xs[1..]);
      forall y | y in Sort(le, xs[1..]) ensures f(xs[0]) && f(y) ==> le(xs[0], y) {
        assert y in xs[1..];
        assert xs[0] in xs && y in xs;
      }
      InsertIsStable(f, le, xs[0], Sort(le, xs[1..]));
      assert ([xs[0]] + Sort(le, xs[1..]))[1..] == Sort(le, xs[1..]);
    }
  }

  // ----- Python's order on str: code point by code point, a proper prefix first -----

  predicate Less(a: string, b: string)
  {
    if b == "" then false
    else if a == "" then true
    else if a[0] != b[0] then a[0] < b[0]
    else Less(a[1..], b[1..])
  }

  predicate StringLe(a: string, b: string)
  {
    !Less(b, a)
  }

  /** `a` and `b` agree before position `k`, and there `a` has the smaller character. */
  ghost predicate SmallerAt(a: string, b: string, k: nat)
  {
    k < |a| && k < |b| && a[..k] == b[..k] && a[k] < b[k]
  }

  /** The order position by position: a proper prefix comes first, else the first differing character decides. */
  ghost predicate Before(a: string, b: string)
  {
    (a <= b && a != b) || exists k :: SmallerAt(a, b, k)
  }

  /** The recursive comparison is that order. */
  lemma {:induction false} LessIsBefore(a: string, b: string)
    ensures Less(a, b) <==> Before(a, b)
  {
    if a != "" && b != "" {
      LessIsBefore(a[1..], b[1..]);
      assert a == [a[0]] + a[1..] && b == [b[0]] + b[1..];
      if a[0] != b[0] {
        assert SmallerAt(a, b, 0) <==> a[0] < b[0];
        assert forall k: nat :: 0 < k && k < |a| && k < |b| ==> a[..k][0] != b[..k][0];
      } else {
        TailsBefore(a, b);
      }
    }
  }

  /** A common first character does not matter. */
  lemma TailsBefore(a: string, b: string)
    requires a != "" && b != "" && a[0] == b[0]
    ensures Before(a, b) <==> Before(a[1..], b[1..])
  {
    assert a == b <==> a[1..] == b[1..] by {
      assert a == [a[0]] + a[1..] && b == [b[0]] + b[1..];
    }
    if k: nat :| SmallerAt(a, b, k) {
      assert k > 0;
      assert a[1..][..k - 1] == a[..k][1..] && b[1..][..k - 1] == b[..k][1..];
      assert SmallerAt(a[1..], b[1..], k - 1);
    }
    if k: nat :| SmallerAt(a[1..], b[1..], k) {
      assert a[..k + 1] == [a[0]] + a[1..][..k] && b[..k + 1] == [b[0]] + b[1..][..k];
      assert SmallerAt(a, b, k + 1);
    }
  }

  lemma {:induction false} LessTrichotomy(a: string, b: string)
    ensures Less(a, b) || a == b || Less(b, a)
    ensures !(Less(a, b) && Less(b, a))
    ensures !Less(a, a)
  {
    if a != "" && b != "" {
      LessTrichotomy(a[1..], b[1..]);
      assert a == [a[0]] + a[1..] && b == [b[0]] + b[1..];
    }
    if a != "" {
      LessTrichotomy(a[1..], a[1..]);
    }
  }

  lemma {:induction false} LessTransitive(a: string, b: string, c: string)
    requires Less(a, b) && Less(b, c)
    ensures Less(a, c)
  {
    if a != "" && a[0] == b[0] == c[0] {
      LessTransitive(a[1..], b[1..], c[1..]);
    }
  }

  lemma StringLeIsTotalPreorder()
    ensures TotalPreorder(StringLe)
  {
    forall x: string, y: string, z: string | StringLe(x, y) && StringLe(y, z) ensures StringLe(x, z) {
      LessTrichotomy(x, y);
      LessTrichotomy(y, z);
      if Less(z, x) {
        if x == y || y == z {
        } else {
          LessTransitive(x, y, z);
          LessTrichotomy(x, z);
        }
      }
    }
    forall x: string, y: string ensures StringLe(x, y) || StringLe(y, x) {
      LessTrichotomy(x, y);
    }
  }

  /** Removing equal heads from two sequences with the same elements leaves the same elements. */
  lemma SameRest<T>(xs: seq<T>, ys: seq<T>)
    requires xs != [] && ys != [] && xs[0] == ys[0]
    ensures multiset(xs) == multiset(ys) <==> multiset(xs[1..]) == multiset(ys[1..])
  {
    assert xs == [xs[0]] + xs[1..] && ys == [ys[0]] + ys[1..];
    assert multiset(xs[1..]) == multiset(xs) - multiset{xs[0]};
    assert multiset(ys[1..]) == multiset(ys) - multiset{ys[0]};
  }

  /** Strings in order are fixed by which strings they are. */
  lemma {:induction false} AscendingStringsUnique(xs: seq<string>, ys: seq<string>)
    requires Ascending(StringLe, xs) && Ascending(StringLe, ys) && multiset(xs) == multiset(ys)
    ensures xs == ys
  {
    hide Less;
    SameElements(xs, ys);
    if xs != [] {
      assert xs[0] in ys && ys[0] in xs;
      var i :| 0 <= i < |ys| && ys[i] == xs[0];
      var j :| 0 <= j < |xs| && xs[j] == ys[0];
      LessTrichotomy(xs[0], ys[0]);
      assert StringLe(ys[0], ys[i]) || i == 0;
      assert StringLe(xs[0], xs[j]) || j == 0;
      assert xs[0] == ys[0];
      SameRest(xs, ys);
      AscendingStringsUnique(xs[1..], ys[1..]);
      assert xs == [xs[0]] + xs[1..] && ys == [ys[0]] + ys[1..];
    }
  }

  lemma SortedStringsSameIffSameStrings(xs: seq<string>, ys: seq<string>)
    ensures Sort(StringLe, xs) == Sort(StringLe, ys) <==> multiset(xs) == multiset(ys)
  {
    hide Ascending, Sort, StringLe;
    StringLeIsTotalPreorder();
    SortAscending(StringLe, xs);
    SortAscending(StringLe, ys);
    SortPermutes(StringLe, xs);
    SortPermutes(StringLe, ys);
    if multiset(xs) == multiset(ys) {
      AscendingStringsUnique(Sort(StringLe, xs), Sort(StringLe, ys));
    }
  }
}
