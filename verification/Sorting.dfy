// Go's stable sort, for any comparison: insertion from the left, each element moving past
// those it comes before.
module Sorting {
  import opened Wrappers

  function Inserted<T>(sorted: seq<T>, x: T, less: (T, T) -> bool): (r: seq<T>)
    ensures |r| == |sorted| + 1
  {
    if sorted == [] || !less(x, Last(sorted)) then sorted + [x]
    else Inserted(Front(sorted), x, less) + [Last(sorted)]
  }

  function Sorted<T>(xs: seq<T>, less: (T, T) -> bool): (r: seq<T>)
    ensures |r| == |xs|
  {
    if xs == [] then [] else Inserted(Sorted(Front(xs), less), Last(xs), less)
  }

  // ------------------------------------------------------------------------
  // Sorting permutes.

  lemma {:induction false} InsertedPermutes<T>(sorted: seq<T>, x: T, less: (T, T) -> bool)
    ensures multiset(Inserted(sorted, x, less)) == multiset(sorted) + multiset{x}
  {
    if sorted != [] && less(x, Last(sorted)) {
      InsertedPermutes(Front(sorted), x, less);
      assert sorted == Front(sorted) + [Last(sorted)];
    }
  }

  lemma {:induction false} SortedPermutes<T>(xs: seq<T>, less: (T, T) -> bool)
    ensures multiset(Sorted(xs, less)) == multiset(xs)
  {
    if xs != [] {
      SortedPermutes(Front(xs), less);
      InsertedPermutes(Sorted(Front(xs), less), Last(xs), less);
      assert xs == Front(xs) + [Last(xs)];
    }
  }

  lemma SameElements<T>(xs: seq<T>, ys: seq<T>)
    requires multiset(xs) == multiset(ys)
    ensures |xs| == |ys| && forall x :: x in xs <==> x in ys
  {
    assert |multiset(xs)| == |xs| && |multiset(ys)| == |ys|;
    assert forall x :: x in xs <==> x in multiset(xs);
    assert forall x :: x in ys <==> x in multiset(ys);
  }

  // ------------------------------------------------------------------------
  // Sorting orders, if the comparison is a strict weak order of the elements.

  // No element comes before one listed ahead of it.
  ghost predicate Ordered<T>(xs: seq<T>, less: (T, T) -> bool) {
    forall i, j :: 0 <= i < j < |xs| ==> !less(xs[j], xs[i])
  }

  // The comparison is a strict weak order of the elements with this property.
  ghost predicate OrdersWeakly<T(!new)>(plain: T -> bool, less: (T, T) -> bool) {
    && (forall a, b :: plain(a) && plain(b) && less(a, b) ==> !less(b, a))
    && (forall a, b, c :: plain(a) && plain(b) && plain(c) && !less(b, a) && !less(c, b) ==> !less(c, a))
  }

  ghost predicate All<T>(xs: seq<T>, plain: T -> bool) {
    forall i :: 0 <= i < |xs| ==> plain(xs[i])
  }

  lemma {:induction false} InsertedOrdered<T(!new)>(sorted: seq<T>, x: T, plain: T -> bool, less: (T, T) -> bool)
    requires OrdersWeakly(plain, less) && Ordered(sorted, less) && All(sorted, plain) && plain(x)
    ensures Ordered(Inserted(sorted, x, less), less) && All(Inserted(sorted, x, less), plain)
    ensures forall y :: y in Inserted(sorted, x, less) ==> y in sorted || y == x
  {
    if sorted != [] && less(x, Last(sorted)) {
      InsertedOrdered(Front(sorted), x, plain, less);
      assert forall y :: y in Front(sorted) ==> !less(Last(sorted), y);
    } else if sorted != [] {
      forall i | 0 <= i < |sorted|
        ensures !less(x, sorted[i])
      {
        assert plain(sorted[i]) && plain(Last(sorted));
        assert i < |sorted| - 1 ==> !less(Last(sorted), sorted[i]);
      }
    }
  }

  lemma {:induction false} SortedOrdered<T(!new)>(xs: seq<T>, plain: T -> bool, less: (T, T) -> bool)
    requires OrdersWeakly(plain, less) && All(xs, plain)
    ensures Ordered(Sorted(xs, less), less) && All(Sorted(xs, less), plain)
  {
    if xs != [] {
      SortedOrdered(Front(xs), plain, less);
      InsertedOrdered(Sorted(Front(xs), less), Last(xs), plain, less);
    }
  }

  // ------------------------------------------------------------------------
  // Being free of duplicates is a matter of multiplicities, so sorting keeps that too.

  ghost predicate Distinct<T>(xs: seq<T>) {
    forall i, j :: 0 <= i < j < |xs| ==> xs[i] != xs[j]
  }

  lemma {:induction false} DistinctByCount<T(!new)>(xs: seq<T>)
    ensures Distinct(xs) <==> forall x :: multiset(xs)[x] <= 1
  {
    if xs != [] {
      DistinctByCount(Front(xs));
      assert xs == Front(xs) + [Last(xs)];
      assert multiset(xs) == multiset(Front(xs)) + multiset{Last(xs)};
      assert Last(xs) in Front(xs) <==> multiset(Front(xs))[Last(xs)] > 0;
      if Distinct(xs) {
        assert forall i :: 0 <= i < |Front(xs)| ==> Front(xs)[i] == xs[i];
        assert Distinct(Front(xs)) && Last(xs) !in Front(xs);
      } else {
        var i, j :| 0 <= i < j < |xs| && xs[i] == xs[j];
        if j < |xs| - 1 {
          assert Front(xs)[i] == Front(xs)[j];
          assert !Distinct(Front(xs));
          var x :| multiset(Front(xs))[x] > 1;
          assert multiset(xs)[x] > 1;
        } else {
          assert Last(xs) == Front(xs)[i];
          assert multiset(xs)[Last(xs)] > 1;
        }
      }
    }
  }

  lemma DistinctPermutes<T(!new)>(xs: seq<T>, ys: seq<T>)
    requires multiset(xs) == multiset(ys)
    ensures Distinct(xs) <==> Distinct(ys)
  {
    DistinctByCount(xs);
    DistinctByCount(ys);
  }

  // ------------------------------------------------------------------------
  // The sort itself, in place.

  lemma {:induction false} InsertedAcross<T>(sorted: seq<T>, x: T, tail: seq<T>, less: (T, T) -> bool)
    requires forall i :: 0 <= i < |tail| ==> less(x, tail[i])
    ensures Inserted(sorted + tail, x, less) == Inserted(sorted, x, less) + tail
  {
    if tail == [] {
      assert sorted + tail == sorted && Inserted(sorted, x, less) + tail == Inserted(sorted, x, less);
    } else {
      var both := sorted + tail;
      InsertedAcross(sorted, x, Front(tail), less);
      assert Front(both) == sorted + Front(tail) && Last(both) == Last(tail);
      ConcatAssociates(Inserted(sorted, x, less), Front(tail), [Last(tail)]);
    }
  }

  // `after` is `before` with x put in at j, having moved past everything from j on.
  lemma InsertedAt<T>(before: seq<T>, x: T, j: nat, after: seq<T>, less: (T, T) -> bool)
    requires j <= |before| && |after| == |before| + 1
    requires forall i :: 0 <= i < j ==> after[i] == before[i]
    requires after[j] == x
    requires forall i :: j < i <= |before| ==> after[i] == before[i - 1]
    requires forall i :: j <= i < |before| ==> less(x, before[i])
    requires j == 0 || !less(x, before[j - 1])
    ensures after == Inserted(before, x, less)
  {
    var head, tail := before[..j], before[j..];
    Spliced(before, x, j, after);
    assert before == head + tail;
    InsertedAcross(head, x, tail, less);
    LandsLast(head, x, less);
  }

  lemma Spliced<T>(before: seq<T>, x: T, j: nat, after: seq<T>)
    requires j <= |before| && |after| == |before| + 1
    requires forall i :: 0 <= i < j ==> after[i] == before[i]
    requires after[j] == x
    requires forall i :: j < i <= |before| ==> after[i] == before[i - 1]
    ensures after == before[..j] + [x] + before[j..]
  {
    var spliced := before[..j] + [x] + before[j..];
    forall i | 0 <= i < |after|
      ensures after[i] == spliced[i]
    {
      if i > j {
        assert spliced[i] == before[j..][i - j - 1] == before[i - 1];
      }
    }
  }

  lemma LandsLast<T>(head: seq<T>, x: T, less: (T, T) -> bool)
    requires head == [] || !less(x, head[|head| - 1])
    ensures Inserted(head, x, less) == head + [x]
  {
  }

  // Moves the element at `end` left to its place among the sorted ones before it.
  method SinkLeft<T>(a: array<T>, end: nat, less: (T, T) -> bool)
    requires end < a.Length
    modifies a
    ensures a[..end + 1] == Inserted(old(a[..end]), old(a[end]), less)
    ensures forall i :: end < i < a.Length ==> a[i] == old(a[i])
  {
    ghost var before, x := a[..end], a[end];
    var j := end;
    while j > 0 && less(a[j], a[j - 1])
      invariant 0 <= j <= end && a[j] == x
      invariant forall i :: 0 <= i < j ==> a[i] == before[i]
      invariant forall i :: j < i <= end ==> a[i] == before[i - 1]
      invariant forall i :: j <= i < end ==> less(x, before[i])
      invariant forall i :: end < i < a.Length ==> a[i] == old(a[i])
    {
      a[j], a[j - 1] := a[j - 1], a[j];
      j := j - 1;
    }
    InsertedAt(before, x, j, a[..end + 1], less);
  }

  // Sorts the first n elements.
  method StableSort<T>(a: array<T>, n: nat, less: (T, T) -> bool)
    requires n <= a.Length
    modifies a
    ensures a[..n] == Sorted(old(a[..n]), less)
    ensures forall i :: n <= i < a.Length ==> a[i] == old(a[i])
  {
    ghost var start := a[..];
    for i := 0 to n
      invariant a[..i] == Sorted(start[..i], less)
      invariant forall k :: i <= k < a.Length ==> a[k] == start[k]
    {
      assert Front(start[..i + 1]) == start[..i];
      SinkLeft(a, i, less);
    }
    assert start[..n] == old(a[..n]);
  }
}
