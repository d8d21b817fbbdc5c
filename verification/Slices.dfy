// Slices that share their backing arrays: the in-place list surgery of
// api/internal/repository/memory.go.
module Slices {
  import opened Wrappers
  import opened Sorting

  // A Go slice that starts where its backing array does; the array may be longer.
  datatype Slice<T> = Slice(base: array<T>, len: nat)

  ghost predicate Fits<T>(s: Slice<T>) {
    s.len <= s.base.Length
  }

  function Elements<T>(s: Slice<T>): seq<T>
    requires Fits(s)
    reads s.base
  {
    s.base[..s.len]
  }

  // The elements that are not dropped, in order.
  function Without<T>(s: seq<T>, drop: T -> bool): (r: seq<T>)
    ensures |r| <= |s|
  {
    if s == [] then [] else Without(Front(s), drop) + if drop(Last(s)) then [] else [Last(s)]
  }

  lemma {:induction false} WithoutKeeps<T>(s: seq<T>, drop: T -> bool)
    ensures forall x :: x in Without(s, drop) <==> x in s && !drop(x)
    ensures |Without(s, drop)| == |s| <==> forall x :: x in s ==> !drop(x)
    ensures |Without(s, drop)| == |s| ==> Without(s, drop) == s
  {
    if s != [] {
      WithoutKeeps(Front(s), drop);
      assert s == Front(s) + [Last(s)];
    }
  }

  // for _, x := range s { if !drop(x) { out = append(out, x) } }, with out := s[:0].
  method Compact<T>(s: Slice<T>, drop: T -> bool) returns (out: Slice<T>)
    requires Fits(s)
    modifies s.base
    ensures out.base == s.base && out.len <= s.len
    ensures Elements(out) == Without(old(Elements(s)), drop)
    ensures forall i :: out.len <= i < s.base.Length ==> s.base[i] == old(s.base[i])
  {
    var kept := 0;
    ghost var before := s.base[..];
    for i := 0 to s.len
      invariant kept <= i
      invariant s.base[..kept] == Without(before[..i], drop)
      invariant forall k :: kept <= k < s.base.Length ==> s.base[k] == before[k]
    {
      assert Front(before[..i + 1]) == before[..i];
      if !drop(s.base[i]) {
        s.base[kept] := s.base[i];
        kept := kept + 1;
      }
    }
    assert before[..s.len] == old(Elements(s));
    out := Slice(s.base, kept);
  }

  // When nothing is dropped the backing array is written over with itself.
  lemma CompactingNothing<T>(s: seq<T>, drop: T -> bool)
    requires forall x :: x in s ==> !drop(x)
    ensures Without(s, drop) == s
  {
    WithoutKeeps(s, drop);
  }

  // append(s[:i], s[i+1:]...): the tail moves down one place in the same array.
  method DeleteAt<T>(s: Slice<T>, i: nat) returns (out: Slice<T>)
    requires Fits(s) && i < s.len
    modifies s.base
    ensures out.base == s.base && out.len == s.len - 1
    ensures Elements(out) == old(Elements(s))[..i] + old(Elements(s))[i + 1..]
    ensures forall k :: s.len - 1 <= k < s.base.Length ==> s.base[k] == old(s.base[k])
  {
    ghost var before := Elements(s);
    var k := i;
    while k + 1 < s.len
      invariant i <= k < s.len
      invariant forall j :: 0 <= j < i ==> s.base[j] == before[j]
      invariant forall j :: i <= j < k ==> s.base[j] == before[j + 1]
      invariant forall j :: k <= j < s.len ==> s.base[j] == before[j]
      invariant forall j :: s.len - 1 <= j < s.base.Length ==> s.base[j] == old(s.base[j])
    {
      s.base[k] := s.base[k + 1];
      k := k + 1;
    }
    out := Slice(s.base, s.len - 1);
    assert Elements(out) == before[..i] + before[i + 1..];
  }

  // Deleting the one element that is dropped is filtering.
  lemma {:induction false} DeletingIsFiltering<T>(s: seq<T>, drop: T -> bool, i: nat)
    requires i < |s| && drop(s[i]) && forall j :: 0 <= j < |s| && j != i ==> !drop(s[j])
    ensures s[..i] + s[i + 1..] == Without(s, drop)
  {
    if i == |s| - 1 {
      CompactingNothing(Front(s), drop);
    } else {
      DeletingIsFiltering(Front(s), drop, i);
      assert s[..i] + s[i + 1..] == (Front(s)[..i] + Front(s)[i + 1..]) + [Last(s)];
    }
  }

  // append([]T(nil), s...): a copy nobody else holds.
  method Clone<T>(s: Slice<T>) returns (copy: Slice<T>)
    requires Fits(s)
    ensures fresh(copy.base) && copy.len == copy.base.Length
    ensures Elements(copy) == Elements(s)
  {
    copy := FromSeq(s.base[..s.len]);
  }

  method FromSeq<T>(xs: seq<T>) returns (s: Slice<T>)
    ensures fresh(s.base) && Fits(s) && s.len == s.base.Length
    ensures Elements(s) == xs
  {
    var base := new T[|xs|](i requires 0 <= i < |xs| => xs[i]);
    assert base[..] == xs;
    s := Slice(base, |xs|);
  }

  // append(s, x): in place if there is room, otherwise in a larger copy.
  method Append<T>(s: Slice<T>, x: T) returns (out: Slice<T>)
    requires Fits(s)
    modifies s.base
    ensures Fits(out) && (out.base == s.base || fresh(out.base))
    ensures Elements(out) == old(Elements(s)) + [x]
  {
    if s.len < s.base.Length {
      s.base[s.len] := x;
      out := Slice(s.base, s.len + 1);
    } else {
      out := FromSeq(s.base[..s.len] + [x]);
    }
  }

  // ------------------------------------------------------------------------
  // positiveIDs: the first occurrence of every positive identifier.

  function Kept(ids: seq<int>): seq<int> {
    if ids == [] then []
    else
      var front := Kept(Front(ids));
      if Last(ids) <= 0 || Last(ids) in front then front else front + [Last(ids)]
  }

  method PositiveIDs(ids: seq<int>) returns (out: seq<int>)
    ensures out == Kept(ids)
  {
    out := [];
    var seen := {};
    for i := 0 to |ids|
      invariant out == Kept(ids[..i])
      invariant forall x :: x in seen <==> x in out
    {
      assert Front(ids[..i + 1]) == ids[..i];
      if ids[i] <= 0 || ids[i] in seen {
        continue;
      }
      seen := seen + {ids[i]};
      out := out + [ids[i]];
    }
    assert ids[..|ids|] == ids;
  }

  // A member list as it should be.
  predicate GoodMembers(members: seq<int>) {
    && (forall i :: 0 <= i < |members| ==> 0 < members[i])
    && (forall i, j :: 0 <= i < j < |members| ==> members[i] != members[j])
  }

  lemma {:induction false} KeptIsGood(ids: seq<int>)
    ensures GoodMembers(Kept(ids))
    ensures forall x :: x in Kept(ids) <==> x in ids && 0 < x
  {
    if ids != [] {
      KeptIsGood(Front(ids));
      assert ids == Front(ids) + [Last(ids)];
    }
  }

  // ------------------------------------------------------------------------
  // Sorting the identifiers after one was added.

  predicate Smaller(a: int, b: int) { a < b }

  method SortInts(s: Slice<int>)
    requires Fits(s)
    modifies s.base
    ensures Elements(s) == Sorted(old(Elements(s)), Smaller)
    ensures forall i :: s.len <= i < s.base.Length ==> s.base[i] == old(s.base[i])
  {
    StableSort(s.base, s.len, Smaller);
  }

  lemma SortedIntsSorts(xs: seq<int>)
    ensures multiset(Sorted(xs, Smaller)) == multiset(xs)
    ensures forall i, j :: 0 <= i < j < |xs| ==> Sorted(xs, Smaller)[i] <= Sorted(xs, Smaller)[j]
  {
    SortedPermutes(xs, Smaller);
    SortedOrdered(xs, (x: int) => true, Smaller);
  }

  // ------------------------------------------------------------------------
  // What adding and removing a member does to a member list.

  function Added(members: seq<int>, id: int): seq<int> {
    if id in members then members else Sorted(members + [id], Smaller)
  }

  function IsId(id: int): int -> bool {
    x => x == id
  }

  function Removed(members: seq<int>, id: int): seq<int> {
    Without(members, IsId(id))
  }

  lemma GrownIsGood(members: seq<int>, id: int)
    requires GoodMembers(members) && 0 < id && id !in members
    ensures GoodMembers(members + [id])
  {
    assert forall i :: 0 <= i < |members| ==> (members + [id])[i] == members[i] && members[i] in members;
  }

  lemma AddedIsGood(members: seq<int>, id: int)
    requires GoodMembers(members) && 0 < id
    ensures GoodMembers(Added(members, id))
    ensures forall x :: x in Added(members, id) <==> x in members || x == id
  {
    if id !in members {
      var grown, sorted := members + [id], Sorted(members + [id], Smaller);
      SortedIntsSorts(grown);
      SameElements(grown, sorted);
      GrownIsGood(members, id);
      DistinctPermutes(grown, sorted);
      forall i | 0 <= i < |sorted|
        ensures 0 < sorted[i]
      {
        assert sorted[i] in sorted;
      }
    }
  }

  // A new member takes its place in ascending order, the members that were there with it.
  lemma AddedAscends(members: seq<int>, id: int)
    requires id !in members
    ensures multiset(Added(members, id)) == multiset(members) + multiset{id}
    ensures forall i, j :: 0 <= i < j <= |members| ==> Added(members, id)[i] <= Added(members, id)[j]
  {
    SortedIntsSorts(members + [id]);
  }

  lemma {:induction false} RemovedIsGood(members: seq<int>, id: int)
    requires GoodMembers(members)
    ensures GoodMembers(Removed(members, id))
    ensures forall x :: x in Removed(members, id) <==> x in members && x != id
  {
    WithoutKeeps(members, IsId(id));
    assert forall i :: 0 <= i < |Removed(members, id)| ==> Removed(members, id)[i] in members;
    RemovedDistinct(members, id);
  }

  lemma {:induction false} RemovedDistinct(members: seq<int>, id: int)
    requires Distinct(members)
    ensures Distinct(Removed(members, id))
  {
    if members != [] {
      RemovedDistinct(Front(members), id);
      WithoutKeeps(Front(members), IsId(id));
    }
  }
}
