// Reading a Go map out in key order: collect the values as the map is walked, then sort
// them by key (sort.Slice and sort.Strings compare strings lexicographically).
module Listings {
  import opened Wrappers
  import opened Sorting

  // The strict lexicographic order of strings.
  predicate Below(a: string, b: string) {
    b != "" && (a == "" || a[0] < b[0] || (a[0] == b[0] && Below(a[1..], b[1..])))
  }

  lemma {:induction false} BelowIsTotal(a: string, b: string)
    ensures (a == b) || Below(a, b) || Below(b, a)
    ensures !(Below(a, b) && Below(b, a)) && !Below(a, a)
  {
    if a != "" && b != "" && a[0] == b[0] {
      BelowIsTotal(a[1..], b[1..]);
      assert a == [a[0]] + a[1..] && b == [b[0]] + b[1..];
    }
    if a != "" {
      BelowIsTotal(a[1..], a[1..]);
    }
  }

  lemma {:induction false} BelowIsTransitive(a: string, b: string, c: string)
    requires Below(a, b) && Below(b, c)
    ensures Below(a, c)
  {
    if a != "" && a[0] == b[0] == c[0] {
      BelowIsTransitive(a[1..], b[1..], c[1..]);
    }
  }

  // In key order, no key twice.
  ghost predicate InOrder<V(!new)>(values: seq<V>, key: V -> string) {
    forall i, j :: 0 <= i < j < |values| ==> Below(key(values[i]), key(values[j]))
  }

  // In key order, with ties.
  ghost predicate Ascending<V(!new)>(values: seq<V>, key: V -> string) {
    forall i, j :: 0 <= i < j < |values| ==> !Below(key(values[j]), key(values[i]))
  }

  ghost predicate DistinctKeys<V(!new)>(values: seq<V>, key: V -> string) {
    forall i, j :: 0 <= i < j < |values| ==> key(values[i]) != key(values[j])
  }

  lemma AscendingDistinctIsInOrder<V(!new)>(values: seq<V>, key: V -> string)
    requires Ascending(values, key) && DistinctKeys(values, key)
    ensures InOrder(values, key)
  {
    forall i, j | 0 <= i < j < |values|
      ensures Below(key(values[i]), key(values[j]))
    {
      BelowIsTotal(key(values[i]), key(values[j]));
    }
  }

  // The comparison that sort.Slice is given.
  function ByKey<V>(key: V -> string): (V, V) -> bool {
    (a: V, b: V) => Below(key(a), key(b))
  }

  lemma KeysAreOrdered<V(!new)>(key: V -> string, plain: V -> bool)
    ensures OrdersWeakly(plain, ByKey(key))
  {
    forall a: V, b: V, c: V
      ensures Below(key(a), key(b)) ==> !Below(key(b), key(a))
      ensures !Below(key(b), key(a)) && !Below(key(c), key(b)) ==> !Below(key(c), key(a))
    {
      BelowIsTotal(key(a), key(b));
      BelowIsTotal(key(b), key(c));
      BelowIsTotal(key(a), key(c));
      if Below(key(a), key(b)) && Below(key(b), key(c)) {
        BelowIsTransitive(key(a), key(b), key(c));
      }
    }
  }

  // Sorting, with nothing said about the order of equal keys.
  method Sort<V(!new)>(values: seq<V>, key: V -> string) returns (sorted: seq<V>)
    ensures multiset(sorted) == multiset(values)
    ensures Ascending(sorted, key)
    ensures DistinctKeys(values, key) ==> DistinctKeys(sorted, key)
  {
    var a := new V[|values|](i requires 0 <= i < |values| => values[i]);
    assert a[..a.Length] == values;
    StableSort(a, a.Length, ByKey(key));
    sorted := a[..a.Length];
    SortedPermutes(values, ByKey(key));
    KeysAreOrdered(key, (v: V) => true);
    SortedOrdered(values, (v: V) => true, ByKey(key));
    if DistinctKeys(values, key) {
      KeysStayDistinct(values, sorted, key);
    }
  }

  lemma KeysStayDistinct<V(!new)>(values: seq<V>, sorted: seq<V>, key: V -> string)
    requires multiset(sorted) == multiset(values) && DistinctKeys(values, key)
    ensures DistinctKeys(sorted, key)
  {
    SameElements(values, sorted);
    DistinctPermutes(values, sorted);
    forall i, j | 0 <= i < j < |sorted|
      ensures key(sorted[i]) != key(sorted[j])
    {
      assert sorted[i] in values && sorted[j] in values && sorted[i] != sorted[j];
    }
  }

  // Every value of the map once, in key order.
  ghost predicate IsListing<V(!new)>(out: seq<V>, m: map<string, V>, key: V -> string) {
    && |out| == |m|
    && InOrder(out, key)
    && (forall i :: 0 <= i < |out| ==> key(out[i]) in m && out[i] == m[key(out[i])])
    && (forall k :: k in m ==> m[k] in out)
  }

  method Listing<V(!new)>(m: map<string, V>, key: V -> string) returns (out: seq<V>)
    requires forall k :: k in m ==> key(m[k]) == k
    ensures IsListing(out, m, key)
  {
    var values: seq<V> := [];
    var rest := m.Keys;
    while rest != {}
      invariant rest <= m.Keys && |values| + |rest| == |m|
      invariant forall i :: 0 <= i < |values| ==> key(values[i]) in m.Keys - rest && values[i] == m[key(values[i])]
      invariant forall k :: k in m.Keys - rest ==> m[k] in values
      invariant DistinctKeys(values, key)
      decreases rest
    {
      var k :| k in rest;
      rest := rest - {k};
      values := values + [m[k]];
    }
    out := Sort(values, key);
    SameElements(out, values);
    forall i | 0 <= i < |out|
      ensures key(out[i]) in m && out[i] == m[key(out[i])]
    {
      assert out[i] in values;
    }
    AscendingDistinctIsInOrder(out, key);
  }

  // There is only one way to list a map.
  lemma ListingIsUnique<V(!new)>(a: seq<V>, b: seq<V>, m: map<string, V>, key: V -> string)
    requires IsListing(a, m, key) && IsListing(b, m, key)
    ensures a == b
  {
    forall x
      ensures x in a <==> x in b
    {
    }
    OrderDetermines(a, b, key);
  }

  lemma {:induction false} OrderDetermines<V(!new)>(a: seq<V>, b: seq<V>, key: V -> string)
    requires InOrder(a, key) && InOrder(b, key) && (forall x :: x in a <==> x in b)
    ensures a == b
  {
    Inhabited(a, b);
    if a != [] {
      LastIsLast(a, b, key);
      assert a == Front(a) + [Last(a)] && b == Front(b) + [Last(b)];
      forall x
        ensures x in Front(a) <==> x in Front(b)
      {
        BelowIsTotal(key(Last(a)), key(Last(a)));
        assert x in a <==> x in b;
      }
      OrderDetermines(Front(a), Front(b), key);
    }
  }

  lemma Inhabited<V>(a: seq<V>, b: seq<V>)
    requires forall x :: x in a <==> x in b
    ensures a == [] <==> b == []
  {
    if a != [] {
      assert a[0] in b;
    }
    if b != [] {
      assert b[0] in a;
    }
  }

  lemma LastIsLast<V(!new)>(a: seq<V>, b: seq<V>, key: V -> string)
    requires a != [] && b != [] && InOrder(a, key) && InOrder(b, key) && (forall x :: x in a <==> x in b)
    ensures Last(a) == Last(b)
  {
    assert Last(a) in b && Last(b) in a;
    var i :| 0 <= i < |b| && b[i] == Last(a);
    var j :| 0 <= j < |a| && a[j] == Last(b);
    BelowIsTotal(key(Last(a)), key(Last(b)));
  }
}
