// What the group and address-book collections of api/internal/repository/memory.go share:
// each record holds a slice whose backing array is rewritten in place, and every result is
// a copy.
module SharedLists {
  import opened Wrappers
  import opened Slices

  // A record with the slice it owns.
  datatype Owner<T> = Owner(id: int, items: Slice<T>)

  // What is visible of a record.
  datatype Listed<T> = Listed(id: int, items: seq<T>)

  // The collection as callers see it, with the store's counter of identifiers.
  datatype Records<T> = Records(nextID: int, lists: seq<Listed<T>>)

  datatype Error = NotFound | Invalid | Exists

  function IndexOf<T>(contents: seq<Listed<T>>, id: int): (i: nat)
    ensures i <= |contents|
    ensures i < |contents| ==> contents[i].id == id
    ensures forall j :: 0 <= j < i ==> contents[j].id != id
  {
    FirstWhere(contents, (record: Listed<T>) => record.id == id)
  }

  class Lists<T> {
    var nextID: int
    var owners: seq<Owner<T>>
    ghost var Contents: seq<Listed<T>>
    ghost var Repr: set<array<T>>  // every backing array in use

    // No two records share a backing array.
    ghost predicate Valid()
      reads this, Repr
    {
      && |Contents| == |owners|
      && (forall i :: 0 <= i < |owners| ==>
            && owners[i].items.base in Repr && Fits(owners[i].items)
            && Contents[i] == Listed(owners[i].id, Elements(owners[i].items)))
      && (forall i, j :: 0 <= i < j < |owners| ==> owners[i].items.base != owners[j].items.base)
    }

    ghost function State(): Records<T>
      reads this
    {
      Records(nextID, Contents)
    }

    constructor (nextID: int)
      ensures Valid() && State() == Records(nextID, []) && Repr == {}
    {
      this.nextID := nextID;
      owners, Contents, Repr := [], [], {};
    }

    // Stores a copy of the items and returns another.
    method Create(id: int, items: seq<T>) returns (copy: Slice<T>)
      requires Valid()
      modifies this
      ensures Valid() && fresh(Repr - old(Repr)) && nextID == old(nextID)
      ensures Contents == old(Contents) + [Listed(id, items)]
      ensures fresh(copy.base) && copy.base !in Repr && Fits(copy) && Elements(copy) == items
    {
      var stored := FromSeq(items);
      owners := owners + [Owner(id, stored)];
      Contents := Contents + [Listed(id, items)];
      Repr := Repr + {stored.base};
      copy := Clone(stored);
    }

    method Find(id: int) returns (i: nat)
      requires Valid()
      ensures i == IndexOf(Contents, id)
    {
      i := 0;
      while i < |owners| && owners[i].id != id
        invariant i <= |owners| && i <= IndexOf(Contents, id)
      {
        i := i + 1;
      }
    }

    // Replaces the slice of one record, whose array may have been rewritten or outgrown.
    method Put(i: nat, items: Slice<T>)
      requires i < |owners| && |Contents| == |owners| && Fits(items)
      requires forall k :: 0 <= k < |owners| && k != i ==>
                 && owners[k].items.base in Repr && Fits(owners[k].items)
                 && Contents[k] == Listed(owners[k].id, Elements(owners[k].items))
                 && owners[k].items.base != items.base
      requires forall k, l :: 0 <= k < l < |owners| ==> owners[k].items.base != owners[l].items.base
      requires Contents[i].id == owners[i].id
      modifies this
      ensures Valid() && Repr == old(Repr) + {items.base} && nextID == old(nextID)
      ensures Contents == old(Contents)[i := Listed(old(Contents)[i].id, Elements(items))]
    {
      owners := owners[i := owners[i].(items := items)];
      Contents := Contents[i := Contents[i].(items := Elements(items))];
      Repr := Repr + {items.base};
    }

    // The shape of every removal: compact the slice of the first record with this
    // identifier in place.
    method RemoveWhere(id: int, drop: T -> bool) returns (removed: bool, copy: Option<Slice<T>>)
      requires Valid()
      modifies this, Repr
      ensures Valid() && Repr == old(Repr) && nextID == old(nextID)
      ensures var i := IndexOf(old(Contents), id);
              if i == |old(Contents)| then copy == None && !removed && Contents == old(Contents)
              else
                var kept := Without(old(Contents)[i].items, drop);
                && Contents == old(Contents)[i := Listed(id, kept)]
                && (removed <==> kept != old(Contents)[i].items)
                && copy.Some? && fresh(copy.value.base) && copy.value.base !in Repr
                && Fits(copy.value) && Elements(copy.value) == kept
    {
      var i := Find(id);
      if i == |owners| {
        return false, None;
      }
      WithoutKeeps(Contents[i].items, drop);
      var out;
      removed, out := CompactAt(i, drop);
      var clone := Clone(out);
      copy := Some(clone);
    }

    // Compacts the slice of the record at this place.
    method CompactAt(i: nat, drop: T -> bool) returns (removed: bool, out: Slice<T>)
      requires Valid() && i < |owners|
      modifies this, Repr
      ensures Valid() && Repr == old(Repr) && nextID == old(nextID)
      ensures Fits(out) && Elements(out) == Without(old(Contents)[i].items, drop)
      ensures removed <==> |Elements(out)| < |old(Contents)[i].items|
      ensures Contents == old(Contents)[i := Listed(old(Contents)[i].id, Elements(out))]
    {
      var items := owners[i].items;
      out := Compact(items, drop);
      removed := out.len < items.len;
      Put(i, out);
    }
  }
}
