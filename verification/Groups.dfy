// User groups and device groups: api/internal/repository/memory.go keeps both alike.
module Groups {
  import opened Wrappers
  import opened Text
  import opened Sorting
  import opened Slices
  import opened SharedLists

  // ------------------------------------------------------------------------
  // What the three operations do to the groups, and the members they answer with.

  function Created(s: Records<int>, name: string, ids: seq<int>): (Records<int>, Result<seq<int>, Error>) {
    if TrimSpace(name) == "" then (s, Err(Invalid))
    else (Records(s.nextID + 1, s.lists + [Listed(s.nextID + 1, Kept(ids))]), Ok(Kept(ids)))
  }

  // The first group with this identifier gets these members.
  function WithMembers(s: Records<int>, i: nat, members: seq<int>): (Records<int>, Result<seq<int>, Error>)
    requires i < |s.lists|
  {
    (s.(lists := s.lists[i := Listed(s.lists[i].id, members)]), Ok(members))
  }

  function MemberAdded(s: Records<int>, groupId: int, memberId: int): (Records<int>, Result<seq<int>, Error>) {
    var i := IndexOf(s.lists, groupId);
    if groupId <= 0 || memberId <= 0 then (s, Err(Invalid))
    else if i == |s.lists| then (s, Err(NotFound))
    else WithMembers(s, i, Added(s.lists[i].items, memberId))
  }

  // An absent member is no error.
  function MemberRemoved(s: Records<int>, groupId: int, memberId: int): (Records<int>, Result<seq<int>, Error>) {
    var i := IndexOf(s.lists, groupId);
    if groupId <= 0 || memberId <= 0 then (s, Err(Invalid))
    else if i == |s.lists| then (s, Err(NotFound))
    else WithMembers(s, i, Removed(s.lists[i].items, memberId))
  }

  method CreateGroup(groups: Lists<int>, name: string, ids: seq<int>) returns (r: Result<Slice<int>, Error>)
    requires groups.Valid()
    modifies groups
    ensures groups.Valid() && fresh(groups.Repr - old(groups.Repr))
    ensures groups.State() == Created(old(groups.State()), name, ids).0
    ensures match Created(old(groups.State()), name, ids).1
            case Err(e) => r == Err(e)
            case Ok(members) =>
              && r.Ok? && fresh(r.value.base) && r.value.base !in groups.Repr
              && Fits(r.value) && Elements(r.value) == members
  {
    if TrimSpace(name) == "" {
      return Err(Invalid);
    }
    groups.nextID := groups.nextID + 1;
    var kept := PositiveIDs(ids);
    var copy := groups.Create(groups.nextID, kept);
    r := Ok(copy);
  }

  // The slice may grow into spare room left by earlier removals.
  method AddMember(groups: Lists<int>, groupId: int, memberId: int) returns (r: Result<Slice<int>, Error>)
    requires groups.Valid()
    modifies groups, groups.Repr
    ensures groups.Valid() && fresh(groups.Repr - old(groups.Repr))
    ensures groups.State() == MemberAdded(old(groups.State()), groupId, memberId).0
    ensures match MemberAdded(old(groups.State()), groupId, memberId).1
            case Err(e) => r == Err(e)
            case Ok(members) =>
              && r.Ok? && fresh(r.value.base) && r.value.base !in groups.Repr
              && Fits(r.value) && Elements(r.value) == members
  {
    if groupId <= 0 || memberId <= 0 {
      return Err(Invalid);
    }
    var i := groups.Find(groupId);
    if i == |groups.owners| {
      return Err(NotFound);
    }
    var items := Grow(groups, i, memberId);
    var copy := Clone(items);
    r := Ok(copy);
  }

  // Adds to the group at this place and answers with its slice.
  method Grow(groups: Lists<int>, i: nat, memberId: int) returns (items: Slice<int>)
    requires groups.Valid() && i < |groups.owners|
    modifies groups, groups.Repr
    ensures groups.Valid() && fresh(groups.Repr - old(groups.Repr)) && groups.nextID == old(groups.nextID)
    ensures Fits(items) && Elements(items) == Added(old(groups.Contents)[i].items, memberId)
    ensures groups.Contents == old(groups.Contents)[i := Listed(old(groups.Contents)[i].id, Elements(items))]
  {
    items := groups.owners[i].items;
    if memberId !in items.base[..items.len] {
      items := Append(items, memberId);
      SortInts(items);
      groups.Put(i, items);
    }
  }

  method RemoveMember(groups: Lists<int>, groupId: int, memberId: int) returns (r: Result<Slice<int>, Error>)
    requires groups.Valid()
    modifies groups, groups.Repr
    ensures groups.Valid() && groups.Repr == old(groups.Repr)
    ensures groups.State() == MemberRemoved(old(groups.State()), groupId, memberId).0
    ensures match MemberRemoved(old(groups.State()), groupId, memberId).1
            case Err(e) => r == Err(e)
            case Ok(members) =>
              && r.Ok? && fresh(r.value.base) && r.value.base !in groups.Repr
              && Fits(r.value) && Elements(r.value) == members
  {
    if groupId <= 0 || memberId <= 0 {
      return Err(Invalid);
    }
    var _, copy := groups.RemoveWhere(groupId, IsId(memberId));
    r := if copy.Some? then Ok(copy.value) else Err(NotFound);
  }

  // ------------------------------------------------------------------------
  // Whole runs.

  datatype GroupOp =
    | CreateOp(name: string, ids: seq<int>)
    | AddOp(groupId: int, memberId: int)
    | RemoveOp(groupId: int, memberId: int)
    | ElsewhereOp(taken: nat)  // identifiers the rest of the store takes

  function After(s: Records<int>, ops: seq<GroupOp>): Records<int> {
    if ops == [] then s else Next(After(s, Front(ops)), Last(ops))
  }

  function Next(s: Records<int>, op: GroupOp): Records<int> {
    match op
    case CreateOp(name, ids) => Created(s, name, ids).0
    case AddOp(groupId, memberId) => MemberAdded(s, groupId, memberId).0
    case RemoveOp(groupId, memberId) => MemberRemoved(s, groupId, memberId).0
    case ElsewhereOp(taken) => s.(nextID := s.nextID + taken)
  }

  lemma OneMoreOp(s: Records<int>, ops: seq<GroupOp>, k: nat)
    requires k < |ops|
    ensures After(s, ops[..k + 1]) == Next(After(s, ops[..k]), ops[k])
  {
    assert Front(ops[..k + 1]) == ops[..k];
  }

  method Apply(groups: Lists<int>, op: GroupOp)
    requires groups.Valid()
    modifies groups, groups.Repr
    ensures groups.Valid() && fresh(groups.Repr - old(groups.Repr))
    ensures groups.State() == Next(old(groups.State()), op)
  {
    match op {
      case CreateOp(name, ids) => var _ := CreateGroup(groups, name, ids);
      case AddOp(groupId, memberId) => var _ := AddMember(groups, groupId, memberId);
      case RemoveOp(groupId, memberId) => var _ := RemoveMember(groups, groupId, memberId);
      case ElsewhereOp(taken) => groups.nextID := groups.nextID + taken;
    }
  }

  // Whatever happens to the groups afterwards, a copy handed out earlier reads the same.
  method CopiesAreNotTouched(groups: Lists<int>, ops: seq<GroupOp>, copy: Slice<int>)
    requires groups.Valid() && Fits(copy) && copy.base !in groups.Repr
    modifies groups, groups.Repr
    ensures groups.Valid() && groups.State() == After(old(groups.State()), ops)
    ensures Elements(copy) == old(Elements(copy)) && copy.base !in groups.Repr
  {
    ghost var start := groups.State();
    assert ops[..0] == [];
    for k := 0 to |ops|
      invariant groups.Valid() && fresh(groups.Repr - old(groups.Repr))
      invariant groups.State() == After(start, ops[..k])
      invariant copy.base !in groups.Repr && copy.base[..] == old(copy.base[..])
    {
      OneMoreOp(start, ops, k);
      Apply(groups, ops[k]);
    }
    assert ops[..|ops|] == ops;
  }

  // ------------------------------------------------------------------------
  // The invariant.

  // Every group has an identifier of its own, and its members are positive and listed once.
  ghost predicate GoodGroups(s: Records<int>) {
    && 0 <= s.nextID
    && (forall i :: 0 <= i < |s.lists| ==> 0 < s.lists[i].id <= s.nextID && GoodMembers(s.lists[i].items))
    && (forall i, j :: 0 <= i < j < |s.lists| ==> s.lists[i].id < s.lists[j].id)
  }

  lemma RewrittenGood(s: Records<int>, i: nat, members: seq<int>)
    requires GoodGroups(s) && i < |s.lists| && GoodMembers(members)
    ensures GoodGroups(WithMembers(s, i, members).0)
  {
  }

  lemma NextKeepsGood(s: Records<int>, op: GroupOp)
    requires GoodGroups(s)
    ensures GoodGroups(Next(s, op))
  {
    match op
    case CreateOp(name, ids) => KeptIsGood(ids);
    case AddOp(groupId, memberId) =>
      var i := IndexOf(s.lists, groupId);
      if 0 < memberId && i < |s.lists| {
        AddedIsGood(s.lists[i].items, memberId);
        RewrittenGood(s, i, Added(s.lists[i].items, memberId));
      }
    case RemoveOp(groupId, memberId) =>
      var i := IndexOf(s.lists, groupId);
      if i < |s.lists| {
        RemovedIsGood(s.lists[i].items, memberId);
        RewrittenGood(s, i, Removed(s.lists[i].items, memberId));
      }
    case ElsewhereOp(_) =>
  }

  // In every reachable state of the store.
  lemma GroupsStayGood(nextID: nat, ops: seq<GroupOp>)
    ensures GoodGroups(After(Records(nextID, []), ops))
  {
    StaysGood(Records(nextID, []), ops);
  }

  // One operation puts in or takes out the member it names, and no other.
  lemma MembershipStep(s: Records<int>, op: GroupOp, i: nat, id: int)
    requires GoodGroups(s) && i < |s.lists|
    ensures |Next(s, op).lists| >= |s.lists| && Next(s, op).lists[i].id == s.lists[i].id
    ensures id in Next(s, op).lists[i].items <==>
              if op == AddOp(s.lists[i].id, id) && 0 < id then true
              else if op == RemoveOp(s.lists[i].id, id) && 0 < id then false
              else id in s.lists[i].items
  {
    match op
    case AddOp(groupId, memberId) =>
      if 0 < memberId && groupId == s.lists[i].id {
        AddedIsGood(s.lists[i].items, memberId);
      }
    case RemoveOp(groupId, memberId) =>
      if groupId == s.lists[i].id {
        RemovedIsGood(s.lists[i].items, memberId);
      }
    case _ =>
  }

  // The last accepted word of a history on whether a member is in a group.
  function LastWord(ops: seq<GroupOp>, groupId: int, id: int): Option<bool> {
    if ops == [] then None
    else if Last(ops) == AddOp(groupId, id) then Some(true)
    else if Last(ops) == RemoveOp(groupId, id) then Some(false)
    else LastWord(Front(ops), groupId, id)
  }

  lemma {:induction false} StaysGood(s: Records<int>, ops: seq<GroupOp>)
    requires GoodGroups(s)
    ensures GoodGroups(After(s, ops))
  {
    if ops != [] {
      StaysGood(s, Front(ops));
      NextKeepsGood(After(s, Front(ops)), Last(ops));
    }
  }

  // So after any history a member is in a group exactly when the last word on it was to add
  // it, or there was none and it was in before.
  lemma {:induction false} MembershipAfter(s: Records<int>, ops: seq<GroupOp>, i: nat, id: int)
    requires GoodGroups(s) && i < |s.lists| && 0 < id
    ensures i < |After(s, ops).lists| && After(s, ops).lists[i].id == s.lists[i].id
    ensures var word := LastWord(ops, s.lists[i].id, id);
            id in After(s, ops).lists[i].items <==> if word.Some? then word.value else id in s.lists[i].items
  {
    if ops != [] {
      MembershipAfter(s, Front(ops), i, id);
      StaysGood(s, Front(ops));
      MembershipStep(After(s, Front(ops)), Last(ops), i, id);
    }
  }

  // ------------------------------------------------------------------------
  // When the operations act, over the groups themselves.

  // Group k is the first with this identifier.
  ghost predicate IsGroup(s: Records<int>, id: int, k: int) {
    0 <= k < |s.lists| && s.lists[k].id == id && forall j :: 0 <= j < k ==> s.lists[j].id != id
  }

  lemma GroupIsFound(s: Records<int>, id: int)
    ensures forall k :: IsGroup(s, id, k) ==> IndexOf(s.lists, id) == k
    ensures (forall k :: !IsGroup(s, id, k)) ==> IndexOf(s.lists, id) == |s.lists|
  {
    var i := IndexOf(s.lists, id);
    assert i < |s.lists| ==> IsGroup(s, id, i);
  }

  // A group is created exactly when its name is not blank, behind the others and under the
  // next identifier.
  lemma CreatedExactlyWhen(s: Records<int>, name: string, ids: seq<int>)
    ensures var (next, r) := Created(s, name, ids);
            && (r.Ok? <==> !IsBlank(name)) && (r.Err? ==> next == s && r.error == Invalid)
            && (r.Ok? ==> next == Records(s.nextID + 1, s.lists + [Listed(s.nextID + 1, r.value)]))
            && (r.Ok? ==> GoodMembers(r.value) && forall x :: x in r.value <==> x in ids && 0 < x)
  {
    TrimsToNothing(name);
    KeptIsGood(ids);
  }

  // Adding and removing answer with the members of the group there is, and refuse identifiers
  // that are not positive and groups there are not, changing nothing.
  lemma MembersAnswered(s: Records<int>, groupId: int, memberId: int)
    ensures var positive := 0 < groupId && 0 < memberId;
            && (!positive ==> MemberAdded(s, groupId, memberId) == (s, Err(Invalid))
                              && MemberRemoved(s, groupId, memberId) == (s, Err(Invalid)))
            && (positive && (forall k :: !IsGroup(s, groupId, k)) ==>
                  && MemberAdded(s, groupId, memberId) == (s, Err(NotFound))
                  && MemberRemoved(s, groupId, memberId) == (s, Err(NotFound)))
            && (forall k :: positive && IsGroup(s, groupId, k) ==>
                  && var (added, a) := MemberAdded(s, groupId, memberId);
                  && var (removed, r) := MemberRemoved(s, groupId, memberId);
                  && a.Ok? && added == s.(lists := s.lists[k := Listed(groupId, a.value)])
                  && r.Ok? && removed == s.(lists := s.lists[k := Listed(groupId, r.value)]))
  {
    GroupIsFound(s, groupId);
  }
}
