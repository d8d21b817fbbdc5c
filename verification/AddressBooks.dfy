// Address books: api/internal/repository/memory.go.
module AddressBooks {
  import opened Wrappers
  import opened Text
  import opened Slices
  import opened SharedLists

  datatype Entry = Entry(id: int, bookId: int, deviceId: int, alias: string, createdAt: int)

  // An entry as the caller gives it.
  datatype Draft = Draft(deviceId: int, alias: string)

  // ------------------------------------------------------------------------
  // What the operations do to the books, and the entries they answer with.

  // Each new entry takes the next identifier.
  function NumberedAt(drafts: seq<Draft>, i: nat, nextID: int, bookId: int, now: int): Entry
    requires i < |drafts|
  {
    Entry(nextID + i + 1, bookId, drafts[i].deviceId, TrimSpace(drafts[i].alias), now)
  }

  function Numbered(drafts: seq<Draft>, nextID: int, bookId: int, now: int): (r: seq<Entry>)
    ensures |r| == |drafts|
    ensures forall i :: 0 <= i < |r| ==> r[i] == NumberedAt(drafts, i, nextID, bookId, now)
  {
    seq(|drafts|, i requires 0 <= i < |drafts| => NumberedAt(drafts, i, nextID, bookId, now))
  }

  function Created(s: Records<Entry>, name: string, drafts: seq<Draft>, now: int)
    : (Records<Entry>, Result<seq<Entry>, Error>)
  {
    if TrimSpace(name) == "" || (exists i :: 0 <= i < |drafts| && drafts[i].deviceId <= 0) then (s, Err(Invalid))
    else
      var entries := Numbered(drafts, s.nextID + 1, s.nextID + 1, now);
      (Records(s.nextID + 1 + |drafts|, s.lists + [Listed(s.nextID + 1, entries)]), Ok(entries))
  }

  predicate HasDevice(entries: seq<Entry>, deviceId: int) {
    exists i :: 0 <= i < |entries| && entries[i].deviceId == deviceId
  }

  // A device the book lists already is refused.
  function EntryAdded(s: Records<Entry>, bookId: int, draft: Draft, now: int)
    : (Records<Entry>, Result<seq<Entry>, Error>)
  {
    var i := IndexOf(s.lists, bookId);
    if bookId <= 0 || draft.deviceId <= 0 then (s, Err(Invalid))
    else if i == |s.lists| then (s, Err(NotFound))
    else if HasDevice(s.lists[i].items, draft.deviceId) then (s, Err(Exists))
    else
      var entries := s.lists[i].items + [Entry(s.nextID + 1, bookId, draft.deviceId, TrimSpace(draft.alias), now)];
      (Records(s.nextID + 1, s.lists[i := Listed(bookId, entries)]), Ok(entries))
  }

  function IsEntry(entryId: int): Entry -> bool {
    (e: Entry) => e.id == entryId
  }

  // An absent entry is an error, and then nothing changes.
  function EntryRemoved(s: Records<Entry>, bookId: int, entryId: int): (Records<Entry>, Result<seq<Entry>, Error>) {
    var i := IndexOf(s.lists, bookId);
    if bookId <= 0 || entryId <= 0 then (s, Err(Invalid))
    else if i == |s.lists| || (forall k :: 0 <= k < |s.lists[i].items| ==> s.lists[i].items[k].id != entryId)
    then (s, Err(NotFound))
    else
      var kept := Without(s.lists[i].items, IsEntry(entryId));
      (s.(lists := s.lists[i := Listed(bookId, kept)]), Ok(kept))
  }

  method CreateBook(books: Lists<Entry>, name: string, drafts: seq<Draft>, now: int)
    returns (r: Result<Slice<Entry>, Error>)
    requires books.Valid()
    modifies books
    ensures books.Valid() && fresh(books.Repr - old(books.Repr))
    ensures books.State() == Created(old(books.State()), name, drafts, now).0
    ensures match Created(old(books.State()), name, drafts, now).1
            case Err(e) => r == Err(e)
            case Ok(entries) =>
              && r.Ok? && fresh(r.value.base) && r.value.base !in books.Repr
              && Fits(r.value) && Elements(r.value) == entries
  {
    if TrimSpace(name) == "" {
      return Err(Invalid);
    }
    var valid := HaveDevices(drafts);
    if !valid {
      return Err(Invalid);
    }
    var bookId := books.nextID + 1;
    var entries, last := Number(drafts, bookId, bookId, now);
    books.nextID := last;
    var copy := books.Create(bookId, entries);
    r := Ok(copy);
  }

  // Numbers the entries of a new book, one after the other.
  method Number(drafts: seq<Draft>, nextID: int, bookId: int, now: int) returns (entries: seq<Entry>, last: int)
    ensures entries == Numbered(drafts, nextID, bookId, now)
    ensures last == nextID + |drafts|
  {
    entries, last := [], nextID;
    for k := 0 to |drafts|
      invariant last == nextID + k && |entries| == k
      invariant forall j :: 0 <= j < k ==> entries[j] == NumberedAt(drafts, j, nextID, bookId, now)
    {
      last := last + 1;
      entries := entries + [Entry(last, bookId, drafts[k].deviceId, TrimSpace(drafts[k].alias), now)];
    }
  }

  method HaveDevices(drafts: seq<Draft>) returns (valid: bool)
    ensures valid <==> forall i :: 0 <= i < |drafts| ==> 0 < drafts[i].deviceId
  {
    for k := 0 to |drafts|
      invariant forall j :: 0 <= j < k ==> 0 < drafts[j].deviceId
    {
      if drafts[k].deviceId <= 0 {
        return false;
      }
    }
    valid := true;
  }

  method ListsDevice(items: Slice<Entry>, deviceId: int) returns (listed: bool)
    requires Fits(items)
    ensures listed == HasDevice(Elements(items), deviceId)
  {
    var entries := items.base[..items.len];
    for k := 0 to |entries|
      invariant forall j :: 0 <= j < k ==> entries[j].deviceId != deviceId
    {
      if entries[k].deviceId == deviceId {
        return true;
      }
    }
    listed := false;
  }

  method AddEntry(books: Lists<Entry>, bookId: int, draft: Draft, now: int) returns (r: Result<Slice<Entry>, Error>)
    requires books.Valid()
    modifies books, books.Repr
    ensures books.Valid() && fresh(books.Repr - old(books.Repr))
    ensures books.State() == EntryAdded(old(books.State()), bookId, draft, now).0
    ensures match EntryAdded(old(books.State()), bookId, draft, now).1
            case Err(e) => r == Err(e)
            case Ok(entries) =>
              && r.Ok? && fresh(r.value.base) && r.value.base !in books.Repr
              && Fits(r.value) && Elements(r.value) == entries
  {
    if bookId <= 0 || draft.deviceId <= 0 {
      return Err(Invalid);
    }
    var i := books.Find(bookId);
    if i == |books.owners| {
      return Err(NotFound);
    }
    var items := books.owners[i].items;
    var listed := ListsDevice(items, draft.deviceId);
    if listed {
      return Err(Exists);
    }
    items := AppendAt(books, i, Entry(books.nextID + 1, bookId, draft.deviceId, TrimSpace(draft.alias), now));
    var copy := Clone(items);
    r := Ok(copy);
  }

  // Appends a numbered entry to the book at this place and answers with its slice.
  method AppendAt(books: Lists<Entry>, i: nat, entry: Entry) returns (items: Slice<Entry>)
    requires books.Valid() && i < |books.owners| && entry.id == books.nextID + 1
    modifies books, books.Repr
    ensures books.Valid() && fresh(books.Repr - old(books.Repr)) && books.nextID == old(books.nextID) + 1
    ensures Fits(items) && Elements(items) == old(books.Contents)[i].items + [entry]
    ensures books.Contents == old(books.Contents)[i := Listed(old(books.Contents)[i].id, Elements(items))]
  {
    items := Append(books.owners[i].items, entry);
    books.nextID := entry.id;
    books.Put(i, items);
  }

  // Filtering an entry out changes the list exactly when it is there.
  lemma RemovalChanges(entries: seq<Entry>, entryId: int)
    ensures Without(entries, IsEntry(entryId)) == entries
            <==> forall k :: 0 <= k < |entries| ==> entries[k].id != entryId
  {
    WithoutKeeps(entries, IsEntry(entryId));
    assert forall k :: 0 <= k < |entries| ==> entries[k] in entries;
  }

  method RemoveEntry(books: Lists<Entry>, bookId: int, entryId: int) returns (r: Result<Slice<Entry>, Error>)
    requires books.Valid()
    modifies books, books.Repr
    ensures books.Valid() && books.Repr == old(books.Repr)
    ensures books.State() == EntryRemoved(old(books.State()), bookId, entryId).0
    ensures match EntryRemoved(old(books.State()), bookId, entryId).1
            case Err(e) => r == Err(e)
            case Ok(entries) =>
              && r.Ok? && fresh(r.value.base) && r.value.base !in books.Repr
              && Fits(r.value) && Elements(r.value) == entries
  {
    if bookId <= 0 || entryId <= 0 {
      return Err(Invalid);
    }
    ghost var i := IndexOf(books.Contents, bookId);
    if i < |books.Contents| {
      RemovalChanges(books.Contents[i].items, entryId);
    }
    var removed, copy := books.RemoveWhere(bookId, IsEntry(entryId));
    if copy.None? || !removed {
      assert books.Contents == old(books.Contents);
      return Err(NotFound);
    }
    r := Ok(copy.value);
  }

  // ------------------------------------------------------------------------
  // Whole runs.

  datatype BookOp =
    | CreateOp(name: string, drafts: seq<Draft>, createdAt: int)
    | AddOp(bookId: int, draft: Draft, addedAt: int)
    | RemoveOp(bookId: int, entryId: int)
    | ElsewhereOp(taken: nat)  // identifiers the rest of the store takes

  function Next(s: Records<Entry>, op: BookOp): Records<Entry> {
    match op
    case CreateOp(name, drafts, now) => Created(s, name, drafts, now).0
    case AddOp(bookId, draft, now) => EntryAdded(s, bookId, draft, now).0
    case RemoveOp(bookId, entryId) => EntryRemoved(s, bookId, entryId).0
    case ElsewhereOp(taken) => s.(nextID := s.nextID + taken)
  }

  function After(s: Records<Entry>, ops: seq<BookOp>): Records<Entry> {
    if ops == [] then s else Next(After(s, Front(ops)), Last(ops))
  }

  lemma OneMoreOp(s: Records<Entry>, ops: seq<BookOp>, k: nat)
    requires k < |ops|
    ensures After(s, ops[..k + 1]) == Next(After(s, ops[..k]), ops[k])
  {
    assert Front(ops[..k + 1]) == ops[..k];
  }

  method Apply(books: Lists<Entry>, op: BookOp)
    requires books.Valid()
    modifies books, books.Repr
    ensures books.Valid() && fresh(books.Repr - old(books.Repr))
    ensures books.State() == Next(old(books.State()), op)
  {
    match op {
      case CreateOp(name, drafts, now) => var _ := CreateBook(books, name, drafts, now);
      case AddOp(bookId, draft, now) => var _ := AddEntry(books, bookId, draft, now);
      case RemoveOp(bookId, entryId) => var _ := RemoveEntry(books, bookId, entryId);
      case ElsewhereOp(taken) => books.nextID := books.nextID + taken;
    }
  }

  // Whatever happens to the books afterwards, a copy handed out earlier reads the same.
  method CopiesAreNotTouched(books: Lists<Entry>, ops: seq<BookOp>, copy: Slice<Entry>)
    requires books.Valid() && Fits(copy) && copy.base !in books.Repr
    modifies books, books.Repr
    ensures books.Valid() && books.State() == After(old(books.State()), ops)
    ensures Elements(copy) == old(Elements(copy)) && copy.base !in books.Repr
  {
    ghost var start := books.State();
    assert ops[..0] == [];
    for k := 0 to |ops|
      invariant books.Valid() && fresh(books.Repr - old(books.Repr))
      invariant books.State() == After(start, ops[..k])
      invariant copy.base !in books.Repr && copy.base[..] == old(copy.base[..])
    {
      OneMoreOp(start, ops, k);
      Apply(books, ops[k]);
    }
    assert ops[..|ops|] == ops;
  }

  // ------------------------------------------------------------------------
  // The invariant.

  // Entries are listed in the order of their identifiers, none above the counter.
  ghost predicate InOrder(entries: seq<Entry>, nextID: int) {
    && (forall i :: 0 <= i < |entries| ==> entries[i].id <= nextID)
    && (forall i, j :: 0 <= i < j < |entries| ==> entries[i].id < entries[j].id)
  }

  ghost predicate GoodBooks(s: Records<Entry>) {
    forall i :: 0 <= i < |s.lists| ==> InOrder(s.lists[i].items, s.nextID)
  }

  lemma NumberedInOrder(drafts: seq<Draft>, nextID: int, bookId: int, now: int)
    ensures InOrder(Numbered(drafts, nextID, bookId, now), nextID + |drafts|)
  {
  }

  lemma OneMoreInOrder(entries: seq<Entry>, entry: Entry, nextID: int)
    requires InOrder(entries, nextID) && entry.id <= nextID
    requires forall i :: 0 <= i < |entries| ==> entries[i].id < entry.id
    ensures InOrder(entries + [entry], nextID)
  {
  }

  lemma {:induction false} WithoutInOrder(entries: seq<Entry>, drop: Entry -> bool, nextID: int)
    requires InOrder(entries, nextID)
    ensures InOrder(Without(entries, drop), nextID)
  {
    if entries != [] {
      var front, last := Front(entries), Last(entries);
      var kept := Without(front, drop);
      WithoutInOrder(front, drop, nextID);
      KeptStayBelow(front, drop, last.id);
      OneMoreInOrder(kept, last, nextID);
      assert Without(entries, drop) == if drop(last) then kept else kept + [last];
    }
  }

  lemma KeptStayBelow(entries: seq<Entry>, drop: Entry -> bool, bound: int)
    requires forall i :: 0 <= i < |entries| ==> entries[i].id < bound
    ensures forall i :: 0 <= i < |Without(entries, drop)| ==> Without(entries, drop)[i].id < bound
  {
    WithoutKeeps(entries, drop);
    forall i | 0 <= i < |Without(entries, drop)|
      ensures Without(entries, drop)[i].id < bound
    {
      assert Without(entries, drop)[i] in entries;
    }
  }

  // A step that gives one book entries in order, and no smaller counter.
  lemma RewrittenGood(s: Records<Entry>, s': Records<Entry>, i: nat)
    requires i < |s.lists| == |s'.lists| && s'.lists == s.lists[i := s'.lists[i]]
    requires GoodBooks(s) && s.nextID <= s'.nextID && InOrder(s'.lists[i].items, s'.nextID)
    ensures GoodBooks(s')
  {
    forall k | 0 <= k < |s'.lists|
      ensures InOrder(s'.lists[k].items, s'.nextID)
    {
      assert k != i ==> InOrder(s.lists[k].items, s.nextID);
    }
  }

  lemma NextKeepsGood(s: Records<Entry>, op: BookOp)
    requires GoodBooks(s)
    ensures GoodBooks(Next(s, op))
  {
    var s' := Next(s, op);
    match op
    case CreateOp(name, drafts, now) => NumberedInOrder(drafts, s.nextID + 1, s.nextID + 1, now);
    case AddOp(bookId, draft, now) =>
      if s' != s {
        var i := IndexOf(s.lists, bookId);
        OneMoreInOrder(s.lists[i].items, Last(s'.lists[i].items), s'.nextID);
        RewrittenGood(s, s', i);
      }
    case RemoveOp(bookId, entryId) =>
      if s' != s {
        var i := IndexOf(s.lists, bookId);
        WithoutInOrder(s.lists[i].items, IsEntry(entryId), s.nextID);
        RewrittenGood(s, s', i);
      }
    case ElsewhereOp(_) =>
  }

  lemma {:induction false} BooksStayGood(nextID: nat, ops: seq<BookOp>)
    ensures GoodBooks(After(Records(nextID, []), ops))
  {
    if ops != [] {
      BooksStayGood(nextID, Front(ops));
      NextKeepsGood(After(Records(nextID, []), Front(ops)), Last(ops));
    }
  }

  // So in every reachable state an accepted removal cuts out exactly one entry.
  lemma RemovalTakesOne(nextID: nat, ops: seq<BookOp>, bookId: int, entryId: int) returns (k: nat)
    requires EntryRemoved(After(Records(nextID, []), ops), bookId, entryId).1.Ok?
    ensures var s := After(Records(nextID, []), ops);
            var items := s.lists[IndexOf(s.lists, bookId)].items;
            && k < |items| && items[k].id == entryId
            && EntryRemoved(s, bookId, entryId).1 == Ok(items[..k] + items[k + 1..])
  {
    var s := After(Records(nextID, []), ops);
    BooksStayGood(nextID, ops);
    var items := s.lists[IndexOf(s.lists, bookId)].items;
    k :| 0 <= k < |items| && items[k].id == entryId;
    assert InOrder(items, s.nextID);
    DeletingIsFiltering(items, IsEntry(entryId), k);
  }

  // ------------------------------------------------------------------------
  // When the operations act, over the books themselves.

  // Book k is the first with this identifier.
  ghost predicate IsBook(s: Records<Entry>, id: int, k: int) {
    0 <= k < |s.lists| && s.lists[k].id == id && forall j :: 0 <= j < k ==> s.lists[j].id != id
  }

  lemma BookIsFound(s: Records<Entry>, id: int)
    ensures forall k :: IsBook(s, id, k) ==> IndexOf(s.lists, id) == k
    ensures (forall k :: !IsBook(s, id, k)) ==> IndexOf(s.lists, id) == |s.lists|
  {
    var i := IndexOf(s.lists, id);
    assert i < |s.lists| ==> IsBook(s, id, i);
  }

  // Some entry of the book is for this device.
  ghost predicate ListsAlready(entries: seq<Entry>, deviceId: int) {
    exists e :: e in entries && e.deviceId == deviceId
  }

  // A book is created exactly when its name is not blank and every entry is for a device;
  // entry i then takes the (i + 1)-th identifier after the book's.
  lemma CreatedExactlyWhen(s: Records<Entry>, name: string, drafts: seq<Draft>, now: int)
    ensures var (next, r) := Created(s, name, drafts, now);
            && (r.Ok? <==> !IsBlank(name) && forall d :: d in drafts ==> 0 < d.deviceId)
            && (r.Err? ==> next == s && r.error == Invalid)
            && (r.Ok? ==>
                  && next == Records(s.nextID + 1 + |drafts|, s.lists + [Listed(s.nextID + 1, r.value)])
                  && |r.value| == |drafts|
                  && forall i :: 0 <= i < |drafts| ==>
                       r.value[i] == Entry(s.nextID + 2 + i, s.nextID + 1, drafts[i].deviceId,
                                           TrimSpace(drafts[i].alias), now))
  {
    TrimsToNothing(name);
    assert forall i :: 0 <= i < |drafts| ==> drafts[i] in drafts;
  }

  // A device is listed exactly when the book is there and does not list it already; its entry
  // comes last.
  lemma AddedExactlyWhen(s: Records<Entry>, bookId: int, draft: Draft, now: int)
    ensures var (next, r) := EntryAdded(s, bookId, draft, now);
            var positive := 0 < bookId && 0 < draft.deviceId;
            && (r.Ok? <==>
                  positive && exists k :: IsBook(s, bookId, k) && !ListsAlready(s.lists[k].items, draft.deviceId))
            && (r.Err? ==>
                  && next == s
                  && (!positive ==> r.error == Invalid)
                  && (positive && (forall k :: !IsBook(s, bookId, k)) ==> r.error == NotFound)
                  && (positive && (exists k :: IsBook(s, bookId, k)) ==> r.error == Exists))
            && (forall k :: r.Ok? && IsBook(s, bookId, k) ==>
                  && r.value == s.lists[k].items
                                + [Entry(s.nextID + 1, bookId, draft.deviceId, TrimSpace(draft.alias), now)]
                  && next == Records(s.nextID + 1, s.lists[k := Listed(bookId, r.value)]))
  {
    BookIsFound(s, bookId);
    if k :| IsBook(s, bookId, k) {
      var items := s.lists[k].items;
      assert forall i :: 0 <= i < |items| ==> items[i] in items;
    }
  }

  ghost predicate HasEntry(entries: seq<Entry>, entryId: int) {
    exists e :: e in entries && e.id == entryId
  }

  lemma HasEntrySomewhere(entries: seq<Entry>, entryId: int)
    ensures HasEntry(entries, entryId) <==> exists k :: 0 <= k < |entries| && entries[k].id == entryId
  {
    assert forall k :: 0 <= k < |entries| ==> entries[k] in entries;
  }

  lemma RemovedFromBook(s: Records<Entry>, bookId: int, entryId: int, k: int)
    requires 0 < bookId && 0 < entryId && IsBook(s, bookId, k)
    ensures var (next, r) := EntryRemoved(s, bookId, entryId);
            if HasEntry(s.lists[k].items, entryId)
            then r.Ok? && next == s.(lists := s.lists[k := Listed(bookId, r.value)])
                 && forall e :: e in r.value <==> e in s.lists[k].items && e.id != entryId
            else next == s && r == Err(NotFound)
  {
    BookIsFound(s, bookId);
    HasEntrySomewhere(s.lists[k].items, entryId);
    WithoutKeeps(s.lists[k].items, IsEntry(entryId));
  }

  lemma RemovedFromNoBook(s: Records<Entry>, bookId: int, entryId: int)
    requires bookId <= 0 || entryId <= 0 || forall k :: !IsBook(s, bookId, k)
    ensures EntryRemoved(s, bookId, entryId) == (s, Err(if bookId <= 0 || entryId <= 0 then Invalid else NotFound))
  {
    BookIsFound(s, bookId);
  }

  // An entry is removed exactly when the book is there and has it.
  lemma RemovedExactlyWhen(s: Records<Entry>, bookId: int, entryId: int)
    ensures var (next, r) := EntryRemoved(s, bookId, entryId);
            var positive := 0 < bookId && 0 < entryId;
            && (r.Ok? <==> positive && exists k :: IsBook(s, bookId, k) && HasEntry(s.lists[k].items, entryId))
            && (r.Err? ==> next == s && r.error == if positive then NotFound else Invalid)
            && (forall k :: r.Ok? && IsBook(s, bookId, k) ==>
                  && next == s.(lists := s.lists[k := Listed(bookId, r.value)])
                  && forall e :: e in r.value <==> e in s.lists[k].items && e.id != entryId)
  {
    if 0 < bookId && 0 < entryId && exists k :: IsBook(s, bookId, k) {
      var k :| IsBook(s, bookId, k);
      RemovedFromBook(s, bookId, entryId, k);
      BookIsFound(s, bookId);
    } else {
      RemovedFromNoBook(s, bookId, entryId);
    }
  }
}
