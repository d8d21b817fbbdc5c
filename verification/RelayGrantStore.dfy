// The grant list of api/internal/repository/memory.go: newest first, first match wins.
module RelayGrantStore {
  import opened Wrappers
  import opened Text
  import opened Clock
  import opened RelayGrants

  datatype Row = Row(id: int, terms: Terms, createdAt: int, status: Status, usedAt: Option<int>)

  function GrantOf(row: Row): Grant {
    Grant(row.terms, row.status, row.usedAt)
  }

  // ------------------------------------------------------------------------
  // The ledger a list stands for.

  function LedgerOf(rows: seq<Row>): Ledger {
    if rows == [] then map[]
    else LedgerOf(rows[1..])[rows[0].terms.grantId := GrantOf(rows[0])]
  }

  // The first row for an identifier, or the length of the list.
  function FirstIndex(rows: seq<Row>, id: string): (i: nat)
    ensures i <= |rows|
    ensures i < |rows| ==> rows[i].terms.grantId == id
    ensures forall j :: 0 <= j < i ==> rows[j].terms.grantId != id
  {
    FirstWhere(rows, (row: Row) => row.terms.grantId == id)
  }

  lemma {:induction false} LedgerFinds(rows: seq<Row>, id: string)
    ensures Lookup(LedgerOf(rows), id)
            == if FirstIndex(rows, id) < |rows| then Some(GrantOf(rows[FirstIndex(rows, id)])) else None
  {
    if rows != [] {
      LedgerFinds(rows[1..], id);
    }
  }

  lemma {:induction false} LedgerKeyed(rows: seq<Row>)
    ensures Keyed(LedgerOf(rows))
  {
    if rows != [] {
      LedgerKeyed(rows[1..]);
    }
  }

  // Overwriting the first row for an identifier overwrites the ledger's entry, whatever
  // older rows for it lie behind.
  lemma {:induction false} LedgerUpdates(rows: seq<Row>, id: string, row: Row)
    requires FirstIndex(rows, id) < |rows| && row.terms.grantId == id
    ensures LedgerOf(rows[FirstIndex(rows, id) := row]) == LedgerOf(rows)[id := GrantOf(row)]
  {
    var i := FirstIndex(rows, id);
    if i == 0 {
      assert rows[0 := row][1..] == rows[1..];
    } else {
      LedgerUpdates(rows[1..], id, row);
      assert rows[i := row][1..] == rows[1..][i - 1 := row];
    }
  }

  // ------------------------------------------------------------------------
  // The operations on the list.

  function Insert(
        nextID: int, rows: seq<Row>, terms: Terms, status: Status, usedAt: Option<int>, now: int): Option<Row> {
    if TrimSpace(terms.grantId) == "" || TrimSpace(terms.nonce) == "" || terms.expiresAt == ZERO_TIME
       || |terms.allowedRelays| == 0
    then None
    else
      var trimmed := terms.(grantId := TrimSpace(terms.grantId),
                            targetRustDeskId := TrimSpace(terms.targetRustDeskId),
                            nonce := TrimSpace(terms.nonce));
      Some(Row(nextID + 1, trimmed, now, status, usedAt))
  }

  function FindRow(rows: seq<Row>, grantId: string): Option<Row> {
    var i := FirstIndex(rows, TrimSpace(grantId));
    if i < |rows| then Some(rows[i]) else None
  }

  function MarkRow(rows: seq<Row>, grantId: string, status: Status, usedAt: Option<int>): Option<(seq<Row>, Row)> {
    var i := FirstIndex(rows, TrimSpace(grantId));
    if i < |rows| then
      var row := rows[i].(status := status, usedAt := if usedAt.Some? then usedAt else rows[i].usedAt);
      Some((rows[i := row], row))
    else None
  }

  ghost predicate Clean(rows: seq<Row>) {
    forall i :: 0 <= i < |rows| ==> Trimmed(rows[i].terms.grantId)
  }

  lemma {:induction false} LedgerTrimmed(rows: seq<Row>, id: string)
    requires Clean(rows) && id in LedgerOf(rows)
    ensures Trimmed(id) && TrimSpace(id) == id
  {
    LedgerFinds(rows, id);
  }

  // Marking a row is marking the grant in the ledger.
  lemma MarkRowMarksLedger(rows: seq<Row>, grantId: string, status: Status, usedAt: Option<int>)
    ensures var id := TrimSpace(grantId);
            match MarkRow(rows, grantId, status, usedAt)
            case None => id !in LedgerOf(rows)
            case Some((next, row)) =>
              && id in LedgerOf(rows)
              && GrantOf(row) == Marked(LedgerOf(rows)[id], status, usedAt)
              && LedgerOf(next) == LedgerOf(rows)[id := GrantOf(row)]
              && row.terms.grantId == id
              && (Clean(rows) ==> Clean(next))
  {
    var id := TrimSpace(grantId);
    LedgerFinds(rows, id);
    var i := FirstIndex(rows, id);
    if i < |rows| {
      LedgerUpdates(rows, id, rows[i].(status := status, usedAt := if usedAt.Some? then usedAt else rows[i].usedAt));
    }
  }

  // ------------------------------------------------------------------------
  // The store object.

  class MemoryGrants {
    var nextID: int
    var relayGrants: seq<Row>

    ghost predicate Valid()
      reads this
    {
      Clean(relayGrants)
    }

    constructor (nextID: int)
      ensures Valid() && this.nextID == nextID && relayGrants == []
    {
      this.nextID := nextID;
      relayGrants := [];
    }

    method CreateRelayGrant(terms: Terms, status: Status, usedAt: Option<int>, now: int) returns (created: Option<Row>)
      requires Valid()
      modifies this
      ensures Valid()
      ensures created == Insert(old(nextID), old(relayGrants), terms, status, usedAt, now)
      ensures created.None? ==> nextID == old(nextID) && relayGrants == old(relayGrants)
      ensures created.Some? ==> nextID == old(nextID) + 1 && relayGrants == [created.value] + old(relayGrants)
    {
      var grantId, nonce := TrimSpace(terms.grantId), TrimSpace(terms.nonce);
      if grantId == "" || nonce == "" || terms.expiresAt == ZERO_TIME || |terms.allowedRelays| == 0 {
        return None;
      }
      nextID := nextID + 1;
      var target := TrimSpace(terms.targetRustDeskId);
      var row := Row(nextID, terms.(grantId := grantId, targetRustDeskId := target, nonce := nonce),
                     now, status, usedAt);
      relayGrants := [row] + relayGrants;
      created := Some(row);
    }

    method FindRelayGrantByGrantID(grantId: string) returns (found: Option<Row>)
      requires Valid()
      ensures found == FindRow(relayGrants, grantId)
    {
      var id := TrimSpace(grantId);
      for i := 0 to |relayGrants|
        invariant i <= FirstIndex(relayGrants, id)
      {
        if relayGrants[i].terms.grantId == id {
          return Some(relayGrants[i]);
        }
      }
      found := None;
    }

    method UpdateRelayGrantStatus(grantId: string, status: Status, usedAt: Option<int>) returns (updated: Option<Row>)
      requires Valid()
      modifies this`relayGrants
      ensures Valid()
      ensures match MarkRow(old(relayGrants), grantId, status, usedAt)
              case None => updated == None && relayGrants == old(relayGrants)
              case Some((rows, row)) => updated == Some(row) && relayGrants == rows
    {
      var id := TrimSpace(grantId);
      for i := 0 to |relayGrants|
        invariant i <= FirstIndex(relayGrants, id) && relayGrants == old(relayGrants)
      {
        if relayGrants[i].terms.grantId == id {
          var row := relayGrants[i].(status := status);
          if usedAt.Some? {
            row := row.(usedAt := usedAt);
          }
          relayGrants := relayGrants[i := row];
          return Some(row);
        }
      }
      updated := None;
    }
  }

  // A grant is stored exactly when it has an identifier, a nonce, an expiry and a relay; its
  // three texts are trimmed and the rest is kept.
  lemma StoredExactlyWhen(nextID: int, rows: seq<Row>, terms: Terms, status: Status, usedAt: Option<int>, now: int)
    ensures var row := Insert(nextID, rows, terms, status, usedAt, now);
            && (row.Some? <==> !IsBlank(terms.grantId) && !IsBlank(terms.nonce) && terms.expiresAt != ZERO_TIME
                               && terms.allowedRelays != [])
            && (row.Some? ==>
                  && row.value.id == nextID + 1 && row.value.createdAt == now
                  && row.value.status == status && row.value.usedAt == usedAt
                  && var kept := row.value.terms;
                  && kept.grantId == TrimSpace(terms.grantId) && kept.nonce == TrimSpace(terms.nonce)
                  && kept.targetRustDeskId == TrimSpace(terms.targetRustDeskId)
                  && kept.userId == terms.userId && kept.controllerDeviceId == terms.controllerDeviceId
                  && kept.targetDeviceId == terms.targetDeviceId && kept.relayId == terms.relayId
                  && kept.allowedRelays == terms.allowedRelays && kept.expiresAt == terms.expiresAt)
  {
    TrimsToNothing(terms.grantId);
    TrimsToNothing(terms.nonce);
  }
}
