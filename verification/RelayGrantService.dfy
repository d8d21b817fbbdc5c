// The relay grant service object, over its own map of records or over a store.
module RelayGrantService {
  import opened Wrappers
  import opened Clock
  import opened Text
  import opened RelayGrants
  import opened RelayGrantStore

  // A grant held by the map backend; validations and revocations write to it in place.
  class GrantRecord {
    const terms: Terms
    const createdAt: int
    var status: Status
    var usedAt: Option<int>

    constructor (terms: Terms, createdAt: int)
      ensures this.terms == terms && this.createdAt == createdAt && status == Issued && usedAt == None
    {
      this.terms := terms;
      this.createdAt := createdAt;
      status := Issued;
      usedAt := None;
    }

    // What cloneGrant copies.
    function Copy(): Grant
      reads this
    {
      Grant(terms, status, usedAt)
    }
  }

  class Service {
    const defaultTTL: int
    const store: MemoryGrants?
    var grants: map<string, GrantRecord>

    ghost predicate Valid()
      reads this, store, grants.Values
    {
      && (store != null ==> store.Valid() && grants == map[])
      && (forall id :: id in grants ==> grants[id].terms.grantId == id)
    }

    // The ledger the service stands for, on either backend.
    ghost function View(): Ledger
      reads this, store, grants.Values
    {
      if store != null then LedgerOf(store.relayGrants)
      else map id | id in grants :: grants[id].Copy()
    }

    // NewService followed, when a store is given, by WithStore.
    constructor (defaultTTL: int, store: MemoryGrants?)
      requires store != null ==> store.Valid()
      ensures Valid() && this.store == store && grants == map[]
      ensures this.defaultTTL == if defaultTTL == 0 then 2 * MINUTE else defaultTTL
      ensures View() == if store != null then LedgerOf(store.relayGrants) else map[]
    {
      this.defaultTTL := if defaultTTL == 0 then 2 * MINUTE else defaultTTL;
      this.store := store;
      grants := map[];
    }

    // `id` and `nonce` are what randomID returns, `now` and `storedAt` what the clock reads.
    method IssueWithContext(req: IssueRequest, id: string, nonce: string, now: int, storedAt: int)
      returns (reply: Result<IssueResponse, IssueError>)
      requires Valid()
      requires IsRandomID("rg", id) && IsRandomID("nonce", nonce) && 0 <= now
      modifies this, store
      ensures Valid() && fresh(grants.Values - old(grants.Values))
      ensures (View(), reply) == Issue(defaultTTL, old(View()), req, id, nonce, now)
    {
      if req.userId.None? && req.controllerDeviceId.None? && !req.authenticated {
        return Err(NoIdentity);
      }
      var target := TrimSpace(req.targetRustDeskId);
      if req.targetDeviceId.None? && target == "" {
        return Err(NoTarget);
      }
      if |req.allowedRelays| == 0 {
        return Err(NoRelays);
      }
      var ttl := defaultTTL;
      if req.ttlSeconds > 0 {
        ttl := WrapInt64(req.ttlSeconds * SECOND);
      }
      if ttl < MINUTE || ttl > 5 * MINUTE {
        return Err(TTLOutOfRange);
      }
      var terms := Terms(id, req.userId, req.controllerDeviceId, req.targetDeviceId, target,
                         req.relayId, req.allowedRelays, now + ttl, nonce);
      assert CheckIssue(defaultTTL, req) == None && terms == TermsOf(defaultTTL, req, id, nonce, now);
      var created := AddGrant(terms, now, storedAt);
      if created.None? {
        return Err(StoreRefused);
      }
      reply := Ok(IssueResponse(created.value.grantId, Sign(terms), created.value.expiresAt));
    }

    // The part of issuing that writes to the backend; a store may refuse the grant.
    method AddGrant(terms: Terms, now: int, storedAt: int) returns (created: Option<Terms>)
      requires Valid()
      requires IsRandomID("rg", terms.grantId) && IsRandomID("nonce", terms.nonce)
      requires 0 <= terms.expiresAt && |terms.allowedRelays| > 0 && Trimmed(terms.targetRustDeskId)
      modifies this, store
      ensures Valid() && fresh(grants.Values - old(grants.Values))
      ensures created == Some(terms) && View() == old(View())[terms.grantId := Grant(terms, Issued, None)]
    {
      RandomIDIsTrimmed("rg", terms.grantId);
      RandomIDIsTrimmed("nonce", terms.nonce);
      if store != null {
        var row := store.CreateRelayGrant(terms, Issued, None, storedAt);
        if row.None? {
          return None;
        }
        assert row.value.terms == terms;
        assert store.relayGrants[1..] == old(store.relayGrants);
        created := Some(row.value.terms);
      } else {
        var record := new GrantRecord(terms, now);
        grants := grants[terms.grantId := record];
        assert View() == old(View())[terms.grantId := record.Copy()];
        created := Some(record.terms);
      }
    }

    // The first locked half of a validation: a copy of the grant.
    method FindGrant(grantId: string) returns (found: Option<Grant>)
      requires Valid()
      ensures found == Lookup(View(), SearchKey(store != null, grantId))
    {
      if store != null {
        var row := store.FindRelayGrantByGrantID(grantId);
        LedgerFinds(store.relayGrants, TrimSpace(grantId));
        return if row.Some? then Some(GrantOf(row.value)) else None;
      }
      found := if grantId in grants then Some(grants[grantId].Copy()) else None;
    }

    // The second locked half.
    method UpdateGrantStatus(grant: Grant, status: Status, usedAt: Option<int>) returns (updated: Grant)
      requires Valid() && (store != null ==> Trimmed(grant.terms.grantId))
      modifies store, grants.Values
      ensures Valid() && grants == old(grants)
      ensures (View(), updated) == UpdateStatus(old(View()), grant, status, usedAt)
    {
      if store != null {
        ghost var rows := store.relayGrants;
        MarkRowMarksLedger(rows, grant.terms.grantId, status, usedAt);
        var row := store.UpdateRelayGrantStatus(grant.terms.grantId, status, usedAt);
        if row.Some? {
          return GrantOf(row.value);
        }
      }
      if grant.terms.grantId in grants {
        var stored := grants[grant.terms.grantId];
        stored.status := status;
        if usedAt.Some? {
          stored.usedAt := usedAt;
        }
        updated := stored.Copy();
        assert store == null ==> View() == old(View())[grant.terms.grantId := updated];
      } else {
        updated := grant.(status := status);
        if usedAt.Some? {
          updated := updated.(usedAt := usedAt);
        }
      }
    }

    // `checkedAt` and `markedAt` are the two clock readings.
    method ValidateWithContext(req: ValidateRequest, checkedAt: int, markedAt: int) returns (verdict: Verdict)
      requires Valid()
      modifies store, grants.Values
      ensures Valid() && grants == old(grants)
      ensures (View(), verdict) == ValidateBy(store != null, old(View()), req, checkedAt, markedAt)
      ensures Minted(req.token) ==> (View(), verdict) == Validate(old(View()), req, checkedAt, markedAt)
    {
      if Minted(req.token) {
        MintedKeysNeedNoTrimming(store != null, View(), req, checkedAt, markedAt);
      }
      var payload := Parse(req.token);
      if payload.None? {
        return Rejected("", None, InvalidRelayGrant, ErrInvalidToken);
      }
      var found := FindGrant(payload.value.grantId);
      ghost var before := View();
      assert ValidateBy(store != null, before, req, checkedAt, markedAt)
          == Finish(before, req, payload.value, found, checkedAt, markedAt);
      if found.None? {
        return Rejected(payload.value.grantId, None, UnknownRelayGrant, ErrInvalidToken);
      }
      var grant := found.value;
      if store != null {
        LedgerKeyed(store.relayGrants);
        LedgerTrimmed(store.relayGrants, grant.terms.grantId);
      }
      if grant.terms.nonce != payload.value.nonce {
        return Rejected(grant.terms.grantId, Some(grant.status), InvalidRelayGrant, ErrInvalidToken);
      }
      if grant.status == Revoked {
        return Rejected(grant.terms.grantId, Some(grant.status), RevokedRelayGrant, ErrRevoked);
      }
      if grant.status == Used {
        return Rejected(grant.terms.grantId, Some(grant.status), ReplayedRelayGrant, ErrInvalidToken);
      }
      if grant.status == Expired {
        return Rejected(grant.terms.grantId, Some(grant.status), ExpiredRelayGrant, ErrExpired);
      }
      if checkedAt > grant.terms.expiresAt {
        grant := UpdateGrantStatus(grant, Expired, None);
        return Rejected(grant.terms.grantId, Some(grant.status), ExpiredRelayGrant, ErrExpired);
      }
      if req.targetDeviceId.Some? && grant.terms.targetDeviceId.Some?
         && req.targetDeviceId.value != grant.terms.targetDeviceId.value {
        return Rejected(grant.terms.grantId, Some(grant.status), TargetDeviceMismatch, ErrInvalidToken);
      }
      if req.targetRustDeskId != "" && grant.terms.targetRustDeskId != ""
         && req.targetRustDeskId != grant.terms.targetRustDeskId {
        return Rejected(grant.terms.grantId, Some(grant.status), TargetDeviceMismatch, ErrInvalidToken);
      }
      if req.relay != "" {
        var allowed := Contains(grant.terms.allowedRelays, req.relay);
        if !allowed {
          return Rejected(grant.terms.grantId, Some(grant.status), RelayNotAllowed, ErrInvalidToken);
        }
      }
      grant := UpdateGrantStatus(grant, Used, Some(markedAt));
      verdict := Accepted(grant.terms.grantId, grant.status, grant.terms.expiresAt);
    }

    method RevokeWithContext(grantId: string) returns (revoked: bool)
      requires Valid()
      modifies store, grants.Values
      ensures Valid() && grants == old(grants)
      ensures (View(), revoked) == Revoke(old(View()), grantId)
    {
      var id := TrimSpace(grantId);
      if id == "" {
        return false;
      }
      if store != null {
        MarkRowMarksLedger(store.relayGrants, id, Revoked, None);
        var row := store.UpdateRelayGrantStatus(id, Revoked, None);
        return row.Some?;
      }
      if id !in grants {
        return false;
      }
      grants[id].status := Revoked;
      assert View() == old(View())[id := grants[id].Copy()];
      revoked := true;
    }
  }

  method Contains(values: seq<string>, want: string) returns (found: bool)
    ensures found <==> want in values
  {
    for i := 0 to |values|
      invariant want !in values[..i]
    {
      if values[i] == want {
        return true;
      }
    }
    found := false;
  }
}
