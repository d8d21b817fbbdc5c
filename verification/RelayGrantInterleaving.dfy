// Validations split into their two locked halves, interleaved with one another, with
// issuing and with revoking in any way.
module RelayGrantInterleaving {
  import opened Wrappers
  import opened Clock
  import opened Text
  import opened RelayGrants

  // A validation between its halves: the request, its payload and the copy it found.
  datatype Pending = Pending(req: ValidateRequest, payload: Terms, found: Option<Grant>)

  datatype System = System(ledger: Ledger, pending: map<nat, Pending>)

  // Validations are numbered; a number names one call from its lookup to its finish.
  datatype Step =
    | IssueStep(issue: IssueRequest, id: string, nonce: string, now: int, storedAt: int)
    | LookupStep(call: nat, req: ValidateRequest)
    | FinishStep(call: nat, checkedAt: int, markedAt: int)
    | RevokeStep(grantId: string)

  function Next(defaultTTL: int, s: System, step: Step): System {
    match step
    case IssueStep(req, id, nonce, now, _) => s.(ledger := Issue(defaultTTL, s.ledger, req, id, nonce, now).0)
    case LookupStep(call, req) =>
      if Parse(req.token).None? then s
      else
        var payload := Parse(req.token).value;
        s.(pending := s.pending[call := Pending(req, payload, Lookup(s.ledger, payload.grantId))])
    case FinishStep(call, checkedAt, markedAt) =>
      if call !in s.pending then s
      else
        var p := s.pending[call];
        System(Finish(s.ledger, p.req, p.payload, p.found, checkedAt, markedAt).0, s.pending - {call})
    case RevokeStep(grantId) => s.(ledger := Revoke(s.ledger, grantId).0)
  }

  function After(defaultTTL: int, trace: seq<Step>): System {
    if trace == [] then System(map[], map[]) else Next(defaultTTL, After(defaultTTL, Front(trace)), Last(trace))
  }

  // The system before step n of the trace, or after all of it.
  function At(defaultTTL: int, trace: seq<Step>, n: nat): System
    requires n <= |trace|
  {
    After(defaultTTL, trace[..n])
  }

  ghost predicate FreshIds(trace: seq<Step>) {
    forall i, j :: 0 <= i < j < |trace| && trace[i].IssueStep? && trace[j].IssueStep? ==> trace[i].id != trace[j].id
  }

  ghost predicate OneLookupEach(trace: seq<Step>) {
    forall i, j :: 0 <= i < j < |trace| && trace[i].LookupStep? && trace[j].LookupStep? ==>
        trace[i].call != trace[j].call
  }

  // The step finishes a validation and accepts it for this grant.
  predicate Accepts(s: System, step: Step, id: string) {
    && step.FinishStep? && step.call in s.pending
    && var p := s.pending[step.call];
    && var verdict := Finish(s.ledger, p.req, p.payload, p.found, step.checkedAt, step.markedAt).1;
    && verdict.Accepted? && verdict.grantId == id
  }

  predicate Revokes(s: System, step: Step, id: string) {
    step.RevokeStep? && TrimSpace(step.grantId) == id && Revoke(s.ledger, step.grantId).1
  }

  // The step finishes a validation that finds this grant out of time.
  predicate Lapses(s: System, step: Step, id: string) {
    && step.FinishStep? && step.call in s.pending
    && var p := s.pending[step.call];
    && p.payload.grantId == id && p.found.Some?
    && Decide(p.req, p.payload, p.found.value, step.checkedAt) == Lapse
  }

  predicate AcceptsAt(defaultTTL: int, trace: seq<Step>, n: nat, id: string)
    requires n < |trace|
  {
    Accepts(At(defaultTTL, trace, n), trace[n], id)
  }

  predicate RevokesAt(defaultTTL: int, trace: seq<Step>, n: nat, id: string)
    requires n < |trace|
  {
    Revokes(At(defaultTTL, trace, n), trace[n], id)
  }

  // The step accepts the grant, revokes it or finds it out of time.
  predicate Spends(s: System, step: Step, id: string) {
    Accepts(s, step, id) || Revokes(s, step, id) || Lapses(s, step, id)
  }

  predicate SpendsAt(defaultTTL: int, trace: seq<Step>, n: nat, id: string)
    requires n < |trace|
  {
    Spends(At(defaultTTL, trace, n), trace[n], id)
  }

  // Step n issues this grant.
  predicate IssuesAt(defaultTTL: int, trace: seq<Step>, n: nat, id: string)
    requires n < |trace|
  {
    trace[n].IssueStep? && trace[n].id == id && CheckIssue(defaultTTL, trace[n].issue) == None
  }

  // ------------------------------------------------------------------------
  // One step at a time.

  lemma AtNext(defaultTTL: int, trace: seq<Step>, n: nat)
    requires n < |trace|
    ensures At(defaultTTL, trace, n + 1) == Next(defaultTTL, At(defaultTTL, trace, n), trace[n])
  {
    assert Front(trace[..n + 1]) == trace[..n];
  }

  // Stored grants and the copies in flight carry the identifier they are found under, and
  // what is in flight is stored.
  ghost predicate Consistent(s: System) {
    && Keyed(s.ledger)
    && forall c :: c in s.pending && s.pending[c].found.Some? ==>
         && s.pending[c].found.value.terms.grantId == s.pending[c].payload.grantId
         && s.pending[c].payload.grantId in s.ledger
  }

  lemma NextConsistent(defaultTTL: int, s: System, step: Step)
    requires Consistent(s)
    ensures Consistent(Next(defaultTTL, s, step))
  {
  }

  lemma {:induction false} AlwaysConsistent(defaultTTL: int, trace: seq<Step>, n: nat)
    requires n <= |trace|
    ensures Consistent(At(defaultTTL, trace, n))
  {
    if n > 0 {
      AlwaysConsistent(defaultTTL, trace, n - 1);
      AtNext(defaultTTL, trace, n - 1);
      NextConsistent(defaultTTL, At(defaultTTL, trace, n - 1), trace[n - 1]);
    }
  }

  predicate Spent(s: System, id: string) {
    id in s.ledger && s.ledger[id].status != Issued
  }

  // Nothing but issuing makes a grant issued.
  lemma NextNeverReissues(defaultTTL: int, s: System, step: Step, next: System, id: string)
    requires Consistent(s) && Spent(s, id) && next == Next(defaultTTL, s, step)
    requires step.IssueStep? ==> step.id != id
    ensures Spent(next, id)
  {
  }

  lemma NextAdds(defaultTTL: int, s: System, step: Step, id: string)
    requires id in Next(defaultTTL, s, step).ledger && id !in s.ledger
    ensures step.IssueStep? && step.id == id
  {
  }

  lemma {:induction false} StoredWasIssued(defaultTTL: int, trace: seq<Step>, n: nat, id: string)
    requires n <= |trace| && id in At(defaultTTL, trace, n).ledger
    ensures exists k :: 0 <= k < n && trace[k].IssueStep? && trace[k].id == id
  {
    if n > 0 {
      AtNext(defaultTTL, trace, n - 1);
      if id in At(defaultTTL, trace, n - 1).ledger {
        StoredWasIssued(defaultTTL, trace, n - 1, id);
      } else {
        NextAdds(defaultTTL, At(defaultTTL, trace, n - 1), trace[n - 1], id);
      }
    }
  }

  lemma NotIssuedAgain(defaultTTL: int, trace: seq<Step>, i: nat, j: nat, id: string)
    requires FreshIds(trace) && i <= j < |trace| && id in At(defaultTTL, trace, i).ledger
    ensures trace[j].IssueStep? ==> trace[j].id != id
  {
    StoredWasIssued(defaultTTL, trace, i, id);
  }

  // Whatever is interleaved with whatever, a status that has left "issued" never returns.
  lemma {:induction false} NeverReissued(defaultTTL: int, trace: seq<Step>, i: nat, j: nat, id: string)
    requires FreshIds(trace) && i <= j <= |trace| && Spent(At(defaultTTL, trace, i), id)
    ensures Spent(At(defaultTTL, trace, j), id)
    decreases j
  {
    if i < j {
      NeverReissued(defaultTTL, trace, i, j - 1, id);
      NotIssuedAgain(defaultTTL, trace, i, j - 1, id);
      SpentStays(defaultTTL, trace, j - 1, id);
    }
  }

  lemma SpentStays(defaultTTL: int, trace: seq<Step>, n: nat, id: string)
    requires n < |trace| && Spent(At(defaultTTL, trace, n), id)
    requires trace[n].IssueStep? ==> trace[n].id != id
    ensures Spent(At(defaultTTL, trace, n + 1), id)
  {
    AlwaysConsistent(defaultTTL, trace, n);
    AtNext(defaultTTL, trace, n);
    NextNeverReissues(defaultTTL, At(defaultTTL, trace, n), trace[n], At(defaultTTL, trace, n + 1), id);
  }

  // ------------------------------------------------------------------------
  // A finish decides on what its lookup saw.

  // Step l is the lookup of this call and found what is pending.
  ghost predicate LookedUpAt(defaultTTL: int, trace: seq<Step>, l: nat, call: nat, p: Pending)
    requires l < |trace|
  {
    && trace[l] == LookupStep(call, p.req)
    && Parse(p.req.token) == Some(p.payload)
    && p.found == Lookup(At(defaultTTL, trace, l).ledger, p.payload.grantId)
  }

  lemma {:induction false} PendingWasLookedUp(defaultTTL: int, trace: seq<Step>, n: nat, call: nat)
    requires n <= |trace| && call in At(defaultTTL, trace, n).pending
    ensures exists l :: 0 <= l < n && LookedUpAt(defaultTTL, trace, l, call, At(defaultTTL, trace, n).pending[call])
  {
    if n > 0 {
      AtNext(defaultTTL, trace, n - 1);
      var s, step := At(defaultTTL, trace, n - 1), trace[n - 1];
      if step.LookupStep? && step.call == call && Parse(step.req.token).Some? {
        assert LookedUpAt(defaultTTL, trace, n - 1, call, At(defaultTTL, trace, n).pending[call]);
      } else {
        PendingWasLookedUp(defaultTTL, trace, n - 1, call);
      }
    }
  }

  // A finished validation is accepted exactly when the grant its lookup saw, at that
  // earlier moment, was still issued and fits the request.
  lemma AcceptanceIsDecidedByTheLookup(defaultTTL: int, trace: seq<Step>, l: nat, n: nat, p: Pending)
    requires l < n < |trace| && trace[n].FinishStep?
    requires trace[n].call in At(defaultTTL, trace, n).pending && At(defaultTTL, trace, n).pending[trace[n].call] == p
    requires LookedUpAt(defaultTTL, trace, l, trace[n].call, p)
    ensures var seen := At(defaultTTL, trace, l).ledger;
            var id := p.payload.grantId;
            AcceptsAt(defaultTTL, trace, n, id) <==>
              && id in seen && seen[id].status == Issued && seen[id].terms.nonce == p.payload.nonce
              && trace[n].checkedAt <= seen[id].terms.expiresAt
              && TargetAgrees(p.req, seen[id].terms) && RelayAllowed(p.req, seen[id].terms)
  {
    AlwaysConsistent(defaultTTL, trace, n);
    AlwaysConsistent(defaultTTL, trace, l);
  }

  lemma NextKeepsStored(defaultTTL: int, s: System, step: Step, next: System, id: string)
    requires id in s.ledger && next == Next(defaultTTL, s, step)
    ensures id in next.ledger
  {
  }

  // Grants are never removed.
  lemma {:induction false} StoredStays(defaultTTL: int, trace: seq<Step>, i: nat, j: nat, id: string)
    requires i <= j <= |trace| && id in At(defaultTTL, trace, i).ledger
    ensures id in At(defaultTTL, trace, j).ledger
    decreases j
  {
    if i < j {
      StoredStays(defaultTTL, trace, i, j - 1, id);
      StoredStep(defaultTTL, trace, j - 1, id);
    }
  }

  lemma StoredStep(defaultTTL: int, trace: seq<Step>, n: nat, id: string)
    requires n < |trace| && id in At(defaultTTL, trace, n).ledger
    ensures id in At(defaultTTL, trace, n + 1).ledger
  {
    AtNext(defaultTTL, trace, n);
    NextKeepsStored(defaultTTL, At(defaultTTL, trace, n), trace[n], At(defaultTTL, trace, n + 1), id);
  }

  // An acceptance names the grant of the payload and was decided on a copy of it.
  lemma AcceptedFinish(ledger: Ledger, p: Pending, checkedAt: int, markedAt: int, id: string)
    requires Keyed(ledger) && (p.found.Some? ==> p.found.value.terms.grantId == p.payload.grantId)
    requires var verdict := Finish(ledger, p.req, p.payload, p.found, checkedAt, markedAt).1;
             verdict.Accepted? && verdict.grantId == id
    ensures p.payload.grantId == id
    ensures id in ledger ==>
              var after := Finish(ledger, p.req, p.payload, p.found, checkedAt, markedAt).0;
              id in after && after[id].status == Used
  {
  }

  // An accepting finish leaves the grant used, and its lookup saw it issued.
  lemma AcceptanceMarksUsed(defaultTTL: int, trace: seq<Step>, n: nat, id: string)
    requires n < |trace| && AcceptsAt(defaultTTL, trace, n, id)
    ensures exists l :: 0 <= l < n && trace[l].LookupStep? && trace[l].call == trace[n].call
                        && id in At(defaultTTL, trace, l).ledger && At(defaultTTL, trace, l).ledger[id].status == Issued
    ensures var after := At(defaultTTL, trace, n + 1).ledger; id in after && after[id].status == Used
  {
    var s, step := At(defaultTTL, trace, n), trace[n];
    var p := s.pending[step.call];
    AlwaysConsistent(defaultTTL, trace, n);
    AcceptedFinish(s.ledger, p, step.checkedAt, step.markedAt, id);
    PendingWasLookedUp(defaultTTL, trace, n, step.call);
    var l :| 0 <= l < n && LookedUpAt(defaultTTL, trace, l, step.call, p);
    AcceptanceIsDecidedByTheLookup(defaultTTL, trace, l, n, p);
    StoredStays(defaultTTL, trace, l, n, id);
    AtNext(defaultTTL, trace, n);
  }

  lemma SpendingIsSpent(defaultTTL: int, trace: seq<Step>, n: nat, id: string)
    requires n < |trace| && (AcceptsAt(defaultTTL, trace, n, id) || RevokesAt(defaultTTL, trace, n, id))
    ensures Spent(At(defaultTTL, trace, n + 1), id)
  {
    if AcceptsAt(defaultTTL, trace, n, id) {
      AcceptanceMarksUsed(defaultTTL, trace, n, id);
    } else {
      AtNext(defaultTTL, trace, n);
    }
  }

  // Once a grant has been accepted or revoked, only a validation that had already looked
  // it up can still be accepted.
  lemma SpentGrantIsRefusedToLaterLookups(defaultTTL: int, trace: seq<Step>, i: nat, j: nat, id: string)
    requires FreshIds(trace) && OneLookupEach(trace) && i < j < |trace|
    requires AcceptsAt(defaultTTL, trace, i, id) || RevokesAt(defaultTTL, trace, i, id)
    requires AcceptsAt(defaultTTL, trace, j, id)
    ensures exists l :: 0 <= l < i && trace[l].LookupStep? && trace[l].call == trace[j].call
  {
    AcceptanceMarksUsed(defaultTTL, trace, j, id);
    var l :| 0 <= l < j && trace[l].LookupStep? && trace[l].call == trace[j].call
      && id in At(defaultTTL, trace, l).ledger && At(defaultTTL, trace, l).ledger[id].status == Issued;
    SpendingIsSpent(defaultTTL, trace, i, id);
    if i < l {
      NeverReissued(defaultTTL, trace, i + 1, l, id);
    }
  }

  // Two accepted validations of one grant overlap: each looked up before either finished.
  lemma AcceptedValidationsOverlap(defaultTTL: int, trace: seq<Step>, i: nat, j: nat, id: string)
    requires FreshIds(trace) && OneLookupEach(trace) && i < j < |trace|
    requires AcceptsAt(defaultTTL, trace, i, id) && AcceptsAt(defaultTTL, trace, j, id)
    ensures exists l, k :: 0 <= l < i && 0 <= k < i && l != k
              && trace[l].LookupStep? && trace[l].call == trace[j].call
              && trace[k].LookupStep? && trace[k].call == trace[i].call
  {
    SpentGrantIsRefusedToLaterLookups(defaultTTL, trace, i, j, id);
    AcceptanceMarksUsed(defaultTTL, trace, i, id);
    var l :| 0 <= l < i && trace[l].LookupStep? && trace[l].call == trace[j].call;
    var k :| 0 <= k < i && trace[k].LookupStep? && trace[k].call == trace[i].call;
    if l == k {
      FinishedCallsAreGone(defaultTTL, trace, i, j, l);
    }
  }

  // Only its lookup makes a call pending, and its finish ends that.
  lemma NextPending(defaultTTL: int, s: System, step: Step, call: nat)
    requires call in Next(defaultTTL, s, step).pending
    ensures !(step.FinishStep? && step.call == call)
    ensures call in s.pending || (step.LookupStep? && step.call == call)
  {
  }

  // A finished call is not pending again.
  lemma {:induction false} FinishedCallsAreGone(defaultTTL: int, trace: seq<Step>, i: nat, j: nat, l: nat)
    requires OneLookupEach(trace) && l < i < j <= |trace|
    requires trace[i].FinishStep? && trace[l].LookupStep? && trace[l].call == trace[i].call
    ensures trace[i].call !in At(defaultTTL, trace, j).pending
    decreases j
  {
    AtNext(defaultTTL, trace, j - 1);
    if i < j - 1 {
      FinishedCallsAreGone(defaultTTL, trace, i, j - 1, l);
    }
    if trace[i].call in At(defaultTTL, trace, j).pending {
      NextPending(defaultTTL, At(defaultTTL, trace, j - 1), trace[j - 1], trace[i].call);
    }
  }

  // A lookup and its finish with nothing between them are the atomic validation.
  lemma AdjacentHalvesAreAtomic(
        defaultTTL: int, s: System, call: nat, req: ValidateRequest, checkedAt: int, markedAt: int)
    requires call !in s.pending && Parse(req.token).Some?
    ensures var between := Next(defaultTTL, s, LookupStep(call, req));
            var after := Next(defaultTTL, between, FinishStep(call, checkedAt, markedAt));
            var p := between.pending[call];
            && after.pending == s.pending
            && (after.ledger, Finish(between.ledger, p.req, p.payload, p.found, checkedAt, markedAt).1)
               == Validate(s.ledger, req, checkedAt, markedAt)
  {
    var between := Next(defaultTTL, s, LookupStep(call, req));
    assert between.pending - {call} == s.pending;
  }

  // Calls are atomic when every finish directly follows its own lookup.
  ghost predicate Serial(trace: seq<Step>) {
    forall n :: 0 <= n < |trace| && trace[n].FinishStep? ==>
      n > 0 && trace[n - 1].LookupStep? && trace[n - 1].call == trace[n].call
  }

  // With atomic calls a grant is accepted at most once, and never after it was revoked.
  lemma SerialAcceptsAtMostOnce(defaultTTL: int, trace: seq<Step>, i: nat, j: nat, id: string)
    requires FreshIds(trace) && OneLookupEach(trace) && Serial(trace) && i < j < |trace|
    requires AcceptsAt(defaultTTL, trace, i, id) || RevokesAt(defaultTTL, trace, i, id)
    ensures !AcceptsAt(defaultTTL, trace, j, id)
  {
    if AcceptsAt(defaultTTL, trace, j, id) {
      SpentGrantIsRefusedToLaterLookups(defaultTTL, trace, i, j, id);
    }
  }

  // Without that, two overlapping validations of one grant are both accepted, even with a
  // revocation before either finishes.
  lemma OverlappingValidationsBothAccepted(issue: IssueRequest, id: string, nonce: string)
    requires CheckIssue(2 * MINUTE, issue) == None
    requires IsRandomID("rg", id) && IsRandomID("nonce", nonce)
    ensures exists trace: seq<Step> ::
              && FreshIds(trace) && OneLookupEach(trace) && |trace| == 6
              && RevokesAt(2 * MINUTE, trace, 3, id)
              && AcceptsAt(2 * MINUTE, trace, 4, id) && AcceptsAt(2 * MINUTE, trace, 5, id)
  {
    var terms := TermsOf(2 * MINUTE, issue, id, nonce, 0);
    var req := ValidateRequest(Sign(terms), "", None, "");
    var trace := [IssueStep(issue, id, nonce, 0, 0), LookupStep(0, req), LookupStep(1, req), RevokeStep(id),
                  FinishStep(0, 0, 0), FinishStep(1, 0, 0)];
    OverlapStates(issue, id, nonce, terms, req, trace);
    OverlapIsWellFormed(issue, id, nonce, req, trace);
  }

  lemma OverlapIsWellFormed(issue: IssueRequest, id: string, nonce: string, req: ValidateRequest, trace: seq<Step>)
    requires trace == [IssueStep(issue, id, nonce, 0, 0), LookupStep(0, req), LookupStep(1, req), RevokeStep(id),
                       FinishStep(0, 0, 0), FinishStep(1, 0, 0)]
    ensures FreshIds(trace) && OneLookupEach(trace)
  {
  }

  lemma OverlapStates(
        issue: IssueRequest, id: string, nonce: string, terms: Terms, req: ValidateRequest, trace: seq<Step>)
    requires CheckIssue(2 * MINUTE, issue) == None
    requires IsRandomID("rg", id) && IsRandomID("nonce", nonce)
    requires terms == TermsOf(2 * MINUTE, issue, id, nonce, 0) && req == ValidateRequest(Sign(terms), "", None, "")
    requires trace == [IssueStep(issue, id, nonce, 0, 0), LookupStep(0, req), LookupStep(1, req), RevokeStep(id),
                       FinishStep(0, 0, 0), FinishStep(1, 0, 0)]
    ensures RevokesAt(2 * MINUTE, trace, 3, id)
    ensures AcceptsAt(2 * MINUTE, trace, 4, id) && AcceptsAt(2 * MINUTE, trace, 5, id)
  {
    var ttl, issued := 2 * MINUTE, Grant(terms, Issued, None);
    var seen := Pending(req, req.token.payload, Some(issued));
    TokenIsAdmitted(issue, id, nonce, terms, req);
    FirstLookups(issue, id, nonce, terms, req, trace, seen);
    var s3 := System(map[id := issued], map[0 := seen, 1 := seen]);
    var s4 := s3.(ledger := map[id := issued.(status := Revoked)]);
    RevokesTheOnly(s3, s4, id, issued);
    AtNext(ttl, trace, 3);
    BothAdmitted(s4, At(ttl, trace, 5), id, seen);
    AtNext(ttl, trace, 4);
  }

  lemma TokenIsAdmitted(issue: IssueRequest, id: string, nonce: string, terms: Terms, req: ValidateRequest)
    requires CheckIssue(2 * MINUTE, issue) == None
    requires IsRandomID("rg", id) && IsRandomID("nonce", nonce)
    requires terms == TermsOf(2 * MINUTE, issue, id, nonce, 0) && req == ValidateRequest(Sign(terms), "", None, "")
    ensures id != "" && TrimSpace(id) == id && Parse(req.token) == Some(req.token.payload)
    ensures Decide(req, req.token.payload, Grant(terms, Issued, None), 0) == Admit
  {
    RandomIDIsTrimmed("rg", id);
    RandomIDIsTrimmed("nonce", nonce);
  }

  lemma RevokesTheOnly(s: System, next: System, id: string, grant: Grant)
    requires next == s.(ledger := map[id := grant.(status := Revoked)])
    requires s.ledger == map[id := grant] && grant.terms.grantId == id && id != "" && TrimSpace(id) == id
    ensures Next(2 * MINUTE, s, RevokeStep(id)) == next && Revokes(s, RevokeStep(id), id)
  {
  }

  lemma BothAdmitted(s: System, next: System, id: string, seen: Pending)
    requires s.pending == map[0 := seen, 1 := seen] && id in s.ledger && s.ledger[id].terms.grantId == id
    requires seen.found.Some? && seen.found.value.terms.grantId == id
    requires Decide(seen.req, seen.payload, seen.found.value, 0) == Admit
    ensures Accepts(s, FinishStep(0, 0, 0), id)
    ensures next == Next(2 * MINUTE, s, FinishStep(0, 0, 0)) ==> Accepts(next, FinishStep(1, 0, 0), id)
  {
    assert s.pending - {0} == map[1 := seen];
  }

  lemma FirstLookups(
        issue: IssueRequest, id: string, nonce: string, terms: Terms, req: ValidateRequest, trace: seq<Step>,
        seen: Pending)
    requires CheckIssue(2 * MINUTE, issue) == None
    requires terms == TermsOf(2 * MINUTE, issue, id, nonce, 0)
    requires req.token.Signed? && req.token.payload.grantId == id && Parse(req.token) == Some(req.token.payload)
    requires seen == Pending(req, req.token.payload, Some(Grant(terms, Issued, None)))
    requires |trace| > 3 && trace[0] == IssueStep(issue, id, nonce, 0, 0)
    requires trace[1] == LookupStep(0, req) && trace[2] == LookupStep(1, req)
    ensures At(2 * MINUTE, trace, 3) == System(map[id := Grant(terms, Issued, None)], map[0 := seen, 1 := seen])
  {
    var ttl, issued := 2 * MINUTE, Grant(terms, Issued, None);
    assert At(ttl, trace, 0) == System(map[], map[]);
    AtNext(ttl, trace, 0);
    assert At(ttl, trace, 1) == System(map[id := issued], map[]);
    AtNext(ttl, trace, 1);
    assert At(ttl, trace, 2) == System(map[id := issued], map[0 := seen]);
    AtNext(ttl, trace, 2);
  }
}
