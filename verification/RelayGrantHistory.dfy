// Exactly which validations succeed, in terms of the calls made before.
module RelayGrantHistory {
  import opened Wrappers
  import opened Clock
  import opened Text
  import opened RelayGrants
  import opened RelayGrantRuns

  // An accepted request to issue a grant with this identifier.
  predicate Issues(defaultTTL: int, call: Call, id: string) {
    call.IssueCall? && call.id == id && CheckIssue(defaultTTL, call.issue) == None
  }

  // A validation that the service accepted for this grant.
  predicate Accepts(reply: Reply, id: string) {
    reply.ValidateReply? && reply.verdict.Accepted? && reply.verdict.grantId == id
  }

  // A call that revoked this grant.
  predicate Revokes(call: Call, reply: Reply, id: string) {
    call.RevokeCall? && TrimSpace(call.grantId) == id && reply == RevokeReply(true)
  }

  predicate IssuesAt(defaultTTL: int, calls: seq<Call>, i: nat, id: string)
    requires i < |calls|
  {
    Issues(defaultTTL, calls[i], id)
  }

  predicate AcceptsAt(defaultTTL: int, calls: seq<Call>, i: nat, id: string)
    requires i < |calls|
  {
    Accepts(ReplyTo(defaultTTL, calls, i), id)
  }

  predicate RevokesAt(defaultTTL: int, calls: seq<Call>, i: nat, id: string)
    requires i < |calls|
  {
    Revokes(calls[i], ReplyTo(defaultTTL, calls, i), id)
  }

  ghost predicate Issuing(defaultTTL: int, calls: seq<Call>, id: string) {
    exists i :: 0 <= i < |calls| && IssuesAt(defaultTTL, calls, i, id)
  }

  ghost predicate Accepting(defaultTTL: int, calls: seq<Call>, id: string) {
    exists i :: 0 <= i < |calls| && AcceptsAt(defaultTTL, calls, i, id)
  }

  ghost predicate Revoking(defaultTTL: int, calls: seq<Call>, id: string) {
    exists i :: 0 <= i < |calls| && RevokesAt(defaultTTL, calls, i, id)
  }

  // ------------------------------------------------------------------------
  // What a run may assume: identifiers are fresh and the clock does not go back.

  ghost predicate FreshIds(calls: seq<Call>) {
    forall i, j :: 0 <= i < j < |calls| && calls[i].IssueCall? && calls[j].IssueCall? ==> calls[i].id != calls[j].id
  }

  function Readings(call: Call): seq<int> {
    match call
    case IssueCall(_, _, _, now, storedAt) => [now, storedAt]
    case ValidateCall(_, checkedAt, markedAt) => [checkedAt, markedAt]
    case RevokeCall(_) => []
  }

  ghost predicate Clocked(calls: seq<Call>) {
    forall i, j, x, y :: 0 <= i < j < |calls| && x in Readings(calls[i]) && y in Readings(calls[j]) ==> x <= y
  }

  // ------------------------------------------------------------------------
  // The invariant.

  // What the ledger records about one identifier is what happened to it.
  ghost predicate Records(defaultTTL: int, calls: seq<Call>, id: string) {
    var ledger := Run(defaultTTL, calls);
    && (id in ledger <==> Issuing(defaultTTL, calls, id))
    && (id in ledger ==>
          && ledger[id].terms.grantId == id
          && (ledger[id].usedAt.Some? <==> Accepting(defaultTTL, calls, id))
          && (ledger[id].status == Issued ==> !Accepting(defaultTTL, calls, id) && !Revoking(defaultTTL, calls, id))
          && (ledger[id].status == Used ==> Accepting(defaultTTL, calls, id))
          && (ledger[id].status == Revoked ==> Revoking(defaultTTL, calls, id)))
  }

  // An expired status was written by a validation that read a clock past the expiry.
  ghost predicate ExpiredInThePast(defaultTTL: int, calls: seq<Call>, id: string) {
    var ledger := Run(defaultTTL, calls);
    id in ledger && ledger[id].status == Expired ==>
      exists j :: 0 <= j < |calls| && calls[j].ValidateCall? && ledger[id].terms.expiresAt < calls[j].checkedAt
  }

  // Terms on record are those of the issuing call.
  ghost predicate TermsAsIssued(defaultTTL: int, calls: seq<Call>, id: string) {
    var ledger := Run(defaultTTL, calls);
    id in ledger ==>
      exists i :: 0 <= i < |calls| && IssuesAt(defaultTTL, calls, i, id)
        && ledger[id].terms == TermsOf(defaultTTL, calls[i].issue, id, calls[i].nonce, calls[i].now)
  }

  // What one call does to one grant: it is issued, accepted, revoked, found out of time,
  // or left alone.
  lemma StepEffect(defaultTTL: int, ledger: Ledger, call: Call, id: string)
    requires Keyed(ledger)
    ensures var (next, reply) := Step(defaultTTL, ledger, call);
            && Keyed(next)
            && (if Issues(defaultTTL, call, id) then
                  id in next
                  && next[id] == Grant(TermsOf(defaultTTL, call.issue, id, call.nonce, call.now), Issued, None)
                  && !Accepts(reply, id) && !Revokes(call, reply, id)
                else if Accepts(reply, id) then
                  call.ValidateCall? && id in ledger && id in next && ledger[id].status == Issued
                  && next[id] == Marked(ledger[id], Used, Some(call.markedAt)) && !Revokes(call, reply, id)
                else if Revokes(call, reply, id) then
                  id in ledger && id in next && next[id] == Marked(ledger[id], Revoked, None)
                else
                  Lookup(next, id) == Lookup(ledger, id)
                  || (call.ValidateCall? && id in ledger && ledger[id].terms.expiresAt < call.checkedAt
                      && id in next && next[id] == Marked(ledger[id], Expired, None)))
  {
    match call
    case ValidateCall(req, checkedAt, markedAt) => ValidateEffect(ledger, req, checkedAt, markedAt, id);
    case _ =>
  }

  lemma ValidateEffect(ledger: Ledger, req: ValidateRequest, checkedAt: int, markedAt: int, id: string)
    requires Keyed(ledger)
    ensures var (next, verdict) := Validate(ledger, req, checkedAt, markedAt);
            && Keyed(next)
            && (if verdict.Accepted? && verdict.grantId == id then
                  id in ledger && id in next && ledger[id].status == Issued
                  && next[id] == Marked(ledger[id], Used, Some(markedAt))
                else
                  Lookup(next, id) == Lookup(ledger, id)
                  || (id in ledger && ledger[id].terms.expiresAt < checkedAt
                      && id in next && next[id] == Marked(ledger[id], Expired, None)))
  {
  }

  lemma RepliesOfFront(defaultTTL: int, calls: seq<Call>)
    requires |calls| > 0
    ensures forall i :: 0 <= i < |calls| - 1 ==> ReplyTo(defaultTTL, Front(calls), i) == ReplyTo(defaultTTL, calls, i)
    ensures ReplyTo(defaultTTL, calls, |calls| - 1) == Step(defaultTTL, Run(defaultTTL, Front(calls)), Last(calls)).1
  {
    forall i | 0 <= i < |calls| - 1
      ensures ReplyTo(defaultTTL, Front(calls), i) == ReplyTo(defaultTTL, calls, i)
    {
      assert Front(calls)[..i] == calls[..i];
    }
    assert calls[..|calls| - 1] == Front(calls);
  }

  // One more call: something has happened to a grant if it had before or this call did it.
  lemma HistoryGrows(defaultTTL: int, calls: seq<Call>, id: string)
    requires |calls| > 0
    ensures var front, n := Front(calls), |calls| - 1;
            && (Issuing(defaultTTL, calls, id) <==>
                  Issuing(defaultTTL, front, id) || IssuesAt(defaultTTL, calls, n, id))
            && (Accepting(defaultTTL, calls, id) <==>
                  Accepting(defaultTTL, front, id) || AcceptsAt(defaultTTL, calls, n, id))
            && (Revoking(defaultTTL, calls, id) <==>
                  Revoking(defaultTTL, front, id) || RevokesAt(defaultTTL, calls, n, id))
  {
    RepliesOfFront(defaultTTL, calls);
    var front, n := Front(calls), |calls| - 1;
    assert forall i :: 0 <= i < n ==>
      && (IssuesAt(defaultTTL, front, i, id) <==> IssuesAt(defaultTTL, calls, i, id))
      && (AcceptsAt(defaultTTL, front, i, id) <==> AcceptsAt(defaultTTL, calls, i, id))
      && (RevokesAt(defaultTTL, front, i, id) <==> RevokesAt(defaultTTL, calls, i, id));
  }

  lemma {:induction false} LedgerIsKeyed(defaultTTL: int, calls: seq<Call>)
    ensures Keyed(Run(defaultTTL, calls))
  {
    if calls != [] {
      LedgerIsKeyed(defaultTTL, Front(calls));
      StepEffect(defaultTTL, Run(defaultTTL, Front(calls)), Last(calls), "");
    }
  }

  // Nothing has happened yet to an identifier that has not been issued.
  lemma {:induction false} NothingBeforeIssue(defaultTTL: int, calls: seq<Call>, id: string)
    requires id !in Run(defaultTTL, calls)
    ensures !Accepting(defaultTTL, calls, id) && !Revoking(defaultTTL, calls, id)
  {
    if calls != [] {
      var before := Run(defaultTTL, Front(calls));
      LedgerIsKeyed(defaultTTL, Front(calls));
      StepEffect(defaultTTL, before, Last(calls), id);
      assert id !in before;
      NothingBeforeIssue(defaultTTL, Front(calls), id);
      HistoryGrows(defaultTTL, calls, id);
      RepliesOfFront(defaultTTL, calls);
    }
  }

  lemma {:induction false} LedgerRecords(defaultTTL: int, calls: seq<Call>, id: string)
    requires FreshIds(calls)
    ensures Records(defaultTTL, calls, id)
  {
    if calls != [] {
      var front := Front(calls);
      LedgerRecords(defaultTTL, front, id);
      LedgerIsKeyed(defaultTTL, front);
      HistoryGrows(defaultTTL, calls, id);
      RepliesOfFront(defaultTTL, calls);
      if Issues(defaultTTL, Last(calls), id) {
        assert !Issuing(defaultTTL, front, id);
        NothingBeforeIssue(defaultTTL, front, id);
      }
      StepEffect(defaultTTL, Run(defaultTTL, front), Last(calls), id);
    }
  }

  lemma {:induction false} LedgerTerms(defaultTTL: int, calls: seq<Call>, id: string)
    ensures TermsAsIssued(defaultTTL, calls, id)
  {
    if calls != [] && id in Run(defaultTTL, calls) {
      var front, call := Front(calls), Last(calls);
      LedgerTerms(defaultTTL, front, id);
      LedgerIsKeyed(defaultTTL, front);
      StepEffect(defaultTTL, Run(defaultTTL, front), call, id);
      if IssuesAt(defaultTTL, calls, |calls| - 1, id) {
      } else {
        assert Run(defaultTTL, calls)[id].terms == Run(defaultTTL, front)[id].terms;
        var i :| 0 <= i < |front| && IssuesAt(defaultTTL, front, i, id)
          && Run(defaultTTL, front)[id].terms == TermsOf(defaultTTL, front[i].issue, id, front[i].nonce, front[i].now);
        assert IssuesAt(defaultTTL, calls, i, id);
      }
    }
  }

  lemma {:induction false} LedgerExpiry(defaultTTL: int, calls: seq<Call>, id: string)
    ensures ExpiredInThePast(defaultTTL, calls, id)
  {
    if calls != [] {
      var front, call := Front(calls), Last(calls);
      LedgerExpiry(defaultTTL, front, id);
      LedgerIsKeyed(defaultTTL, front);
      var before, after := Run(defaultTTL, front), Run(defaultTTL, calls);
      StepEffect(defaultTTL, before, call, id);
      if id in after && after[id].status == Expired {
        if Lookup(before, id) == Lookup(after, id) {
          var j :| 0 <= j < |front| && front[j].ValidateCall? && before[id].terms.expiresAt < front[j].checkedAt;
          assert calls[j] == front[j];
        } else {
          assert calls[|calls| - 1].ValidateCall?;
        }
      }
    }
  }

  // ------------------------------------------------------------------------
  // The theorems.

  // The request a grant answers to: the nonce it was issued with, within its time, and
  // the target and relay it was issued for.
  predicate Answers(defaultTTL: int, call: Call, payload: Terms, req: ValidateRequest, now: int)
    requires call.IssueCall?
  {
    var issue := call.issue;
    && call.nonce == payload.nonce
    && now <= call.now + EffectiveTTL(defaultTTL, issue.ttlSeconds)
    && (req.targetDeviceId.Some? && issue.targetDeviceId.Some? ==> req.targetDeviceId == issue.targetDeviceId)
    && (req.targetRustDeskId != "" && TrimSpace(issue.targetRustDeskId) != "" ==>
          req.targetRustDeskId == TrimSpace(issue.targetRustDeskId))
    && (req.relay == "" || req.relay in issue.allowedRelays)
  }

  // After any run of atomic calls, a validation is accepted exactly when its token names a
  // grant that was issued, is still within its time, was issued for this target and relay,
  // and has been neither accepted nor revoked before.
  lemma ExactAcceptance(defaultTTL: int, calls: seq<Call>, req: ValidateRequest, checkedAt: int, markedAt: int)
    requires var all := calls + [ValidateCall(req, checkedAt, markedAt)]; FreshIds(all) && Clocked(all)
    ensures Validate(Run(defaultTTL, calls), req, checkedAt, markedAt).1.Accepted? <==>
            && Parse(req.token).Some?
            && var payload := Parse(req.token).value;
            && (exists i :: 0 <= i < |calls| && IssuesAt(defaultTTL, calls, i, payload.grantId)
                             && Answers(defaultTTL, calls[i], payload, req, checkedAt))
            && !Accepting(defaultTTL, calls, payload.grantId)
            && !Revoking(defaultTTL, calls, payload.grantId)
  {
    var all := calls + [ValidateCall(req, checkedAt, markedAt)];
    assert FreshIds(calls) by {
      assert forall i :: 0 <= i < |calls| ==> all[i] == calls[i];
    }
    if Parse(req.token).Some? {
      var payload := Parse(req.token).value;
      LedgerRecords(defaultTTL, calls, payload.grantId);
      AcceptedWhenAdmitted(Run(defaultTTL, calls), req, payload, checkedAt, markedAt);
      if payload.grantId in Run(defaultTTL, calls) {
        ExpiredStaysExpired(defaultTTL, calls, req, checkedAt, markedAt, payload.grantId);
        LedgerTerms(defaultTTL, calls, payload.grantId);
        var i :| 0 <= i < |calls| && IssuesAt(defaultTTL, calls, i, payload.grantId)
          && Run(defaultTTL, calls)[payload.grantId].terms
             == TermsOf(defaultTTL, calls[i].issue, payload.grantId, calls[i].nonce, calls[i].now);
        AnswersByTerms(defaultTTL, calls, i, payload, req, checkedAt);
      }
    }
  }

  lemma AcceptedWhenAdmitted(ledger: Ledger, req: ValidateRequest, payload: Terms, checkedAt: int, markedAt: int)
    requires Parse(req.token) == Some(payload)
    ensures Validate(ledger, req, checkedAt, markedAt).1.Accepted?
            <==> payload.grantId in ledger && Decide(req, payload, ledger[payload.grantId], checkedAt) == Admit
  {
  }

  // A grant's terms match a request exactly when some issuing call does, which is the one
  // that issued it.
  lemma AnswersByTerms(defaultTTL: int, calls: seq<Call>, i: nat, payload: Terms, req: ValidateRequest, now: int)
    requires FreshIds(calls) && i < |calls| && IssuesAt(defaultTTL, calls, i, payload.grantId)
    ensures var id := payload.grantId;
            var terms := TermsOf(defaultTTL, calls[i].issue, id, calls[i].nonce, calls[i].now);
            (exists k :: 0 <= k < |calls| && IssuesAt(defaultTTL, calls, k, id)
                         && Answers(defaultTTL, calls[k], payload, req, now))
            <==> terms.nonce == payload.nonce && now <= terms.expiresAt && TargetAgrees(req, terms)
                 && RelayAllowed(req, terms)
  {
    var terms := TermsOf(defaultTTL, calls[i].issue, payload.grantId, calls[i].nonce, calls[i].now);
    IssuedOnce(defaultTTL, calls, i, payload.grantId);
    assert Answers(defaultTTL, calls[i], payload, req, now) <==>
      terms.nonce == payload.nonce && now <= terms.expiresAt && TargetAgrees(req, terms) && RelayAllowed(req, terms);
  }

  lemma IssuedOnce(defaultTTL: int, calls: seq<Call>, i: nat, id: string)
    requires FreshIds(calls) && i < |calls| && IssuesAt(defaultTTL, calls, i, id)
    ensures forall k :: 0 <= k < |calls| && IssuesAt(defaultTTL, calls, k, id) ==> k == i
  {
  }

  lemma ExpiredStaysExpired(
        defaultTTL: int, calls: seq<Call>, req: ValidateRequest, checkedAt: int, markedAt: int, id: string)
    requires Clocked(calls + [ValidateCall(req, checkedAt, markedAt)])
    requires id in Run(defaultTTL, calls)
    ensures var grant := Run(defaultTTL, calls)[id];
            grant.status == Expired ==> grant.terms.expiresAt < checkedAt
  {
    var all := calls + [ValidateCall(req, checkedAt, markedAt)];
    var grant := Run(defaultTTL, calls)[id];
    LedgerExpiry(defaultTTL, calls, id);
    if grant.status == Expired {
      var j :| 0 <= j < |calls| && calls[j].ValidateCall? && grant.terms.expiresAt < calls[j].checkedAt;
      assert all[j] == calls[j] && all[|calls|] == ValidateCall(req, checkedAt, markedAt);
      assert calls[j].checkedAt in Readings(all[j]) && checkedAt in Readings(all[|calls|]);
    }
  }

  // Whatever time to live was asked for, a grant lives between one and five minutes, and
  // the token handed out parses back to its terms, in whole seconds.
  lemma IssuedLifetime(defaultTTL: int, calls: seq<Call>, i: nat, id: string)
    requires i < |calls| && IssuesAt(defaultTTL, calls, i, id) && WellFormed(calls[i])
    ensures var reply := ReplyTo(defaultTTL, calls, i).issued;
            && reply.Ok? && reply.value.grantId == id
            && calls[i].now + 60 * SECOND <= reply.value.expiresAt <= calls[i].now + 300 * SECOND
            && Parse(reply.value.token)
               == Some(TermsOf(defaultTTL, calls[i].issue, id, calls[i].nonce, calls[i].now)
                       .(expiresAt := Unix(reply.value.expiresAt)))
  {
    RandomIDIsTrimmed("rg", id);
    RandomIDIsTrimmed("nonce", calls[i].nonce);
  }

  // ------------------------------------------------------------------------
  // Each grant counts once.

  function UsedIds(ledger: Ledger): set<string> {
    set id | id in ledger && ledger[id].usedAt.Some?
  }

  function Acceptances(defaultTTL: int, calls: seq<Call>): nat {
    if calls == [] then 0
    else Acceptances(defaultTTL, Front(calls))
         + var reply := Step(defaultTTL, Run(defaultTTL, Front(calls)), Last(calls)).1;
           if reply.ValidateReply? && reply.verdict.Accepted? then 1 else 0
  }

  lemma UsedIdsMarked(ledger: Ledger, id: string, grant: Grant)
    requires id in ledger ==> (ledger[id].usedAt.Some? ==> grant.usedAt.Some?)
    ensures UsedIds(ledger[id := grant]) == UsedIds(ledger) + if grant.usedAt.Some? then {id} else {}
  {
  }

  lemma UsedIdsOfValidate(ledger: Ledger, req: ValidateRequest, checkedAt: int, markedAt: int)
    requires Keyed(ledger)
    ensures var (next, verdict) := Validate(ledger, req, checkedAt, markedAt);
            if verdict.Accepted?
            then verdict.grantId in ledger && ledger[verdict.grantId].status == Issued
                 && UsedIds(next) == UsedIds(ledger) + {verdict.grantId}
            else UsedIds(next) == UsedIds(ledger)
  {
    var (next, verdict) := Validate(ledger, req, checkedAt, markedAt);
    if next != ledger {
      var id := Parse(req.token).value.grantId;
      assert next == ledger[id := next[id]];
      UsedIdsMarked(ledger, id, next[id]);
    }
  }

  // What one call does to the grants that carry a time of use.
  lemma UsedIdsStep(defaultTTL: int, ledger: Ledger, call: Call)
    requires Keyed(ledger)
    requires call.IssueCall? && CheckIssue(defaultTTL, call.issue) == None ==> call.id !in ledger
    ensures var (next, reply) := Step(defaultTTL, ledger, call);
            if reply.ValidateReply? && reply.verdict.Accepted?
            then reply.verdict.grantId in ledger && ledger[reply.verdict.grantId].status == Issued
                 && UsedIds(next) == UsedIds(ledger) + {reply.verdict.grantId}
            else UsedIds(next) == UsedIds(ledger)
  {
    var next := Step(defaultTTL, ledger, call).0;
    match call
    case ValidateCall(req, checkedAt, markedAt) => UsedIdsOfValidate(ledger, req, checkedAt, markedAt);
    case IssueCall(_, id, _, _, _) => if next != ledger { UsedIdsMarked(ledger, id, next[id]); }
    case RevokeCall(grantId) =>
      if next != ledger { UsedIdsMarked(ledger, TrimSpace(grantId), next[TrimSpace(grantId)]); }
  }

  // The number of grants with a time of use is the number of accepted validations.
  lemma {:induction false} EachAcceptanceUsesOneGrant(defaultTTL: int, calls: seq<Call>)
    requires FreshIds(calls)
    ensures |UsedIds(Run(defaultTTL, calls))| == Acceptances(defaultTTL, calls)
  {
    if calls != [] {
      var front, call := Front(calls), Last(calls);
      EachAcceptanceUsesOneGrant(defaultTTL, front);
      LedgerIsKeyed(defaultTTL, front);
      if call.IssueCall? {
        LedgerRecords(defaultTTL, front, call.id);
      }
      UsedIdsStep(defaultTTL, Run(defaultTTL, front), call);
      var reply := Step(defaultTTL, Run(defaultTTL, front), call).1;
      if reply.ValidateReply? && reply.verdict.Accepted? {
        LedgerRecords(defaultTTL, front, reply.verdict.grantId);
      }
    }
  }
}
