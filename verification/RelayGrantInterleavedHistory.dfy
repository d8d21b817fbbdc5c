// Exactly which finishes are accepted when validations are split into their halves.
module RelayGrantInterleavedHistory {
  import opened Wrappers
  import opened Text
  import opened RelayGrants
  import opened RelayGrantInterleaving

  // The terms that step i issued a grant with.
  function IssuedTerms(defaultTTL: int, step: Step): Terms
    requires step.IssueStep?
  {
    TermsOf(defaultTTL, step.issue, step.id, step.nonce, step.now)
  }

  // The terms answer the request at this time.
  predicate Fits(p: Pending, terms: Terms, checkedAt: int) {
    && terms.nonce == p.payload.nonce && checkedAt <= terms.expiresAt
    && TargetAgrees(p.req, terms) && RelayAllowed(p.req, terms)
  }

  ghost predicate Unspent(defaultTTL: int, trace: seq<Step>, n: nat, id: string)
    requires n <= |trace|
  {
    forall j :: 0 <= j < n ==> !SpendsAt(defaultTTL, trace, j, id)
  }

  // Step i, before n, issued the grant with these terms.
  ghost predicate IssuedWith(defaultTTL: int, trace: seq<Step>, n: nat, id: string, terms: Terms)
    requires n <= |trace|
  {
    exists i :: 0 <= i < n && IssuesAt(defaultTTL, trace, i, id) && IssuedTerms(defaultTTL, trace[i]) == terms
  }

  // ------------------------------------------------------------------------
  // What one step does to one grant.

  lemma FinishEffect(defaultTTL: int, s: System, step: Step, next: System, id: string)
    requires Consistent(s) && step.FinishStep? && next == Next(defaultTTL, s, step)
    ensures if Spends(s, step, id)
            then id in s.ledger && id in next.ledger && next.ledger[id].status != Issued
                 && next.ledger[id].terms == s.ledger[id].terms
            else Lookup(next.ledger, id) == Lookup(s.ledger, id)
  {
  }

  lemma StepEffect(defaultTTL: int, s: System, step: Step, next: System, id: string)
    requires Consistent(s) && next == Next(defaultTTL, s, step)
    ensures if step.IssueStep? && step.id == id && CheckIssue(defaultTTL, step.issue) == None
            then id in next.ledger && next.ledger[id] == Grant(IssuedTerms(defaultTTL, step), Issued, None)
            else if Spends(s, step, id)
            then id in s.ledger && id in next.ledger && next.ledger[id].status != Issued
                 && next.ledger[id].terms == s.ledger[id].terms
            else Lookup(next.ledger, id) == Lookup(s.ledger, id)
  {
    if step.FinishStep? {
      FinishEffect(defaultTTL, s, step, next, id);
    }
  }

  // ------------------------------------------------------------------------
  // The invariant: the ledger records the history of each identifier.

  ghost predicate Records(defaultTTL: int, trace: seq<Step>, n: nat, id: string)
    requires n <= |trace|
  {
    var ledger := At(defaultTTL, trace, n).ledger;
    if id in ledger
    then IssuedWith(defaultTTL, trace, n, id, ledger[id].terms)
         && (ledger[id].status == Issued <==> Unspent(defaultTTL, trace, n, id))
    else Unspent(defaultTTL, trace, n, id) && forall i :: 0 <= i < n ==> !IssuesAt(defaultTTL, trace, i, id)
  }

  // More of the trace adds to the history only what its last step did.
  lemma HistoryGrows(defaultTTL: int, trace: seq<Step>, n: nat, id: string, terms: Terms)
    requires n < |trace|
    ensures Unspent(defaultTTL, trace, n + 1, id)
            <==> Unspent(defaultTTL, trace, n, id) && !SpendsAt(defaultTTL, trace, n, id)
    ensures IssuedWith(defaultTTL, trace, n, id, terms) ==> IssuedWith(defaultTTL, trace, n + 1, id, terms)
    ensures IssuesAt(defaultTTL, trace, n, id) && IssuedTerms(defaultTTL, trace[n]) == terms ==>
              IssuedWith(defaultTTL, trace, n + 1, id, terms)
  {
    if IssuedWith(defaultTTL, trace, n, id, terms) {
      var i :| 0 <= i < n && IssuesAt(defaultTTL, trace, i, id) && IssuedTerms(defaultTTL, trace[i]) == terms;
    }
  }

  // With fresh identifiers, what is stored is not issued a second time.
  lemma IssuedIsNew(defaultTTL: int, trace: seq<Step>, n: nat, id: string)
    requires FreshIds(trace) && n < |trace| && Records(defaultTTL, trace, n, id)
    requires IssuesAt(defaultTTL, trace, n, id)
    ensures id !in At(defaultTTL, trace, n).ledger && !SpendsAt(defaultTTL, trace, n, id)
  {
  }

  lemma RecordsStep(defaultTTL: int, trace: seq<Step>, n: nat, id: string)
    requires FreshIds(trace) && n < |trace| && Records(defaultTTL, trace, n, id)
    ensures Records(defaultTTL, trace, n + 1, id)
  {
    var s, next := At(defaultTTL, trace, n), At(defaultTTL, trace, n + 1);
    AtNext(defaultTTL, trace, n);
    AlwaysConsistent(defaultTTL, trace, n);
    StepEffect(defaultTTL, s, trace[n], next, id);
    if id in next.ledger {
      HistoryGrows(defaultTTL, trace, n, id, next.ledger[id].terms);
    }
    if IssuesAt(defaultTTL, trace, n, id) {
      IssuedIsNew(defaultTTL, trace, n, id);
    }
  }

  lemma {:induction false} LedgerRecords(defaultTTL: int, trace: seq<Step>, n: nat, id: string)
    requires FreshIds(trace) && n <= |trace|
    ensures Records(defaultTTL, trace, n, id)
  {
    if n > 0 {
      LedgerRecords(defaultTTL, trace, n - 1, id);
      RecordsStep(defaultTTL, trace, n - 1, id);
    }
  }

  // ------------------------------------------------------------------------
  // The theorems.

  // Under every interleaving, a finish is accepted exactly when its grant was issued before
  // its own lookup with terms that fit the request, and no acceptance, revocation or lapse
  // of the grant came before that lookup. What came in between does not matter.
  lemma ExactAcceptance(defaultTTL: int, trace: seq<Step>, l: nat, n: nat, p: Pending)
    requires FreshIds(trace) && l < n < |trace| && trace[n].FinishStep?
    requires trace[n].call in At(defaultTTL, trace, n).pending && At(defaultTTL, trace, n).pending[trace[n].call] == p
    requires LookedUpAt(defaultTTL, trace, l, trace[n].call, p)
    ensures var id := p.payload.grantId;
            AcceptsAt(defaultTTL, trace, n, id) <==>
              && (exists i :: 0 <= i < l && IssuesAt(defaultTTL, trace, i, id)
                              && Fits(p, IssuedTerms(defaultTTL, trace[i]), trace[n].checkedAt))
              && Unspent(defaultTTL, trace, l, id)
  {
    var id, ledger := p.payload.grantId, At(defaultTTL, trace, l).ledger;
    AcceptanceIsDecidedByTheLookup(defaultTTL, trace, l, n, p);
    LedgerRecords(defaultTTL, trace, l, id);
    if id in ledger {
      var i :| 0 <= i < l && IssuesAt(defaultTTL, trace, i, id)
        && IssuedTerms(defaultTTL, trace[i]) == ledger[id].terms;
      assert forall k :: 0 <= k < l && IssuesAt(defaultTTL, trace, k, id) ==> k == i;
    }
  }

  // Two finishes for one grant are both accepted exactly when the grant was issued before
  // the earlier lookup, fits both requests, and was not spent before the later lookup.
  lemma BothAcceptedExactly(defaultTTL: int, trace: seq<Step>, l: nat, n: nat, p: Pending, k: nat, m: nat, q: Pending)
    requires FreshIds(trace) && l <= k && l < n < |trace| && k < m < |trace|
    requires trace[n].FinishStep? && trace[m].FinishStep? && p.payload.grantId == q.payload.grantId
    requires trace[n].call in At(defaultTTL, trace, n).pending && At(defaultTTL, trace, n).pending[trace[n].call] == p
    requires trace[m].call in At(defaultTTL, trace, m).pending && At(defaultTTL, trace, m).pending[trace[m].call] == q
    requires LookedUpAt(defaultTTL, trace, l, trace[n].call, p) && LookedUpAt(defaultTTL, trace, k, trace[m].call, q)
    ensures var id := p.payload.grantId;
            AcceptsAt(defaultTTL, trace, n, id) && AcceptsAt(defaultTTL, trace, m, id) <==>
              && (exists i :: 0 <= i < l && IssuesAt(defaultTTL, trace, i, id)
                              && Fits(p, IssuedTerms(defaultTTL, trace[i]), trace[n].checkedAt)
                              && Fits(q, IssuedTerms(defaultTTL, trace[i]), trace[m].checkedAt))
              && Unspent(defaultTTL, trace, k, id)
  {
    var id := p.payload.grantId;
    ExactAcceptance(defaultTTL, trace, l, n, p);
    ExactAcceptance(defaultTTL, trace, k, m, q);
    if i :| 0 <= i < l && IssuesAt(defaultTTL, trace, i, id) {
      assert forall j :: 0 <= j < |trace| && IssuesAt(defaultTTL, trace, j, id) ==> j == i;
    }
  }
}
