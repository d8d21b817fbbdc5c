// The same half-steps over the newest-first list.
module RelayGrantInterleavedLists {
  import opened Wrappers
  import opened Text
  import opened RelayGrants
  import opened RelayGrantStore
  import Runs = RelayGrantRuns
  import opened RelayGrantInterleaving
  import History = RelayGrantInterleavedHistory

  datatype ListSystem = ListSystem(state: Runs.ListState, pending: map<nat, Pending>)

  function ListNext(defaultTTL: int, s: ListSystem, step: Step): ListSystem {
    match step
    case IssueStep(req, id, nonce, now, storedAt) =>
      s.(state := Runs.ListIssue(
                    defaultTTL, s.state, Runs.IssueCall(req, id, nonce, now, storedAt)).0)
    case LookupStep(call, req) =>
      if Parse(req.token).None? then s
      else
        var payload := Parse(req.token).value;
        var found := Runs.ListLookup(s.state, payload.grantId);
        s.(pending := s.pending[call := Pending(req, payload, found)])
    case FinishStep(call, checkedAt, markedAt) =>
      if call !in s.pending then s
      else
        var p := s.pending[call];
        var next := Runs.ListFinish(s.state, p.req, p.payload, p.found, checkedAt, markedAt).0;
        ListSystem(next, s.pending - {call})
    case RevokeStep(grantId) => s.(state := Runs.ListRevoke(s.state, grantId).0)
  }

  function ListAfter(defaultTTL: int, nextID: int, trace: seq<Step>): ListSystem {
    if trace == [] then ListSystem(Runs.ListState(nextID, []), map[])
    else ListNext(defaultTTL, ListAfter(defaultTTL, nextID, Front(trace)), Last(trace))
  }

  function ListAt(defaultTTL: int, nextID: int, trace: seq<Step>, n: nat): ListSystem
    requires n <= |trace|
  {
    ListAfter(defaultTTL, nextID, trace[..n])
  }

  // What a caller is told at a step: a lookup answers only if its token is bad, a finish only
  // if its call is in flight.
  datatype Reply =
    | IssueReply(issued: Result<IssueResponse, IssueError>)
    | LookupReply(refused: bool)
    | FinishReply(verdict: Option<Verdict>)
    | RevokeReply(revoked: bool)

  function ReplyOf(defaultTTL: int, s: System, step: Step): Reply {
    match step
    case IssueStep(req, id, nonce, now, _) => IssueReply(Issue(defaultTTL, s.ledger, req, id, nonce, now).1)
    case LookupStep(_, req) => LookupReply(Parse(req.token).None?)
    case FinishStep(call, checkedAt, markedAt) =>
      if call !in s.pending then FinishReply(None)
      else
        var p := s.pending[call];
        FinishReply(Some(Finish(s.ledger, p.req, p.payload, p.found, checkedAt, markedAt).1))
    case RevokeStep(grantId) => RevokeReply(Revoke(s.ledger, grantId).1)
  }

  function ListReplyOf(defaultTTL: int, s: ListSystem, step: Step): Reply {
    match step
    case IssueStep(req, id, nonce, now, storedAt) =>
      IssueReply(Runs.ListIssue(
               defaultTTL, s.state, Runs.IssueCall(req, id, nonce, now, storedAt)).1.issued)
    case LookupStep(_, req) => LookupReply(Parse(req.token).None?)
    case FinishStep(call, checkedAt, markedAt) =>
      if call !in s.pending then FinishReply(None)
      else
        var p := s.pending[call];
        FinishReply(Some(Runs.ListFinish(s.state, p.req, p.payload, p.found, checkedAt, markedAt).1))
    case RevokeStep(grantId) => RevokeReply(Runs.ListRevoke(s.state, grantId).1)
  }

  ghost predicate WellFormed(step: Step) {
    match step
    case IssueStep(_, id, nonce, now, _) => IsRandomID("rg", id) && IsRandomID("nonce", nonce) && 0 <= now
    case LookupStep(_, req) => Minted(req.token)
    case FinishStep(_, _, _) => true
    case RevokeStep(_) => true
  }

  // The list stands for the ledger, and the same copies are in flight.
  ghost predicate Represents(s: ListSystem, m: System) {
    LedgerOf(s.state.rows) == m.ledger && Clean(s.state.rows) && s.pending == m.pending
  }

  lemma StepRefines(defaultTTL: int, s: ListSystem, m: System, step: Step)
    requires Represents(s, m) && Consistent(m) && WellFormed(step)
    ensures Represents(ListNext(defaultTTL, s, step), Next(defaultTTL, m, step))
    ensures ListReplyOf(defaultTTL, s, step) == ReplyOf(defaultTTL, m, step)
  {
    match step
    case IssueStep(req, id, nonce, now, storedAt) =>
      Runs.IssueRefines(defaultTTL, s.state, Runs.IssueCall(req, id, nonce, now, storedAt));
    case LookupStep(_, req) =>
      if Parse(req.token).Some? {
        Runs.LookupRefines(s.state, Parse(req.token).value.grantId);
      }
    case FinishStep(call, checkedAt, markedAt) =>
      if call in s.pending {
        var p := s.pending[call];
        Runs.FinishRefines(s.state, p.req, p.payload, p.found, checkedAt, markedAt);
      }
    case RevokeStep(grantId) => MarkRowMarksLedger(s.state.rows, TrimSpace(grantId), Revoked, None);
  }

  lemma {:induction false} AfterRefines(defaultTTL: int, nextID: int, trace: seq<Step>)
    requires forall i :: 0 <= i < |trace| ==> WellFormed(trace[i])
    ensures Represents(ListAfter(defaultTTL, nextID, trace), After(defaultTTL, trace))
  {
    if trace != [] {
      var front := Front(trace);
      AfterRefines(defaultTTL, nextID, front);
      AlwaysConsistent(defaultTTL, trace, |front|);
      StepRefines(defaultTTL, ListAfter(defaultTTL, nextID, front), After(defaultTTL, front), Last(trace));
    }
  }

  lemma RepresentsAt(defaultTTL: int, nextID: int, trace: seq<Step>, n: nat)
    requires n <= |trace| && forall i :: 0 <= i < |trace| ==> WellFormed(trace[i])
    ensures Represents(ListAt(defaultTTL, nextID, trace, n), At(defaultTTL, trace, n))
    ensures Consistent(At(defaultTTL, trace, n))
  {
    AfterRefines(defaultTTL, nextID, trace[..n]);
    AlwaysConsistent(defaultTTL, trace, n);
  }

  // Under every interleaving of half-steps the two backends give every step the same reply.
  lemma BackendsAgree(defaultTTL: int, nextID: int, trace: seq<Step>, n: nat)
    requires n < |trace| && forall i :: 0 <= i < |trace| ==> WellFormed(trace[i])
    ensures ListReplyOf(defaultTTL, ListAt(defaultTTL, nextID, trace, n), trace[n])
            == ReplyOf(defaultTTL, At(defaultTTL, trace, n), trace[n])
  {
    RepresentsAt(defaultTTL, nextID, trace, n);
    StepRefines(defaultTTL, ListAt(defaultTTL, nextID, trace, n), At(defaultTTL, trace, n), trace[n]);
  }

  // ------------------------------------------------------------------------
  // Exact acceptance, on the list.

  predicate ListAccepts(defaultTTL: int, s: ListSystem, step: Step, id: string) {
    && step.FinishStep? && step.call in s.pending
    && var verdict := ListReplyOf(defaultTTL, s, step).verdict.value;
    && verdict.Accepted? && verdict.grantId == id
  }

  // The step accepts the grant, revokes it or finds it out of time.
  predicate ListSpends(defaultTTL: int, s: ListSystem, step: Step, id: string) {
    || ListAccepts(defaultTTL, s, step, id)
    || (step.RevokeStep? && TrimSpace(step.grantId) == id && ListReplyOf(defaultTTL, s, step) == RevokeReply(true))
    || (&& step.FinishStep? && step.call in s.pending
        && var p := s.pending[step.call];
        && p.payload.grantId == id && p.found.Some?
        && Decide(p.req, p.payload, p.found.value, step.checkedAt) == Lapse)
  }

  lemma SpendsAlike(defaultTTL: int, s: ListSystem, m: System, step: Step, id: string)
    requires Represents(s, m) && Consistent(m) && WellFormed(step)
    ensures ListAccepts(defaultTTL, s, step, id) <==> Accepts(m, step, id)
    ensures ListSpends(defaultTTL, s, step, id) <==> Spends(m, step, id)
  {
    StepRefines(defaultTTL, s, m, step);
  }

  ghost predicate ListUnspent(defaultTTL: int, nextID: int, trace: seq<Step>, n: nat, id: string)
    requires n <= |trace|
  {
    forall j :: 0 <= j < n ==> !ListSpends(defaultTTL, ListAt(defaultTTL, nextID, trace, j), trace[j], id)
  }

  lemma UnspentAlike(defaultTTL: int, nextID: int, trace: seq<Step>, n: nat, id: string)
    requires n <= |trace| && forall i :: 0 <= i < |trace| ==> WellFormed(trace[i])
    ensures ListUnspent(defaultTTL, nextID, trace, n, id) <==> History.Unspent(defaultTTL, trace, n, id)
  {
    forall j | 0 <= j < n
      ensures ListSpends(defaultTTL, ListAt(defaultTTL, nextID, trace, j), trace[j], id)
              <==> SpendsAt(defaultTTL, trace, j, id)
    {
      RepresentsAt(defaultTTL, nextID, trace, j);
      SpendsAlike(defaultTTL, ListAt(defaultTTL, nextID, trace, j), At(defaultTTL, trace, j), trace[j], id);
    }
  }

  // Over the list too, a finish is accepted exactly when its grant was issued before its own
  // lookup with terms that fit the request, and nothing had spent it by then.
  lemma ExactAcceptance(defaultTTL: int, nextID: int, trace: seq<Step>, l: nat, n: nat, p: Pending)
    requires FreshIds(trace) && (forall i :: 0 <= i < |trace| ==> WellFormed(trace[i]))
    requires l < n < |trace| && trace[n].FinishStep?
    requires var s := ListAt(defaultTTL, nextID, trace, n);
             trace[n].call in s.pending && s.pending[trace[n].call] == p
    requires trace[l] == LookupStep(trace[n].call, p.req) && Parse(p.req.token) == Some(p.payload)
    requires p.found == Runs.ListLookup(ListAt(defaultTTL, nextID, trace, l).state, p.payload.grantId)
    ensures var id := p.payload.grantId;
            ListAccepts(defaultTTL, ListAt(defaultTTL, nextID, trace, n), trace[n], id) <==>
              && (exists i :: 0 <= i < l && IssuesAt(defaultTTL, trace, i, id)
                              && History.Fits(p, History.IssuedTerms(defaultTTL, trace[i]), trace[n].checkedAt))
              && ListUnspent(defaultTTL, nextID, trace, l, id)
  {
    var id := p.payload.grantId;
    RepresentsAt(defaultTTL, nextID, trace, l);
    RepresentsAt(defaultTTL, nextID, trace, n);
    assert WellFormed(trace[l]);
    Runs.LookupRefines(ListAt(defaultTTL, nextID, trace, l).state, id);
    assert LookedUpAt(defaultTTL, trace, l, trace[n].call, p);
    History.ExactAcceptance(defaultTTL, trace, l, n, p);
    UnspentAlike(defaultTTL, nextID, trace, l, id);
    SpendsAlike(defaultTTL, ListAt(defaultTTL, nextID, trace, n), At(defaultTTL, trace, n), trace[n], id);
  }
}
