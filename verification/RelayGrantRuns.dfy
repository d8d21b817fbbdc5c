// Whole runs of atomic issue, validate and revoke calls.
module RelayGrantRuns {
  import opened Wrappers
  import opened Clock
  import opened Text
  import opened RelayGrants
  import opened RelayGrantStore

  datatype Call =
    | IssueCall(issue: IssueRequest, id: string, nonce: string, now: int, storedAt: int)
    | ValidateCall(validate: ValidateRequest, checkedAt: int, markedAt: int)
    | RevokeCall(grantId: string)

  datatype Reply =
    | IssueReply(issued: Result<IssueResponse, IssueError>)
    | ValidateReply(verdict: Verdict)
    | RevokeReply(revoked: bool)

  function Step(defaultTTL: int, ledger: Ledger, call: Call): (Ledger, Reply) {
    match call
    case IssueCall(req, id, nonce, now, _) =>
      var (next, reply) := Issue(defaultTTL, ledger, req, id, nonce, now); (next, IssueReply(reply))
    case ValidateCall(req, checkedAt, markedAt) =>
      var (next, verdict) := Validate(ledger, req, checkedAt, markedAt); (next, ValidateReply(verdict))
    case RevokeCall(grantId) =>
      var (next, revoked) := Revoke(ledger, grantId); (next, RevokeReply(revoked))
  }

  function Run(defaultTTL: int, calls: seq<Call>): Ledger {
    if calls == [] then map[] else Step(defaultTTL, Run(defaultTTL, Front(calls)), Last(calls)).0
  }

  function ReplyTo(defaultTTL: int, calls: seq<Call>, i: nat): Reply
    requires i < |calls|
  {
    Step(defaultTTL, Run(defaultTTL, calls[..i]), calls[i]).1
  }

  // ------------------------------------------------------------------------
  // The list backend, call by call.

  datatype ListState = ListState(nextID: int, rows: seq<Row>)

  function ListIssue(defaultTTL: int, s: ListState, call: Call): (ListState, Reply)
    requires call.IssueCall?
  {
    match CheckIssue(defaultTTL, call.issue)
    case Some(error) => (s, IssueReply(Err(error)))
    case None =>
      var terms := TermsOf(defaultTTL, call.issue, call.id, call.nonce, call.now);
      match Insert(s.nextID, s.rows, terms, Issued, None, call.storedAt)
      case None => (s, IssueReply(Err(StoreRefused)))
      case Some(row) =>
        (ListState(s.nextID + 1, [row] + s.rows),
         IssueReply(Ok(IssueResponse(row.terms.grantId, Sign(terms), row.terms.expiresAt))))
  }

  function ListMark(s: ListState, grant: Grant, status: Status, usedAt: Option<int>): (ListState, Grant) {
    match MarkRow(s.rows, grant.terms.grantId, status, usedAt)
    case None => (s, Marked(grant, status, usedAt))
    case Some((rows, row)) => (s.(rows := rows), GrantOf(row))
  }

  function ListLookup(s: ListState, id: string): Option<Grant> {
    match FindRow(s.rows, id)
    case None => None
    case Some(row) => Some(GrantOf(row))
  }

  // The second half of a validation, on the copy found by the first.
  function ListFinish(
        s: ListState, req: ValidateRequest, payload: Terms, found: Option<Grant>, checkedAt: int, markedAt: int)
    : (ListState, Verdict)
  {
    match found
    case None => (s, Unknown(payload.grantId))
    case Some(grant) =>
      match Decide(req, payload, grant, checkedAt)
      case Refuse(reason, error) => (s, Rejected(grant.terms.grantId, Some(grant.status), reason, error))
      case Lapse =>
        var (next, lapsed) := ListMark(s, grant, Expired, None);
        (next, Rejected(lapsed.terms.grantId, Some(lapsed.status), ExpiredRelayGrant, ErrExpired))
      case Admit =>
        var (next, used) := ListMark(s, grant, Used, Some(markedAt));
        (next, Accepted(used.terms.grantId, used.status, used.terms.expiresAt))
  }

  function ListValidate(s: ListState, req: ValidateRequest, checkedAt: int, markedAt: int): (ListState, Verdict) {
    match Parse(req.token)
    case None => (s, Rejected("", None, InvalidRelayGrant, ErrInvalidToken))
    case Some(payload) => ListFinish(s, req, payload, ListLookup(s, payload.grantId), checkedAt, markedAt)
  }

  function ListRevoke(s: ListState, grantId: string): (ListState, bool) {
    if TrimSpace(grantId) == "" then (s, false)
    else
      match MarkRow(s.rows, TrimSpace(grantId), Revoked, None)
      case None => (s, false)
      case Some((rows, _)) => (s.(rows := rows), true)
  }

  function ListStep(defaultTTL: int, s: ListState, call: Call): (ListState, Reply) {
    match call
    case IssueCall(_, _, _, _, _) => ListIssue(defaultTTL, s, call)
    case ValidateCall(req, checkedAt, markedAt) =>
      var (next, verdict) := ListValidate(s, req, checkedAt, markedAt); (next, ValidateReply(verdict))
    case RevokeCall(grantId) =>
      var (next, revoked) := ListRevoke(s, grantId); (next, RevokeReply(revoked))
  }

  function ListRun(defaultTTL: int, nextID: int, calls: seq<Call>): ListState {
    if calls == [] then ListState(nextID, [])
    else ListStep(defaultTTL, ListRun(defaultTTL, nextID, Front(calls)), Last(calls)).0
  }

  function ListReplyTo(defaultTTL: int, nextID: int, calls: seq<Call>, i: nat): Reply
    requires i < |calls|
  {
    ListStep(defaultTTL, ListRun(defaultTTL, nextID, calls[..i]), calls[i]).1
  }

  // Identifiers come from randomID, tokens that verify from Sign, and the clock runs
  // after 1970.
  ghost predicate WellFormed(call: Call) {
    match call
    case IssueCall(_, id, nonce, now, _) => IsRandomID("rg", id) && IsRandomID("nonce", nonce) && 0 <= now
    case ValidateCall(req, _, _) => Minted(req.token)
    case RevokeCall(_) => true
  }

  lemma IssueRefines(defaultTTL: int, s: ListState, call: Call)
    requires call.IssueCall? && WellFormed(call) && Clean(s.rows)
    ensures var (next, reply) := ListStep(defaultTTL, s, call);
            (LedgerOf(next.rows), reply) == Step(defaultTTL, LedgerOf(s.rows), call) && Clean(next.rows)
  {
    RandomIDIsTrimmed("rg", call.id);
    RandomIDIsTrimmed("nonce", call.nonce);
    if CheckIssue(defaultTTL, call.issue) == None {
      var terms := TermsOf(defaultTTL, call.issue, call.id, call.nonce, call.now);
      var row := Row(s.nextID + 1, terms, call.storedAt, Issued, None);
      assert Insert(s.nextID, s.rows, terms, Issued, None, call.storedAt) == Some(row);
      assert ([row] + s.rows)[1..] == s.rows;
    }
  }

  lemma MarkRefines(s: ListState, grant: Grant, status: Status, usedAt: Option<int>)
    requires Clean(s.rows) && grant.terms.grantId in LedgerOf(s.rows)
    ensures var (next, marked) := ListMark(s, grant, status, usedAt);
            (LedgerOf(next.rows), marked) == UpdateStatus(LedgerOf(s.rows), grant, status, usedAt) && Clean(next.rows)
  {
    LedgerTrimmed(s.rows, grant.terms.grantId);
    MarkRowMarksLedger(s.rows, grant.terms.grantId, status, usedAt);
  }

  lemma LookupRefines(s: ListState, id: string)
    requires IsRandomID("rg", id)
    ensures ListLookup(s, id) == Lookup(LedgerOf(s.rows), id)
  {
    RandomIDIsTrimmed("rg", id);
    LedgerFinds(s.rows, id);
  }

  lemma FinishRefines(
        s: ListState, req: ValidateRequest, payload: Terms, found: Option<Grant>, checkedAt: int, markedAt: int)
    requires Clean(s.rows) && (found.Some? ==> found.value.terms.grantId in LedgerOf(s.rows))
    ensures var (next, verdict) := ListFinish(s, req, payload, found, checkedAt, markedAt);
            && (LedgerOf(next.rows), verdict) == Finish(LedgerOf(s.rows), req, payload, found, checkedAt, markedAt)
            && Clean(next.rows)
  {
    if found.Some? {
      MarkRefines(s, found.value, Expired, None);
      MarkRefines(s, found.value, Used, Some(markedAt));
    }
  }

  lemma ValidateRefines(s: ListState, req: ValidateRequest, checkedAt: int, markedAt: int)
    requires Minted(req.token) && Clean(s.rows)
    ensures var (next, verdict) := ListValidate(s, req, checkedAt, markedAt);
            (LedgerOf(next.rows), verdict) == Validate(LedgerOf(s.rows), req, checkedAt, markedAt) && Clean(next.rows)
  {
    if Parse(req.token).Some? {
      var payload := Parse(req.token).value;
      LookupRefines(s, payload.grantId);
      LedgerKeyed(s.rows);
      FinishRefines(s, req, payload, ListLookup(s, payload.grantId), checkedAt, markedAt);
    }
  }

  lemma StepRefines(defaultTTL: int, s: ListState, call: Call)
    requires WellFormed(call) && Clean(s.rows)
    ensures var (next, reply) := ListStep(defaultTTL, s, call);
            (LedgerOf(next.rows), reply) == Step(defaultTTL, LedgerOf(s.rows), call) && Clean(next.rows)
  {
    match call
    case IssueCall(_, _, _, _, _) => IssueRefines(defaultTTL, s, call);
    case ValidateCall(req, checkedAt, markedAt) => ValidateRefines(s, req, checkedAt, markedAt);
    case RevokeCall(grantId) => MarkRowMarksLedger(s.rows, TrimSpace(grantId), Revoked, None);
  }

  // On every run the list-backed service stands for the map-backed one's ledger.
  lemma {:induction false} RunRefines(defaultTTL: int, nextID: int, calls: seq<Call>)
    requires forall i :: 0 <= i < |calls| ==> WellFormed(calls[i])
    ensures var s := ListRun(defaultTTL, nextID, calls);
            LedgerOf(s.rows) == Run(defaultTTL, calls) && Clean(s.rows)
  {
    if calls != [] {
      RunRefines(defaultTTL, nextID, Front(calls));
      StepRefines(defaultTTL, ListRun(defaultTTL, nextID, Front(calls)), Last(calls));
    }
  }

  // ... and gives the same reply to every call, even when identifiers repeat.
  lemma BackendsAgree(defaultTTL: int, nextID: int, calls: seq<Call>, i: nat)
    requires i < |calls|
    requires forall j :: 0 <= j < |calls| ==> WellFormed(calls[j])
    ensures ListReplyTo(defaultTTL, nextID, calls, i) == ReplyTo(defaultTTL, calls, i)
  {
    RunRefines(defaultTTL, nextID, calls[..i]);
    StepRefines(defaultTTL, ListRun(defaultTTL, nextID, calls[..i]), calls[i]);
  }

  // A token whose identifier is padded with a space would tell the backends apart, so the
  // agreement does rest on tokens being minted by Sign.
  lemma PaddedTokensDistinguishBackends(terms: Terms, now: int)
    requires IsRandomID("rg", terms.grantId) && IsRandomID("nonce", terms.nonce)
    requires 0 <= now <= terms.expiresAt && SECOND <= terms.expiresAt
    requires terms.targetRustDeskId == "" && terms.targetDeviceId == None && terms.allowedRelays == ["relay"]
    ensures var padded := terms.(grantId := terms.grantId + " ", expiresAt := Unix(terms.expiresAt));
            var req := ValidateRequest(Signed(padded), "", None, "");
            var row := Row(1, terms, now, Issued, None);
            && ListValidate(ListState(1, [row]), req, now, now).1 == Accepted(terms.grantId, Used, terms.expiresAt)
            && Validate(LedgerOf([row]), req, now, now).1 == Unknown(padded.grantId)
  {
    RandomIDIsTrimmed("rg", terms.grantId);
    RandomIDIsTrimmed("nonce", terms.nonce);
    var padded := terms.grantId + " ";
    PaddingIsTrimmed(terms.grantId);
    var row := Row(1, terms, now, Issued, None);
    assert [row][1..] == [];
    assert ListLookup(ListState(1, [row]), padded) == Some(GrantOf(row));
    assert padded !in LedgerOf([row]);
  }

  lemma PaddingIsTrimmed(id: string)
    requires id != "" && Trimmed(id)
    ensures TrimSpace(id + " ") == id
  {
    var padded := id + " ";
    assert padded[|padded| - 1] == ' ' && padded[..|padded| - 1] == id;
    assert TrimLeft(padded) == padded;
  }
}
