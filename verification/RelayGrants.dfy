// Relay grants: the records of api/internal/relaygrant/service.go and what issuing,
// looking up, finishing a validation and revoking do to a ledger of them.
module RelayGrants {
  import opened Wrappers
  import opened Text
  import opened Clock

  // int64 arithmetic wraps around.
  function WrapInt64(x: int): (r: int)
    ensures -0x8000_0000_0000_0000 <= r < 0x8000_0000_0000_0000
    ensures -0x8000_0000_0000_0000 <= x < 0x8000_0000_0000_0000 ==> r == x
  {
    (x + 0x8000_0000_0000_0000) % 0x1_0000_0000_0000_0000 - 0x8000_0000_0000_0000
  }

  datatype Status = Issued | Used | Expired | Revoked

  // Everything about a grant that never changes once it is issued.
  datatype Terms = Terms(
    grantId: string, userId: Option<int>, controllerDeviceId: Option<int>,
    targetDeviceId: Option<int>, targetRustDeskId: string, relayId: Option<int>,
    allowedRelays: seq<string>, expiresAt: int, nonce: string)

  datatype Grant = Grant(terms: Terms, status: Status, usedAt: Option<int>)

  type Ledger = map<string, Grant>

  ghost predicate Keyed(ledger: Ledger) {
    forall id :: id in ledger ==> ledger[id].terms.grantId == id
  }

  // A token either carries a payload signed with the service's key or does not verify.
  // The payload's expiresAt is in whole seconds.
  datatype Token = Signed(payload: Terms) | Unsigned(text: string)

  function Sign(terms: Terms): Token {
    Signed(terms.(expiresAt := Unix(terms.expiresAt)))
  }

  function Parse(token: Token): Option<Terms> {
    match token
    case Unsigned(_) => None
    case Signed(p) =>
      if TrimSpace(p.grantId) == "" || TrimSpace(p.nonce) == "" || p.expiresAt <= 0 then None else Some(p)
  }

  // Only `Sign` makes tokens that verify, and it signs identifiers from randomID.
  predicate Minted(token: Token) {
    token.Signed? ==> IsRandomID("rg", token.payload.grantId)
  }

  // ------------------------------------------------------------------------
  // Issuing.

  datatype IssueRequest = IssueRequest(
    userId: Option<int>, controllerDeviceId: Option<int>, targetDeviceId: Option<int>,
    targetRustDeskId: string, relayId: Option<int>, allowedRelays: seq<string>,
    ttlSeconds: int, authenticated: bool)

  datatype IssueResponse = IssueResponse(grantId: string, token: Token, expiresAt: int)

  datatype IssueError = NoIdentity | NoTarget | NoRelays | TTLOutOfRange | StoreRefused

  // A positive ttlSeconds replaces the default; the product is a wrapping int64.
  function EffectiveTTL(defaultTTL: int, ttlSeconds: int): int {
    if ttlSeconds > 0 then WrapInt64(ttlSeconds * SECOND) else defaultTTL
  }

  function CheckIssue(defaultTTL: int, req: IssueRequest): Option<IssueError> {
    var ttl := EffectiveTTL(defaultTTL, req.ttlSeconds);
    if req.userId.None? && req.controllerDeviceId.None? && !req.authenticated then Some(NoIdentity)
    else if req.targetDeviceId.None? && TrimSpace(req.targetRustDeskId) == "" then Some(NoTarget)
    else if |req.allowedRelays| == 0 then Some(NoRelays)
    else if ttl < MINUTE || ttl > 5 * MINUTE then Some(TTLOutOfRange)
    else None
  }

  function TermsOf(defaultTTL: int, req: IssueRequest, id: string, nonce: string, now: int): Terms {
    Terms(id, req.userId, req.controllerDeviceId, req.targetDeviceId, TrimSpace(req.targetRustDeskId),
          req.relayId, req.allowedRelays, now + EffectiveTTL(defaultTTL, req.ttlSeconds), nonce)
  }

  function Issue(defaultTTL: int, ledger: Ledger, req: IssueRequest, id: string, nonce: string, now: int)
    : (Ledger, Result<IssueResponse, IssueError>)
  {
    match CheckIssue(defaultTTL, req)
    case Some(error) => (ledger, Err(error))
    case None =>
      var terms := TermsOf(defaultTTL, req, id, nonce, now);
      (ledger[id := Grant(terms, Issued, None)], Ok(IssueResponse(id, Sign(terms), terms.expiresAt)))
  }

  // ------------------------------------------------------------------------
  // Validating: look the grant up, decide on the copy, write the status back.

  datatype ValidateRequest = ValidateRequest(
    token: Token, relay: string, targetDeviceId: Option<int>, targetRustDeskId: string)

  datatype Reason =
    | InvalidRelayGrant | UnknownRelayGrant | RevokedRelayGrant | ReplayedRelayGrant
    | ExpiredRelayGrant | TargetDeviceMismatch | RelayNotAllowed

  datatype Error = ErrInvalidToken | ErrExpired | ErrRevoked

  datatype Verdict =
    | Accepted(grantId: string, status: Status, expiresAt: int)
    | Rejected(grantId: string, rejectedStatus: Option<Status>, reason: Reason, error: Error)

  function Lookup(ledger: Ledger, id: string): Option<Grant> {
    if id in ledger then Some(ledger[id]) else None
  }

  datatype Decision = Refuse(reason: Reason, error: Error) | Lapse | Admit

  predicate TargetAgrees(req: ValidateRequest, terms: Terms) {
    && (req.targetDeviceId.Some? && terms.targetDeviceId.Some? ==> req.targetDeviceId == terms.targetDeviceId)
    && (req.targetRustDeskId != "" && terms.targetRustDeskId != "" ==> req.targetRustDeskId == terms.targetRustDeskId)
  }

  predicate RelayAllowed(req: ValidateRequest, terms: Terms) {
    req.relay == "" || req.relay in terms.allowedRelays
  }

  function Decide(req: ValidateRequest, payload: Terms, grant: Grant, now: int): Decision {
    if grant.terms.nonce != payload.nonce then Refuse(InvalidRelayGrant, ErrInvalidToken)
    else if grant.status == Revoked then Refuse(RevokedRelayGrant, ErrRevoked)
    else if grant.status == Used then Refuse(ReplayedRelayGrant, ErrInvalidToken)
    else if grant.status == Expired then Refuse(ExpiredRelayGrant, ErrExpired)
    else if grant.terms.expiresAt < now then Lapse
    else if !TargetAgrees(req, grant.terms) then Refuse(TargetDeviceMismatch, ErrInvalidToken)
    else if !RelayAllowed(req, grant.terms) then Refuse(RelayNotAllowed, ErrInvalidToken)
    else Admit
  }

  function Marked(grant: Grant, status: Status, usedAt: Option<int>): Grant {
    grant.(status := status, usedAt := if usedAt.Some? then usedAt else grant.usedAt)
  }

  // Writes to the stored grant; a grant that is not stored is only changed in the copy.
  function UpdateStatus(ledger: Ledger, grant: Grant, status: Status, usedAt: Option<int>): (Ledger, Grant) {
    var id := grant.terms.grantId;
    if id in ledger then (ledger[id := Marked(ledger[id], status, usedAt)], Marked(ledger[id], status, usedAt))
    else (ledger, Marked(grant, status, usedAt))
  }

  function Unknown(id: string): Verdict {
    Rejected(id, None, UnknownRelayGrant, ErrInvalidToken)
  }

  // The second half of a validation, on the copy found by the first.
  function Finish(
        ledger: Ledger, req: ValidateRequest, payload: Terms, found: Option<Grant>, checkedAt: int, usedAt: int)
    : (Ledger, Verdict)
  {
    match found
    case None => (ledger, Unknown(payload.grantId))
    case Some(grant) =>
      match Decide(req, payload, grant, checkedAt)
      case Refuse(reason, error) =>
        (ledger, Rejected(grant.terms.grantId, Some(grant.status), reason, error))
      case Lapse =>
        var (next, lapsed) := UpdateStatus(ledger, grant, Expired, None);
        (next, Rejected(lapsed.terms.grantId, Some(lapsed.status), ExpiredRelayGrant, ErrExpired))
      case Admit =>
        var (next, used) := UpdateStatus(ledger, grant, Used, Some(usedAt));
        (next, Accepted(used.terms.grantId, used.status, used.terms.expiresAt))
  }

  // The list backend trims the identifier it is asked for; the map backend does not.
  function SearchKey(trims: bool, id: string): string {
    if trims then TrimSpace(id) else id
  }

  function ValidateBy(
        trims: bool, ledger: Ledger, req: ValidateRequest, checkedAt: int, usedAt: int): (Ledger, Verdict) {
    match Parse(req.token)
    case None => (ledger, Rejected("", None, InvalidRelayGrant, ErrInvalidToken))
    case Some(payload) =>
      Finish(ledger, req, payload, Lookup(ledger, SearchKey(trims, payload.grantId)), checkedAt, usedAt)
  }

  function Validate(ledger: Ledger, req: ValidateRequest, checkedAt: int, usedAt: int): (Ledger, Verdict) {
    ValidateBy(false, ledger, req, checkedAt, usedAt)
  }

  lemma MintedKeysNeedNoTrimming(trims: bool, ledger: Ledger, req: ValidateRequest, checkedAt: int, usedAt: int)
    requires Minted(req.token)
    ensures ValidateBy(trims, ledger, req, checkedAt, usedAt) == Validate(ledger, req, checkedAt, usedAt)
  {
    if req.token.Signed? {
      RandomIDIsTrimmed("rg", req.token.payload.grantId);
    }
  }

  // ------------------------------------------------------------------------
  // Revoking.

  function Revoke(ledger: Ledger, grantId: string): (Ledger, bool) {
    var id := TrimSpace(grantId);
    if id == "" || id !in ledger then (ledger, false)
    else (ledger[id := Marked(ledger[id], Revoked, None)], true)
  }

  // ------------------------------------------------------------------------
  // Which requests are issued, and for how long.

  // The product of the requested seconds, less k full turns of int64, is a lifetime the
  // service accepts.
  predicate Lands(ttlSeconds: int, k: int) {
    MINUTE <= ttlSeconds * SECOND - k * 0x1_0000_0000_0000_0000 <= 5 * MINUTE
  }

  // The requested seconds lie in the range the service states.
  predicate InRange(ttlSeconds: int) {
    60 <= ttlSeconds <= 300
  }

  lemma WrappedRange(ttlSeconds: int)
    requires 0 < ttlSeconds
    ensures MINUTE <= WrapInt64(ttlSeconds * SECOND) <= 5 * MINUTE <==> exists k :: 0 <= k && Lands(ttlSeconds, k)
  {
    var x, w := ttlSeconds * SECOND, WrapInt64(ttlSeconds * SECOND);
    var turns := (x + 0x8000_0000_0000_0000) / 0x1_0000_0000_0000_0000;
    assert x == turns * 0x1_0000_0000_0000_0000 + w;
    if MINUTE <= w <= 5 * MINUTE {
      assert Lands(ttlSeconds, turns);
    }
    if k :| 0 <= k && Lands(ttlSeconds, k) {
      WrapsBy(x, k, x - k * 0x1_0000_0000_0000_0000);
    }
  }

  // A requested time to live is accepted exactly when its product lands in the range after
  // some number of turns, and so it is decided as stated exactly when no full turn brings
  // it there.
  lemma RequestedTTLExactly(defaultTTL: int, req: IssueRequest)
    requires 0 < req.ttlSeconds && CheckIssue(2 * MINUTE, req.(ttlSeconds := 0)) == None
    ensures CheckIssue(defaultTTL, req) == None <==> exists k :: 0 <= k && Lands(req.ttlSeconds, k)
    ensures CheckIssue(defaultTTL, req) in {None, Some(TTLOutOfRange)}
    ensures (CheckIssue(defaultTTL, req) == None <==> InRange(req.ttlSeconds))
            <==> !exists k :: 1 <= k && Lands(req.ttlSeconds, k)
  {
    WrappedRange(req.ttlSeconds);
    assert Lands(req.ttlSeconds, 0) <==> InRange(req.ttlSeconds);
    if k :| 1 <= k && Lands(req.ttlSeconds, k) {
      assert !InRange(req.ttlSeconds);
    }
  }

  // The smallest request decided otherwise than stated: up to there the range decides.
  const FIRST_OVERFLOW := 18_446_744_134

  lemma FirstOverflow(defaultTTL: int, req: IssueRequest)
    requires 0 < req.ttlSeconds <= FIRST_OVERFLOW && CheckIssue(2 * MINUTE, req.(ttlSeconds := 0)) == None
    ensures if req.ttlSeconds < FIRST_OVERFLOW
            then CheckIssue(defaultTTL, req) == if InRange(req.ttlSeconds) then None else Some(TTLOutOfRange)
            else CheckIssue(defaultTTL, req) == None
                 && EffectiveTTL(defaultTTL, req.ttlSeconds) == MINUTE + 290_448_384
  {
    RequestedTTLExactly(defaultTTL, req);
    if req.ttlSeconds == FIRST_OVERFLOW {
      WrapsBy(FIRST_OVERFLOW * SECOND, 1, MINUTE + 290_448_384);
    } else {
      forall k | 1 <= k
        ensures !Lands(req.ttlSeconds, k)
      {
      }
    }
  }

  // Short of overflowing int64, a requested time to live is granted as asked, and the
  // stated range decides whether it is accepted.
  lemma RequestedTTL(defaultTTL: int, req: IssueRequest)
    requires 0 < req.ttlSeconds <= 9_223_372_036
    requires CheckIssue(2 * MINUTE, req.(ttlSeconds := 0)) == None
    ensures EffectiveTTL(defaultTTL, req.ttlSeconds) == req.ttlSeconds * SECOND
    ensures CheckIssue(defaultTTL, req) == (if InRange(req.ttlSeconds) then None else Some(TTLOutOfRange))
  {
    assert req.ttlSeconds * SECOND < 0x8000_0000_0000_0000;
    FirstOverflow(defaultTTL, req);
  }

  // Larger requests land exactly on the lower bound: 2^55 + 60 seconds becomes one minute.
  lemma OverflowingTTLIsAccepted(req: IssueRequest)
    requires req.ttlSeconds == 0x80_0000_0000_0000 + 60
    requires req.userId.Some? && req.targetDeviceId.Some? && |req.allowedRelays| > 0
    ensures CheckIssue(2 * MINUTE, req) == None
    ensures EffectiveTTL(2 * MINUTE, req.ttlSeconds) == MINUTE
  {
    assert req.ttlSeconds * SECOND == 1_953_125 * 0x1_0000_0000_0000_0000 + MINUTE;
    WrapsBy(req.ttlSeconds * SECOND, 1_953_125, MINUTE);
  }

  lemma WrapsBy(x: int, turns: int, rest: int)
    requires x == turns * 0x1_0000_0000_0000_0000 + rest
    requires -0x8000_0000_0000_0000 <= rest < 0x8000_0000_0000_0000
    ensures WrapInt64(x) == rest
  {
  }

  // ------------------------------------------------------------------------
  // Issuing, over the request's own fields.

  predicate HasIdentity(req: IssueRequest) {
    req.userId.Some? || req.controllerDeviceId.Some? || req.authenticated
  }

  predicate HasTarget(req: IssueRequest) {
    req.targetDeviceId.Some? || !IsBlank(req.targetRustDeskId)
  }

  // The grant lives this long: as long as asked, less some turns of int64, or by default.
  ghost predicate LivesFor(defaultTTL: int, req: IssueRequest, ttl: int) {
    if req.ttlSeconds > 0
    then exists k :: 0 <= k && Lands(req.ttlSeconds, k) && ttl == req.ttlSeconds * SECOND - k * 0x1_0000_0000_0000_0000
    else MINUTE <= ttl <= 5 * MINUTE && ttl == defaultTTL
  }

  ghost predicate HasLifetime(defaultTTL: int, req: IssueRequest) {
    exists ttl :: LivesFor(defaultTTL, req, ttl)
  }

  lemma LifetimeIsEffective(defaultTTL: int, req: IssueRequest)
    ensures var ttl := EffectiveTTL(defaultTTL, req.ttlSeconds);
            HasLifetime(defaultTTL, req) <==> MINUTE <= ttl <= 5 * MINUTE
    ensures forall ttl :: LivesFor(defaultTTL, req, ttl) ==> ttl == EffectiveTTL(defaultTTL, req.ttlSeconds)
  {
    if req.ttlSeconds > 0 {
      var x, w := req.ttlSeconds * SECOND, WrapInt64(req.ttlSeconds * SECOND);
      var turns := (x + 0x8000_0000_0000_0000) / 0x1_0000_0000_0000_0000;
      assert x == turns * 0x1_0000_0000_0000_0000 + w;
      if MINUTE <= w <= 5 * MINUTE {
        assert Lands(req.ttlSeconds, turns) && LivesFor(defaultTTL, req, w);
      }
      forall ttl | LivesFor(defaultTTL, req, ttl)
        ensures ttl == w
      {
        var k :| 0 <= k && Lands(req.ttlSeconds, k) && ttl == x - k * 0x1_0000_0000_0000_0000;
        WrapsBy(x, k, ttl);
      }
    } else if MINUTE <= defaultTTL <= 5 * MINUTE {
      assert LivesFor(defaultTTL, req, defaultTTL);
    }
  }

  // A grant is issued exactly when an identity and a target are given, some relay is allowed
  // and the lifetime is in range; otherwise the error names the first of these that is
  // wanting and nothing changes.
  lemma IssuedExactlyWhen(defaultTTL: int, ledger: Ledger, req: IssueRequest, id: string, nonce: string, now: int)
    ensures var (next, reply) := Issue(defaultTTL, ledger, req, id, nonce, now);
            && (reply.Ok? <==> HasIdentity(req) && HasTarget(req) && |req.allowedRelays| > 0
                               && HasLifetime(defaultTTL, req))
            && (reply.Err? ==>
                  && next == ledger
                  && reply.error == if !HasIdentity(req) then NoIdentity
                                    else if !HasTarget(req) then NoTarget
                                    else if |req.allowedRelays| == 0 then NoRelays
                                    else TTLOutOfRange)
  {
    TrimsToNothing(req.targetRustDeskId);
    LifetimeIsEffective(defaultTTL, req);
  }

  // What is issued is what was asked for: an unused grant with the request's parties, target
  // and relays, the token's nonce and a lifetime from now. No other grant is touched.
  lemma IssuedAsAsked(defaultTTL: int, ledger: Ledger, req: IssueRequest, id: string, nonce: string, now: int)
    requires Issue(defaultTTL, ledger, req, id, nonce, now).1.Ok?
    ensures var (next, reply) := Issue(defaultTTL, ledger, req, id, nonce, now);
            && id in next && next.Keys == ledger.Keys + {id}
            && (forall other :: other in ledger && other != id ==> next[other] == ledger[other])
            && next[id].status == Issued && next[id].usedAt == None
            && var terms := next[id].terms;
            && terms.grantId == id && terms.nonce == nonce
            && terms.userId == req.userId && terms.controllerDeviceId == req.controllerDeviceId
            && terms.targetDeviceId == req.targetDeviceId && terms.relayId == req.relayId
            && terms.targetRustDeskId == TrimSpace(req.targetRustDeskId)
            && terms.allowedRelays == req.allowedRelays
            && LivesFor(defaultTTL, req, terms.expiresAt - now)
            && reply.value.grantId == id && reply.value.expiresAt == terms.expiresAt
            && reply.value.token == Signed(terms.(expiresAt := terms.expiresAt / SECOND))
  {
    LifetimeIsEffective(defaultTTL, req);
    var ttl := EffectiveTTL(defaultTTL, req.ttlSeconds);
    assert HasLifetime(defaultTTL, req);
    var lives :| LivesFor(defaultTTL, req, lives);
    assert lives == ttl;
  }

  // ------------------------------------------------------------------------
  // Validating, case by case.

  lemma ParsesExactlyWhen(token: Token)
    ensures Parse(token).Some? <==>
              && token.Signed? && !IsBlank(token.payload.grantId) && !IsBlank(token.payload.nonce)
              && 0 < token.payload.expiresAt
    ensures Parse(token).Some? ==> Parse(token).value == token.payload
  {
    if token.Signed? {
      TrimsToNothing(token.payload.grantId);
      TrimsToNothing(token.payload.nonce);
    }
  }

  // The request is for another device than the grant, as far as both sides say.
  predicate OtherTarget(req: ValidateRequest, terms: Terms) {
    || (req.targetDeviceId.Some? && terms.targetDeviceId.Some?
        && req.targetDeviceId.value != terms.targetDeviceId.value)
    || (req.targetRustDeskId != "" && terms.targetRustDeskId != "" && req.targetRustDeskId != terms.targetRustDeskId)
  }

  // A token that does not parse, or names no stored grant, is refused without a status.
  lemma RefusedUnknown(ledger: Ledger, req: ValidateRequest, checkedAt: int, usedAt: int)
    ensures var (next, verdict) := Validate(ledger, req, checkedAt, usedAt);
            && (Parse(req.token).None? ==>
                  next == ledger && verdict == Rejected("", None, InvalidRelayGrant, ErrInvalidToken))
            && (Parse(req.token).Some? && Parse(req.token).value.grantId !in ledger ==>
                  && next == ledger
                  && verdict == Rejected(Parse(req.token).value.grantId, None, UnknownRelayGrant, ErrInvalidToken))
  {
  }

  // A stored grant is refused for the first of these reasons that there is, and accepted if
  // there is none. Only a lapse and an acceptance change the ledger, and only that grant.
  lemma VerdictExactly(ledger: Ledger, req: ValidateRequest, checkedAt: int, usedAt: int)
    requires Keyed(ledger) && Parse(req.token).Some? && Parse(req.token).value.grantId in ledger
    ensures var (next, verdict) := Validate(ledger, req, checkedAt, usedAt);
            var payload := Parse(req.token).value;
            var id, grant := payload.grantId, ledger[payload.grantId];
            && (if payload.nonce != grant.terms.nonce
                then verdict == Rejected(id, Some(grant.status), InvalidRelayGrant, ErrInvalidToken)
                else if grant.status == Revoked
                then verdict == Rejected(id, Some(Revoked), RevokedRelayGrant, ErrRevoked)
                else if grant.status == Used
                then verdict == Rejected(id, Some(Used), ReplayedRelayGrant, ErrInvalidToken)
                else if grant.status == Expired || grant.terms.expiresAt < checkedAt
                then verdict == Rejected(id, Some(Expired), ExpiredRelayGrant, ErrExpired)
                else if OtherTarget(req, grant.terms)
                then verdict == Rejected(id, Some(Issued), TargetDeviceMismatch, ErrInvalidToken)
                else if req.relay != "" && req.relay !in grant.terms.allowedRelays
                then verdict == Rejected(id, Some(Issued), RelayNotAllowed, ErrInvalidToken)
                else verdict == Accepted(id, Used, grant.terms.expiresAt))
            && next.Keys == ledger.Keys
            && (forall other :: other in ledger && other != id ==> next[other] == ledger[other])
            && next[id].terms == grant.terms
            && (if verdict.Accepted? then next[id].status == Used && next[id].usedAt == Some(usedAt)
                else if payload.nonce == grant.terms.nonce && grant.status == Issued
                        && grant.terms.expiresAt < checkedAt
                then next[id].status == Expired && next[id].usedAt == grant.usedAt
                else next[id] == grant)
  {
  }

  // A revocation succeeds exactly when the trimmed identifier is that of a stored grant, and
  // changes that grant's status and nothing else.
  lemma RevokedExactlyWhen(ledger: Ledger, grantId: string)
    ensures var (next, revoked) := Revoke(ledger, grantId);
            var id := TrimSpace(grantId);
            && (revoked <==> !IsBlank(grantId) && id in ledger)
            && next.Keys == ledger.Keys
            && (forall other :: other in ledger && (other != id || !revoked) ==> next[other] == ledger[other])
            && (revoked ==> next[id].status == Revoked && next[id].terms == ledger[id].terms
                            && next[id].usedAt == ledger[id].usedAt)
  {
    TrimsToNothing(grantId);
  }
}
