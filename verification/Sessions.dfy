// Sign-in sessions: api/internal/auth/service.go over the session list of
// api/internal/repository/memory.go.
module Sessions {
  import opened Wrappers
  import opened Text
  import opened Clock

  datatype User = User(id: int, email: string, active: bool, lastLoginAt: Option<int>)

  // The two times are in whole seconds.
  datatype Claims = Claims(userId: int, email: string, issuedAt: int, expiresAt: int, nonce: string)

  // A token verifies only if the service signed it.
  datatype Token = Signed(claims: Claims) | Unsigned(text: string)

  // The stored token hash; different tokens have different hashes.
  datatype Hash = HashOf(token: Token)

  datatype Session = Session(id: int, userId: int, tokenHash: Hash, expiresAt: int, revokedAt: Option<int>)

  datatype State = State(nextID: int, users: seq<User>, sessions: seq<Session>)

  datatype AuthError = InvalidCredentials | InvalidToken | ExpiredToken | DisabledUser | SessionRefused

  datatype LoginResponse = LoginResponse(user: User, token: Token, expiresAt: int)

  datatype Authenticated = Authenticated(sessionId: int, user: User, claims: Claims, expiresAt: int)

  // ------------------------------------------------------------------------
  // Searching.

  function UserIndex(users: seq<User>, id: int): (i: nat)
    ensures i <= |users|
    ensures i < |users| ==> users[i].id == id
    ensures forall j :: 0 <= j < i ==> users[j].id != id
  {
    FirstWhere(users, (user: User) => user.id == id)
  }

  // Addresses are compared without regard to case and surrounding white space.
  function Folded(email: string): string {
    ToLower(TrimSpace(email))
  }

  function EmailIndex(users: seq<User>, email: string): (i: nat)
    ensures i <= |users|
    ensures i < |users| ==> ToLower(users[i].email) == Folded(email)
    ensures forall j :: 0 <= j < i ==> ToLower(users[j].email) != Folded(email)
  {
    FirstWhere(users, (user: User) => ToLower(user.email) == Folded(email))
  }

  function SessionIndex(sessions: seq<Session>, hash: Hash): (i: nat)
    ensures i <= |sessions|
    ensures i < |sessions| ==> sessions[i].tokenHash == hash
    ensures forall j :: 0 <= j < i ==> sessions[j].tokenHash != hash
  {
    FirstWhere(sessions, (session: Session) => session.tokenHash == hash)
  }

  function FindUser(s: State, id: int): Option<User> {
    var i := UserIndex(s.users, id);
    if i < |s.users| then Some(s.users[i]) else None
  }

  function FindSession(s: State, hash: Hash): Option<Session> {
    var i := SessionIndex(s.sessions, hash);
    if i < |s.sessions| then Some(s.sessions[i]) else None
  }

  // ------------------------------------------------------------------------
  // The operations.

  function Insert(s: State, userId: int, hash: Hash, expiresAt: int): Option<State> {
    if userId <= 0 || expiresAt == ZERO_TIME then None
    else
      var session := Session(s.nextID + 1, userId, hash, expiresAt, None);
      Some(s.(nextID := s.nextID + 1, sessions := [session] + s.sessions))
  }

  // The first revocation sticks.
  function Revoke(s: State, hash: Hash, at: int): State {
    var i := SessionIndex(s.sessions, hash);
    if i < |s.sessions| && s.sessions[i].revokedAt.None?
    then s.(sessions := s.sessions[i := s.sessions[i].(revokedAt := Some(at))]) else s
  }

  function RecordLogin(s: State, id: int, at: int): State {
    var i := UserIndex(s.users, id);
    if i < |s.users| then s.(users := s.users[i := s.users[i].(lastLoginAt := Some(at))]) else s
  }

  function Issue(ttl: int, user: User, now: int, nonce: string): Token {
    Signed(Claims(user.id, user.email, Unix(now), Unix(now + ttl), nonce))
  }

  function Parse(token: Token, now: int): Result<Claims, AuthError> {
    match token
    case Unsigned(_) => Err(InvalidToken)
    case Signed(claims) =>
      if claims.userId <= 0 || claims.expiresAt <= 0 then Err(InvalidToken)
      else if Unix(now) > claims.expiresAt then Err(ExpiredToken)
      else Ok(claims)
  }

  // A sign-in as it arrives, with what the password check says about the stored hash, the
  // two clock readings and the random part of the token.
  datatype Attempt = Attempt(
    email: string, password: string, verified: bool, recordedAt: int, now: int, nonce: string)

  // The user whose credentials these are, or why they are turned away.
  function Credentials(s: State, a: Attempt): Result<User, AuthError> {
    var i := EmailIndex(s.users, Folded(a.email));
    if Folded(a.email) == "" || a.password == "" || i == |s.users| || !a.verified then Err(InvalidCredentials)
    else if !s.users[i].active then Err(DisabledUser)
    else Ok(s.users[i])
  }

  function SignIn(ttl: int, s: State, a: Attempt): (State, Result<LoginResponse, AuthError>) {
    match Credentials(s, a)
    case Err(e) => (s, Err(e))
    case Ok(known) =>
      var recorded := RecordLogin(s, known.id, a.recordedAt);
      var found := FindUser(recorded, known.id);
      var user := if found.Some? then found.value else known;
      var token := Issue(ttl, user, a.now, a.nonce);
      match Insert(recorded, user.id, HashOf(token), a.now + ttl)
      case None => (recorded, Err(SessionRefused))
      case Some(next) => (next, Ok(LoginResponse(user, token, a.now + ttl)))
  }

  function Check(s: State, token: Token, parsedAt: int, checkedAt: int): Result<Authenticated, AuthError> {
    match Parse(token, parsedAt)
    case Err(e) => Err(e)
    case Ok(claims) =>
      match FindSession(s, HashOf(token))
      case None => Err(InvalidToken)
      case Some(session) =>
        if session.userId != claims.userId || session.revokedAt.Some? then Err(InvalidToken)
        else if session.expiresAt <= checkedAt then Err(ExpiredToken)
        else
          match FindUser(s, claims.userId)
          case None => Err(InvalidToken)
          case Some(user) =>
            if !user.active then Err(DisabledUser) else Ok(Authenticated(session.id, user, claims, session.expiresAt))
  }

  function SignOut(s: State, token: Token, parsedAt: int, revokedAt: int): State {
    if Parse(token, parsedAt).Err? then s else Revoke(s, HashOf(token), revokedAt)
  }

  // ------------------------------------------------------------------------
  // The store and the service.

  class Memory {
    var nextID: int
    var users: seq<User>
    var sessions: seq<Session>

    ghost function View(): State
      reads this
    {
      State(nextID, users, sessions)
    }

    constructor (nextID: int, users: seq<User>)
      ensures View() == State(nextID, users, [])
    {
      this.nextID := nextID;
      this.users := users;
      sessions := [];
    }

    method FindUserByEmail(email: string) returns (found: Option<User>)
      ensures var i := EmailIndex(users, email); found == if i < |users| then Some(users[i]) else None
    {
      for i := 0 to |users|
        invariant i <= EmailIndex(users, email)
      {
        if ToLower(users[i].email) == ToLower(TrimSpace(email)) {
          return Some(users[i]);
        }
      }
      found := None;
    }

    method FindUserByID(id: int) returns (found: Option<User>)
      ensures found == FindUser(View(), id)
    {
      for i := 0 to |users|
        invariant i <= UserIndex(users, id)
      {
        if users[i].id == id {
          return Some(users[i]);
        }
      }
      found := None;
    }

    method RecordUserLogin(id: int, at: int) returns (updated: Option<User>)
      modifies this
      ensures View() == RecordLogin(old(View()), id, at)
      ensures updated == FindUser(View(), id)
    {
      for i := 0 to |users|
        invariant i <= UserIndex(users, id) && View() == old(View())
      {
        if users[i].id == id {
          users := users[i := users[i].(lastLoginAt := Some(at))];
          SameUserIndex(old(users), i, users[i]);
          return Some(users[i]);
        }
      }
      updated := None;
    }

    method CreateSession(userId: int, hash: Hash, expiresAt: int) returns (created: bool)
      modifies this
      ensures match Insert(old(View()), userId, hash, expiresAt)
              case None => !created && View() == old(View())
              case Some(next) => created && View() == next
    {
      if userId <= 0 || expiresAt == ZERO_TIME {
        return false;
      }
      nextID := nextID + 1;
      sessions := [Session(nextID, userId, hash, expiresAt, None)] + sessions;
      created := true;
    }

    method FindSessionByTokenHash(hash: Hash) returns (found: Option<Session>)
      ensures found == FindSession(View(), hash)
    {
      for i := 0 to |sessions|
        invariant i <= SessionIndex(sessions, hash)
      {
        if sessions[i].tokenHash == hash {
          return Some(sessions[i]);
        }
      }
      found := None;
    }

    method RevokeSession(hash: Hash, at: int) returns (revoked: Option<Session>)
      modifies this
      ensures View() == Revoke(old(View()), hash, at)
      ensures revoked == FindSession(View(), hash)
    {
      for i := 0 to |sessions|
        invariant i <= SessionIndex(sessions, hash) && View() == old(View())
      {
        if sessions[i].tokenHash == hash {
          if sessions[i].revokedAt.None? {
            sessions := sessions[i := sessions[i].(revokedAt := Some(at))];
            SameSessionIndex(old(sessions), i, sessions[i]);
          }
          return Some(sessions[i]);
        }
      }
      revoked := None;
    }
  }

  lemma SameUserIndex(users: seq<User>, i: nat, user: User)
    requires i < |users| && UserIndex(users, user.id) == i
    ensures UserIndex(users[i := user], user.id) == i
  {
    var j := UserIndex(users[i := user], user.id);
    assert users[i := user][i] == user;
    assert forall k :: 0 <= k < i ==> users[i := user][k] == users[k];
  }

  lemma SameSessionIndex(sessions: seq<Session>, i: nat, session: Session)
    requires i < |sessions| && SessionIndex(sessions, session.tokenHash) == i
    ensures SessionIndex(sessions[i := session], session.tokenHash) == i
  {
    var j := SessionIndex(sessions[i := session], session.tokenHash);
    assert sessions[i := session][i] == session;
    assert forall k :: 0 <= k < i ==> sessions[i := session][k] == sessions[k];
  }

  lemma RecordedIsFound(s: State, user: User, at: int)
    requires user in s.users
    ensures FindUser(RecordLogin(s, user.id, at), user.id).Some?
    ensures FindUser(RecordLogin(s, user.id, at), user.id).value.id == user.id
    ensures RecordLogin(s, user.id, at).sessions == s.sessions
  {
    var i := UserIndex(s.users, user.id);
    SameUserIndex(s.users, i, s.users[i].(lastLoginAt := Some(at)));
  }

  class Service {
    const store: Memory
    const ttl: int

    constructor (store: Memory, ttl: int)
      ensures this.store == store && this.ttl == if ttl == 0 then 15 * 60 * SECOND else ttl
    {
      this.store := store;
      this.ttl := if ttl == 0 then 15 * 60 * SECOND else ttl;
    }

    method Login(a: Attempt) returns (r: Result<LoginResponse, AuthError>)
      modifies store
      ensures (store.View(), r) == SignIn(ttl, old(store.View()), a)
    {
      var email := ToLower(TrimSpace(a.email));
      if email == "" || a.password == "" {
        return Err(InvalidCredentials);
      }
      var found := store.FindUserByEmail(email);
      if found.None? || !a.verified {
        return Err(InvalidCredentials);
      }
      var user := found.value;
      if !user.active {
        return Err(DisabledUser);
      }
      assert Credentials(store.View(), a) == Ok(user);
      var updated := store.RecordUserLogin(user.id, a.recordedAt);
      if updated.Some? {
        user := updated.value;
      }
      var expiresAt := a.now + ttl;
      var token := Signed(Claims(user.id, user.email, Unix(a.now), Unix(expiresAt), a.nonce));
      var created := store.CreateSession(user.id, HashOf(token), expiresAt);
      if !created {
        return Err(SessionRefused);
      }
      r := Ok(LoginResponse(user, token, expiresAt));
    }

    method AuthenticateSessionToken(token: Token, parsedAt: int, checkedAt: int)
      returns (r: Result<Authenticated, AuthError>)
      ensures r == Check(store.View(), token, parsedAt, checkedAt)
    {
      var claims := Parse(token, parsedAt);
      if claims.Err? {
        return Err(claims.error);
      }
      var session := store.FindSessionByTokenHash(HashOf(token));
      if session.None? || session.value.userId != claims.value.userId {
        return Err(InvalidToken);
      }
      if session.value.revokedAt.Some? {
        return Err(InvalidToken);
      }
      if !(session.value.expiresAt > checkedAt) {
        return Err(ExpiredToken);
      }
      var user := store.FindUserByID(claims.value.userId);
      if user.None? {
        return Err(InvalidToken);
      }
      if !user.value.active {
        return Err(DisabledUser);
      }
      r := Ok(Authenticated(session.value.id, user.value, claims.value, session.value.expiresAt));
    }

    method Logout(token: Token, parsedAt: int, revokedAt: int)
      modifies store
      ensures store.View() == SignOut(old(store.View()), token, parsedAt, revokedAt)
    {
      var claims := Parse(token, parsedAt);
      if claims.Ok? {
        var _ := store.RevokeSession(HashOf(token), revokedAt);
      }
    }
  }

  // ------------------------------------------------------------------------
  // Whole runs.

  datatype Event =
    | LoginEvent(attempt: Attempt)
    | LogoutEvent(token: Token, parsedAt: int, revokedAt: int)
    | SetUser(id: int, email: string, active: bool)
    | AddUser(email: string)

  function Next(ttl: int, s: State, e: Event): State {
    match e
    case LoginEvent(attempt) => SignIn(ttl, s, attempt).0
    case LogoutEvent(token, parsedAt, revokedAt) => SignOut(s, token, parsedAt, revokedAt)
    case SetUser(id, email, active) =>
      var i := UserIndex(s.users, id);
      if i < |s.users| then s.(users := s.users[i := s.users[i].(email := email, active := active)]) else s
    case AddUser(email) =>
      s.(nextID := s.nextID + 1, users := s.users + [User(s.nextID + 1, email, true, None)])
  }

  function Run(ttl: int, start: State, events: seq<Event>): State {
    if events == [] then start else Next(ttl, Run(ttl, start, Front(events)), Last(events))
  }

  // What login i of the run handed out, if it succeeded.
  function LoginAt(ttl: int, start: State, events: seq<Event>, i: nat): Option<LoginResponse>
    requires i < |events|
  {
    match events[i]
    case LoginEvent(attempt) =>
      (match SignIn(ttl, Run(ttl, start, events[..i]), attempt).1
       case Ok(response) => Some(response)
       case Err(_) => None)
    case _ => None
  }

  ghost predicate FreshNonces(events: seq<Event>) {
    forall i, j :: 0 <= i < j < |events| && events[i].LoginEvent? && events[j].LoginEvent? ==>
      events[i].attempt.nonce != events[j].attempt.nonce
  }

  // Logging out after login i happened.
  ghost predicate LoggedOut(events: seq<Event>, i: nat, token: Token) {
    exists j :: i < j < |events| && events[j].LogoutEvent? && events[j].token == token
  }

  // ... and was not turned away for being past the claim's last second.
  ghost predicate Revoked(events: seq<Event>, i: nat, token: Token) {
    exists j :: i < j < |events| && LogsOut(events[j], token)
  }

  lemma NewestElsewhere(s: State, next: State, hash: Hash)
    requires next.sessions != [] && next.sessions == [next.sessions[0]] + s.sessions
    requires next.sessions[0].tokenHash != hash
    ensures FindSession(next, hash) == FindSession(s, hash)
  {
    var i, j := SessionIndex(s.sessions, hash), SessionIndex(next.sessions, hash);
    assert forall k :: 0 <= k < |s.sessions| ==> next.sessions[k + 1] == s.sessions[k];
    assert j > 0;
    assert i < |s.sessions| ==> next.sessions[i + 1].tokenHash == hash;
    assert j < |next.sessions| ==> s.sessions[j - 1].tokenHash == hash;
  }

  lemma LoginKeepsSession(ttl: int, s: State, a: Attempt, token: Token)
    requires token.Signed? && a.nonce != token.claims.nonce
    ensures FindSession(SignIn(ttl, s, a).0, HashOf(token)) == FindSession(s, HashOf(token))
  {
    var next := SignIn(ttl, s, a).0;
    if next.sessions != s.sessions {
      NewestElsewhere(s, next, HashOf(token));
    }
  }

  // One step keeps a session, and revokes it exactly when it is a logout of its token.
  lemma NextKeepsSession(ttl: int, s: State, e: Event, token: Token)
    requires FindSession(s, HashOf(token)).Some?
    requires e.LoginEvent? ==> token.Signed? && e.attempt.nonce != token.claims.nonce
    ensures var before := FindSession(s, HashOf(token)).value;
            var after := FindSession(Next(ttl, s, e), HashOf(token));
            && after.Some? && after.value.(revokedAt := None) == before.(revokedAt := None)
            && (after.value.revokedAt.Some? <==>
                  before.revokedAt.Some? || (e.LogoutEvent? && e.token == token && Parse(token, e.parsedAt).Ok?))
  {
    match e
    case LoginEvent(attempt) => LoginKeepsSession(ttl, s, attempt, token);
    case LogoutEvent(other, _, _) =>
      var sessions, after := s.sessions, Next(ttl, s, e).sessions;
      if after != sessions {
        var k := SessionIndex(sessions, HashOf(other));
        assert after == sessions[k := after[k]];
        RevokedElsewhere(sessions, k, after[k], HashOf(token));
      }
    case _ =>
  }

  lemma RevokedElsewhere(sessions: seq<Session>, k: nat, session: Session, hash: Hash)
    requires k < |sessions| && session.tokenHash == sessions[k].tokenHash
    ensures SessionIndex(sessions[k := session], hash) == SessionIndex(sessions, hash)
  {
    var after := sessions[k := session];
    assert forall j :: 0 <= j < |sessions| ==> after[j].tokenHash == sessions[j].tokenHash;
    var i, j := SessionIndex(sessions, hash), SessionIndex(after, hash);
    assert i < |sessions| ==> after[i].tokenHash == hash;
    assert j < |sessions| ==> sessions[j].tokenHash == hash;
  }

  // The state holds the session of this response to a login, revoked or not.
  ghost predicate Holds(ttl: int, s: State, response: LoginResponse, a: Attempt, sessionId: int, revoked: bool) {
    var token, session := response.token, FindSession(s, HashOf(response.token));
    && token.Signed? && token.claims.nonce == a.nonce
    && token.claims.userId == response.user.id && 0 < response.user.id
    && response.expiresAt == a.now + ttl && token.claims.expiresAt == Unix(response.expiresAt)
    && session.Some? && session.value.id == sessionId && session.value.userId == response.user.id
    && session.value.expiresAt == response.expiresAt
    && (session.value.revokedAt.Some? <==> revoked)
  }

  lemma LoginHolds(ttl: int, s: State, a: Attempt)
    requires SignIn(ttl, s, a).1.Ok?
    ensures Holds(ttl, SignIn(ttl, s, a).0, SignIn(ttl, s, a).1.value, a, s.nextID + 1, false)
  {
    var response := SignIn(ttl, s, a).1.value;
    var next := SignIn(ttl, s, a).0;
    assert next.sessions[0].tokenHash == HashOf(response.token);
    assert SessionIndex(next.sessions, HashOf(response.token)) == 0;
  }

  predicate LogsOut(e: Event, token: Token) {
    e.LogoutEvent? && e.token == token && Parse(token, e.parsedAt).Ok?
  }

  lemma NextHolds(
      ttl: int, s: State, e: Event, next: State, response: LoginResponse, a: Attempt, sessionId: int,
      before: bool, after: bool)
    requires Holds(ttl, s, response, a, sessionId, before) && (e.LoginEvent? ==> e.attempt.nonce != a.nonce)
    requires next == Next(ttl, s, e) && (after <==> before || LogsOut(e, response.token))
    ensures Holds(ttl, next, response, a, sessionId, after)
  {
    NextKeepsSession(ttl, s, e, response.token);
  }

  // Among the events before n.
  ghost predicate RevokedBefore(events: seq<Event>, i: nat, n: nat, token: Token)
    requires n <= |events|
  {
    exists j :: i < j < n && LogsOut(events[j], token)
  }

  // The state before event n of the run, or after all of them.
  function StateAt(ttl: int, start: State, events: seq<Event>, n: nat): State
    requires n <= |events|
  {
    Run(ttl, start, events[..n])
  }

  lemma OneMoreEvent(ttl: int, start: State, events: seq<Event>, n: nat)
    requires n < |events|
    ensures StateAt(ttl, start, events, n + 1) == Next(ttl, StateAt(ttl, start, events, n), events[n])
  {
    assert Front(events[..n + 1]) == events[..n];
  }

  lemma OneMoreLogout(events: seq<Event>, i: nat, n: nat, token: Token)
    requires i < n < |events|
    ensures RevokedBefore(events, i, n + 1, token)
            <==> RevokedBefore(events, i, n, token) || LogsOut(events[n], token)
  {
    if LogsOut(events[n], token) {
      assert i < n < n + 1;
    }
  }

  // The identifier that a session stored at login i gets.
  function NewSessionId(ttl: int, start: State, events: seq<Event>, i: nat): int
    requires i < |events|
  {
    StateAt(ttl, start, events, i).nextID + 1
  }

  // Login i signs in, with this response.
  ghost predicate LogsIn(ttl: int, start: State, events: seq<Event>, i: nat, response: LoginResponse)
    requires i < |events|
  {
    events[i].LoginEvent? && SignIn(ttl, StateAt(ttl, start, events, i), events[i].attempt).1 == Ok(response)
  }

  lemma LoginHeld(ttl: int, start: State, events: seq<Event>, i: nat, response: LoginResponse)
    requires i < |events| && LogsIn(ttl, start, events, i, response)
    ensures Holds(ttl, StateAt(ttl, start, events, i + 1), response, events[i].attempt,
                  NewSessionId(ttl, start, events, i), RevokedBefore(events, i, i + 1, response.token))
  {
    OneMoreEvent(ttl, start, events, i);
    assert !RevokedBefore(events, i, i + 1, response.token);
    LoginHolds(ttl, StateAt(ttl, start, events, i), events[i].attempt);
  }

  lemma {:induction false} SessionHeldUntil(
      ttl: int, start: State, events: seq<Event>, i: nat, n: nat, response: LoginResponse)
    requires FreshNonces(events) && i < n <= |events| && LogsIn(ttl, start, events, i, response)
    ensures Holds(ttl, StateAt(ttl, start, events, n), response, events[i].attempt,
                  NewSessionId(ttl, start, events, i), RevokedBefore(events, i, n, response.token))
    decreases n
  {
    if i == n - 1 {
      LoginHeld(ttl, start, events, i, response);
    } else {
      SessionHeldUntil(ttl, start, events, i, n - 1, response);
      OneMoreEvent(ttl, start, events, n - 1);
      OneMoreLogout(events, i, n - 1, response.token);
      NextHolds(ttl, StateAt(ttl, start, events, n - 1), events[n - 1], StateAt(ttl, start, events, n),
                response, events[i].attempt, NewSessionId(ttl, start, events, i),
                RevokedBefore(events, i, n - 1, response.token), RevokedBefore(events, i, n, response.token));
    }
  }

  // After any later events the session of a login is there, and revoked exactly when a
  // logout of its token was let through.
  lemma SessionSurvives(ttl: int, start: State, events: seq<Event>, i: nat)
    requires FreshNonces(events) && i < |events| && LoginAt(ttl, start, events, i).Some?
    ensures var response := LoginAt(ttl, start, events, i).value;
            && events[i].LoginEvent?
            && Holds(ttl, Run(ttl, start, events), response, events[i].attempt,
                     NewSessionId(ttl, start, events, i), Revoked(events, i, response.token))
  {
    var response := LoginAt(ttl, start, events, i).value;
    assert LogsIn(ttl, start, events, i, response);
    SessionHeldUntil(ttl, start, events, i, |events|, response);
    assert events[..|events|] == events;
    assert Revoked(events, i, response.token) <==> RevokedBefore(events, i, |events|, response.token);
  }

  // The whole-second claim never expires before the stored session does.
  lemma ClaimOutlivesSession(expiresAt: int, now: int)
    ensures Unix(now) > Unix(expiresAt) ==> expiresAt < now
  {
  }

  // Clock readings after login i, up to the final check, do not precede the login.
  ghost predicate ClockedFrom(events: seq<Event>, i: nat, parsedAt: int, checkedAt: int)
    requires i < |events| && events[i].LoginEvent?
  {
    && events[i].attempt.now <= parsedAt <= checkedAt
    && forall j :: i < j < |events| && events[j].LogoutEvent? ==>
         events[i].attempt.now <= events[j].parsedAt <= checkedAt
  }

  lemma NextKeepsIds(ttl: int, s: State, e: Event)
    ensures |s.users| <= |Next(ttl, s, e).users|
    ensures forall i :: 0 <= i < |s.users| ==> Next(ttl, s, e).users[i].id == s.users[i].id
  {
  }

  lemma NextKeepsUsers(ttl: int, s: State, e: Event, id: int)
    requires FindUser(s, id).Some?
    ensures FindUser(Next(ttl, s, e), id).Some?
  {
    NextKeepsIds(ttl, s, e);
    var users, i := Next(ttl, s, e).users, UserIndex(s.users, id);
    assert users[i].id == id;
  }

  // Users are never removed, so the one who logged in is still there.
  lemma {:induction false} UsersStay(ttl: int, start: State, events: seq<Event>, n: nat, id: int)
    requires n <= |events| && FindUser(Run(ttl, start, events[..n]), id).Some?
    ensures FindUser(Run(ttl, start, events), id).Some?
    decreases |events|
  {
    if n == |events| {
      assert events[..n] == events;
    } else {
      assert Front(events)[..n] == events[..n];
      UsersStay(ttl, start, Front(events), n, id);
      NextKeepsUsers(ttl, Run(ttl, start, Front(events)), Last(events), id);
    }
  }

  lemma UserLoggedIn(ttl: int, start: State, events: seq<Event>, i: nat)
    requires i < |events| && LoginAt(ttl, start, events, i).Some?
    ensures FindUser(Run(ttl, start, events), LoginAt(ttl, start, events, i).value.user.id).Some?
  {
    var s, a := Run(ttl, start, events[..i]), events[i].attempt;
    var k := EmailIndex(s.users, Folded(a.email));
    RecordedIsFound(s, s.users[k], a.recordedAt);
    UsersStay(ttl, start, events, i, s.users[k].id);
  }

  // Before the stored expiry, the token of a login parses.
  lemma StillParses(token: Token, expiresAt: int, now: int)
    requires token.Signed? && 0 < token.claims.userId && token.claims.expiresAt == Unix(expiresAt)
    requires SECOND <= expiresAt && now <= expiresAt
    ensures Parse(token, now).Ok?
  {
    ClaimOutlivesSession(expiresAt, now);
    assert Unix(expiresAt) >= 1;
  }

  // A session that is held is accepted exactly until it is a lifetime old, if it has not
  // been revoked and its user is active.
  lemma HeldIsAccepted(
      ttl: int, s: State, response: LoginResponse, a: Attempt, sessionId: int, revoked: bool,
      parsedAt: int, checkedAt: int)
    requires Holds(ttl, s, response, a, sessionId, revoked) && FindUser(s, response.user.id).Some?
    requires SECOND <= a.now <= parsedAt <= checkedAt
    ensures var user, answer := FindUser(s, response.user.id).value, Check(s, response.token, parsedAt, checkedAt);
            && (answer.Ok? <==> checkedAt < a.now + ttl && !revoked && user.active)
            && (answer.Ok? ==> answer.value == Authenticated(sessionId, user, response.token.claims, a.now + ttl))
  {
    if checkedAt < response.expiresAt {
      StillParses(response.token, response.expiresAt, parsedAt);
    }
  }

  // Before the stored expiry every logout is let through.
  lemma LogoutsRevoke(events: seq<Event>, i: nat, token: Token, expiresAt: int, parsedAt: int, checkedAt: int)
    requires i < |events| && events[i].LoginEvent? && ClockedFrom(events, i, parsedAt, checkedAt)
    requires token.Signed? && 0 < token.claims.userId && token.claims.expiresAt == Unix(expiresAt)
    requires SECOND <= events[i].attempt.now && checkedAt < expiresAt
    ensures LoggedOut(events, i, token) <==> Revoked(events, i, token)
  {
    if LoggedOut(events, i, token) {
      var j :| i < j < |events| && events[j].LogoutEvent? && events[j].token == token;
      StillParses(token, expiresAt, events[j].parsedAt);
      assert LogsOut(events[j], token);
    }
  }

  // A token handed out by login i is accepted later exactly until it is a lifetime old, as
  // long as nobody has logged it out and its user is active. The answer is then the session
  // of that login and the user as stored now.
  lemma SessionLifetime(ttl: int, start: State, events: seq<Event>, i: nat, parsedAt: int, checkedAt: int)
    requires FreshNonces(events) && i < |events| && LoginAt(ttl, start, events, i).Some?
    requires ClockedFrom(events, i, parsedAt, checkedAt) && SECOND <= events[i].attempt.now
    ensures var response := LoginAt(ttl, start, events, i).value;
            var s := Run(ttl, start, events);
            && FindUser(s, response.user.id).Some?
            && (Check(s, response.token, parsedAt, checkedAt).Ok? <==>
                  && checkedAt < events[i].attempt.now + ttl
                  && !LoggedOut(events, i, response.token)
                  && FindUser(s, response.user.id).value.active)
            && (Check(s, response.token, parsedAt, checkedAt).Ok? ==>
                  Check(s, response.token, parsedAt, checkedAt).value
                  == Authenticated(NewSessionId(ttl, start, events, i), FindUser(s, response.user.id).value,
                                   response.token.claims, events[i].attempt.now + ttl))
  {
    var s, response := Run(ttl, start, events), LoginAt(ttl, start, events, i).value;
    UserLoggedIn(ttl, start, events, i);
    SessionSurvives(ttl, start, events, i);
    HeldIsAccepted(ttl, s, response, events[i].attempt, NewSessionId(ttl, start, events, i),
                   Revoked(events, i, response.token), parsedAt, checkedAt);
    if checkedAt < response.expiresAt {
      LogoutsRevoke(events, i, response.token, response.expiresAt, parsedAt, checkedAt);
    }
  }

  // ------------------------------------------------------------------------
  // When a login succeeds.

  // User k is the first whose address this is, whatever its case and the space around it.
  ghost predicate HasAddress(users: seq<User>, email: string, k: int) {
    && 0 <= k < |users| && SameText(users[k].email, TrimSpace(email))
    && forall j :: 0 <= j < k ==> !SameText(users[j].email, TrimSpace(email))
  }

  lemma AddressIsFound(users: seq<User>, email: string)
    ensures var i := EmailIndex(users, Folded(email));
            if i < |users| then HasAddress(users, email, i) && forall k :: HasAddress(users, email, k) ==> k == i
            else forall k :: !HasAddress(users, email, k)
  {
    FoldsOnce(email);
    forall k | 0 <= k < |users|
      ensures ToLower(users[k].email) == Folded(Folded(email)) <==> SameText(users[k].email, TrimSpace(email))
    {
      LowerTells(users[k].email, TrimSpace(email));
    }
  }

  lemma BlankFoldsToNothing(email: string)
    ensures Folded(email) == "" <==> IsBlank(email)
  {
    TrimsToNothing(email);
  }

  // Address and password are given, somebody has the address and the password is theirs.
  ghost predicate Identified(s: State, a: Attempt, k: int) {
    !IsBlank(a.email) && |a.password| > 0 && HasAddress(s.users, a.email, k) && a.verified
  }

  lemma CredentialsExactly(s: State, a: Attempt)
    ensures forall k :: Identified(s, a, k) ==>
              Credentials(s, a) == if s.users[k].active then Ok(s.users[k]) else Err(DisabledUser)
    ensures (forall k :: !Identified(s, a, k)) ==> Credentials(s, a) == Err(InvalidCredentials)
  {
    AddressIsFound(s.users, a.email);
    BlankFoldsToNothing(a.email);
    var i := EmailIndex(s.users, Folded(a.email));
    if Credentials(s, a) != Err(InvalidCredentials) {
      assert Identified(s, a, i);
    }
  }

  lemma OneIsIdentified(s: State, a: Attempt, k: int, l: int)
    requires Identified(s, a, k) && Identified(s, a, l)
    ensures k == l
  {
    AddressIsFound(s.users, a.email);
  }

  lemma SignInKnown(ttl: int, s: State, a: Attempt, k: int)
    requires Identified(s, a, k)
    ensures var (next, r) := SignIn(ttl, s, a);
            if !s.users[k].active then next == s && r == Err(DisabledUser)
            else if 0 < s.users[k].id && a.now + ttl != ZERO_TIME then r.Ok?
            else r == Err(SessionRefused) && next.sessions == s.sessions
  {
    CredentialsExactly(s, a);
    if s.users[k].active {
      RecordedIsFound(s, s.users[k], a.recordedAt);
    }
  }

  lemma SignInUnknown(ttl: int, s: State, a: Attempt)
    requires forall k :: !Identified(s, a, k)
    ensures SignIn(ttl, s, a) == (s, Err(InvalidCredentials))
  {
    CredentialsExactly(s, a);
  }

  // A login succeeds exactly when address and password are given, the first user with the
  // address has this password and is active, and the store can keep a session. Otherwise the
  // error names what was wrong, and wrong credentials change nothing.
  lemma LoginExactlyWhen(ttl: int, s: State, a: Attempt)
    ensures var (next, r) := SignIn(ttl, s, a);
            && (r.Ok? <==> exists k :: Identified(s, a, k) && s.users[k].active
                             && 0 < s.users[k].id && a.now + ttl != ZERO_TIME)
            && ((forall k :: !Identified(s, a, k)) ==> next == s && r == Err(InvalidCredentials))
            && (forall k :: Identified(s, a, k) && !s.users[k].active ==> next == s && r == Err(DisabledUser))
            && (forall k :: Identified(s, a, k) && s.users[k].active && r.Err? ==>
                  r.error == SessionRefused && next.sessions == s.sessions)
  {
    if k :| Identified(s, a, k) {
      SignInKnown(ttl, s, a, k);
      forall l | Identified(s, a, l)
        ensures l == k
      {
        OneIsIdentified(s, a, k, l);
      }
    } else {
      SignInUnknown(ttl, s, a);
    }
  }

  // The response is for the user with the address, whose login is recorded; the session is
  // the newest one, for that user and the token handed out, and lives as long as the token.
  lemma LoginIsFor(ttl: int, s: State, a: Attempt, k: int)
    requires SignIn(ttl, s, a).1.Ok? && Identified(s, a, k)
    requires forall j :: 0 <= j < k ==> s.users[j].id != s.users[k].id
    ensures var (next, r) := SignIn(ttl, s, a);
            var user, response := s.users[k], r.value;
            && response.user == user.(lastLoginAt := Some(a.recordedAt))
            && next.users == s.users[k := response.user]
            && response.expiresAt == a.now + ttl
            && response.token == Signed(Claims(user.id, user.email, a.now / SECOND, (a.now + ttl) / SECOND, a.nonce))
            && next.nextID == s.nextID + 1
            && next.sessions == [Session(s.nextID + 1, user.id, HashOf(response.token), a.now + ttl, None)] + s.sessions
  {
    CredentialsExactly(s, a);
    var recorded := s.users[k].(lastLoginAt := Some(a.recordedAt));
    assert UserIndex(s.users, s.users[k].id) == k;
    SameUserIndex(s.users, k, recorded);
  }

  // ------------------------------------------------------------------------
  // Why a token is refused, and what a logout does.

  // Session k is the newest for this token.
  ghost predicate IsSession(s: State, token: Token, k: int) {
    0 <= k < |s.sessions| && s.sessions[k].tokenHash == HashOf(token)
    && forall j :: 0 <= j < k ==> s.sessions[j].tokenHash != HashOf(token)
  }

  // The claim verifies: it was signed, is for a user, and its last second is not over.
  predicate Verifies(token: Token, at: int) {
    token.Signed? && 0 < token.claims.userId && 0 < token.claims.expiresAt && at / SECOND <= token.claims.expiresAt
  }

  lemma ParsesExactlyWhen(token: Token, at: int)
    ensures Parse(token, at).Ok? <==> Verifies(token, at)
    ensures Parse(token, at).Ok? ==> Parse(token, at).value == token.claims
    ensures Parse(token, at).Err? ==>
              Parse(token, at).error
              == if token.Signed? && 0 < token.claims.userId && 0 < token.claims.expiresAt then ExpiredToken
                 else InvalidToken
  {
  }

  // A token is refused as invalid if it has no session of its own user that is not revoked,
  // as expired if that session is over, and for a user who is gone or not active.
  lemma RefusedFor(s: State, token: Token, parsedAt: int, checkedAt: int, k: int)
    requires Verifies(token, parsedAt) && IsSession(s, token, k)
    ensures var session, answer := s.sessions[k], Check(s, token, parsedAt, checkedAt);
            var user := FindUser(s, token.claims.userId);
            answer == if session.userId != token.claims.userId || session.revokedAt != None then Err(InvalidToken)
                      else if session.expiresAt <= checkedAt then Err(ExpiredToken)
                      else if user == None then Err(InvalidToken)
                      else if !user.value.active then Err(DisabledUser)
                      else Ok(Authenticated(session.id, user.value, token.claims, session.expiresAt))
  {
    assert SessionIndex(s.sessions, HashOf(token)) == k;
  }

  lemma RefusedWithoutSession(s: State, token: Token, parsedAt: int, checkedAt: int)
    requires Verifies(token, parsedAt) && forall k :: !IsSession(s, token, k)
    ensures Check(s, token, parsedAt, checkedAt) == Err(InvalidToken)
  {
    var i := SessionIndex(s.sessions, HashOf(token));
    assert i < |s.sessions| ==> IsSession(s, token, i);
  }

  // A logout revokes the newest session of a token that verifies, once, and nothing else.
  ghost predicate CanRevoke(s: State, token: Token, at: int, k: int) {
    Verifies(token, at) && IsSession(s, token, k) && s.sessions[k].revokedAt == None
  }

  lemma LogoutExactly(s: State, token: Token, parsedAt: int, revokedAt: int)
    ensures var next := SignOut(s, token, parsedAt, revokedAt);
            && next.users == s.users && next.nextID == s.nextID
            && (forall k :: CanRevoke(s, token, parsedAt, k) ==>
                  next.sessions == s.sessions[k := s.sessions[k].(revokedAt := Some(revokedAt))])
            && ((forall k :: !CanRevoke(s, token, parsedAt, k)) ==> next == s)
  {
    ParsesExactlyWhen(token, parsedAt);
    var i := SessionIndex(s.sessions, HashOf(token));
    assert i < |s.sessions| ==> IsSession(s, token, i);
    if i < |s.sessions| && s.sessions[i].revokedAt == None && Verifies(token, parsedAt) {
      assert CanRevoke(s, token, parsedAt, i);
    }
  }
}
