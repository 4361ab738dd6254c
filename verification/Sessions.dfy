/** Login sessions and the refresh tokens that prolong them. */
module Sessions {
  import opened Wrappers
  import opened Domain
  import opened FiniteSets

  type SessionId = nat
  type TokenId = nat

  const SESSION_LIFETIME := 90 * 24 * 3600
  const TOKEN_LIFETIME := 60 * 24 * 28 * 60
  const DEFAULT_MAX_SESSIONS := 10

  datatype Session = Session(user: UserId, created: int, lastActivity: int, expiresAt: int)
  datatype Token = Token(user: UserId, session: SessionId, created: int, expiry: int)

  /** The two tables; ids are drawn from counters, so that none is ever given out twice. */
  datatype State = State(
    sessions: map<SessionId, Session>,
    tokens: map<TokenId, Token>,
    nextSession: SessionId,
    nextToken: TokenId)

  const EMPTY := State(map[], map[], 0, 0)

  /** The configured maximum, or ten if none is configured. */
  function MaxSessions(configured: int): (m: nat)
    ensures m > 0
  {
    if configured > 0 then configured else DEFAULT_MAX_SESSIONS
  }

  /** The sessions of a user that have not expired. */
  function Active(s: State, user: UserId, now: int): set<SessionId> {
    set id | id in s.sessions && s.sessions[id].user == user && s.sessions[id].expiresAt > now
  }

  predicate IsActive(s: State, id: SessionId, now: int) {
    id in s.sessions && s.sessions[id].expiresAt > now
  }

  /** `victim` is one of the user's active sessions, and none of them has been idle for longer. */
  predicate IsOldest(s: State, user: UserId, now: int, victim: SessionId) {
    && victim in Active(s, user, now)
    && forall o | o in Active(s, user, now) :: s.sessions[victim].lastActivity <= s.sessions[o].lastActivity
  }

  /** Removes sessions together with their refresh tokens. */
  function RemoveSessions(s: State, ids: set<SessionId>): State {
    s.(sessions := s.sessions - ids,
       tokens := map t | t in s.tokens && !(s.tokens[t].session in ids && s.tokens[t].session in s.sessions) ::
                   s.tokens[t])
  }

  /** Evicts a session; unlike a logout this leaves its refresh token behind. */
  function Evict(s: State, victim: SessionId): State {
    s.(sessions := s.sessions - {victim})
  }

  function InsertSession(s: State, user: UserId, now: int): State {
    s.(sessions := s.sessions[s.nextSession := Session(user, now, now, now + SESSION_LIFETIME)],
       nextSession := s.nextSession + 1)
  }

  function InsertToken(s: State, user: UserId, session: SessionId, now: int): State {
    s.(tokens := s.tokens[s.nextToken := Token(user, session, now, now + TOKEN_LIFETIME)],
       nextToken := s.nextToken + 1)
  }

  function Touch(s: State, id: SessionId, now: int): State
    requires id in s.sessions
  {
    s.(sessions := s.sessions[id := s.sessions[id].(lastActivity := now)])
  }

  // ----- requests ---------------------------------------------------------------------------------------

  datatype Logout = Current | All | Other(id: SessionId)

  /**
    `userOk` says whether the user of the token exists and is enabled; `session` of a logout is the
    one the request was made in. `Authenticate` is what every request does first, `user` being the
    one its access token names.
   */
  datatype Event =
    | Login(user: UserId, now: int)
    | Authenticate(session: SessionId, user: UserId, userOk: bool, now: int)
    | Refresh(token: TokenId, userOk: bool, now: int)
    | LogOut(session: SessionId, what: Logout, now: int)
    | RevokeUser(user: UserId, now: int)
    | ExpireSessions(now: int)
    | ExpireTokens(now: int)

  /** Whether the refresh of a token succeeds. */
  predicate Honoured(s: State, token: TokenId, userOk: bool, now: int) {
    && token in s.tokens
    && s.tokens[token].expiry >= now
    && userOk
    && IsActive(s, s.tokens[token].session, now)
  }

  /** Whether a request with that access token is let through. */
  predicate LetIn(s: State, session: SessionId, user: UserId, userOk: bool, now: int) {
    IsActive(s, session, now) && s.sessions[session].user == user && userOk
  }

  function LoggedIn(s: State, user: UserId, now: int): State {
    var s1 := InsertSession(s, user, now);
    InsertToken(s1, user, s.nextSession, now)
  }

  function Refreshed(s: State, token: TokenId, now: int): State
    requires token in s.tokens && s.tokens[token].session in s.sessions
  {
    var t := s.tokens[token];
    var s1 := InsertToken(Touch(s, t.session, now), t.user, t.session, now);
    s1.(tokens := s1.tokens - {token})
  }

  /** The sessions that a logout ends. */
  function LogoutTargets(s: State, session: SessionId, what: Logout, now: int): set<SessionId> {
    if !IsActive(s, session, now) then {}
    else
      match what
      case Current => {session}
      case All => set id | id in s.sessions && s.sessions[id].user == s.sessions[session].user
      case Other(id) =>
        if IsActive(s, id, now) && s.sessions[id].user == s.sessions[session].user then {id} else {}
  }

  /** What may happen to the tables; only the choice among equally idle sessions is left open. */
  ghost predicate Next(max: nat, s: State, e: Event, s': State) {
    match e
    case Login(user, now) =>
      if |Active(s, user, now)| >= max && Active(s, user, now) != {} then
        exists victim :: IsOldest(s, user, now, victim) && s' == LoggedIn(Evict(s, victim), user, now)
      else s' == LoggedIn(s, user, now)
    case Authenticate(session, user, userOk, now) =>
      s' == if LetIn(s, session, user, userOk, now) then Touch(s, session, now) else s
    case Refresh(token, userOk, now) =>
      s' == if Honoured(s, token, userOk, now) then Refreshed(s, token, now) else s
    case LogOut(session, what, now) => s' == RemoveSessions(s, LogoutTargets(s, session, what, now))
    case RevokeUser(user, now) => s' == RemoveSessions(s, set id | id in s.sessions && s.sessions[id].user == user)
    case ExpireSessions(now) => s' == RemoveSessions(s, set id | id in s.sessions && s.sessions[id].expiresAt < now)
    case ExpireTokens(now) =>
      s' == s.(tokens := map t | t in s.tokens && !(s.tokens[t].expiry < now) :: s.tokens[t])
  }

  // ----- the tables as an object ---------------------------------------------------------------------------

  lemma {:induction false} OldestExists(s: State, user: UserId, now: int, ids: set<SessionId>)
    returns (victim: SessionId)
    requires ids != {} && ids <= Active(s, user, now)
    ensures victim in ids && forall o | o in ids :: s.sessions[victim].lastActivity <= s.sessions[o].lastActivity
    decreases ids
  {
    victim :| victim in ids;
    if ids != {victim} {
      var next := OldestExists(s, user, now, ids - {victim});
      if s.sessions[next].lastActivity < s.sessions[victim].lastActivity {
        victim := next;
      }
    }
  }

  class AuthStore {
    var sessions: map<SessionId, Session>
    var tokens: map<TokenId, Token>
    var nextSession: SessionId
    var nextToken: TokenId

    function Snapshot(): State
      reads this
    {
      State(sessions, tokens, nextSession, nextToken)
    }

    constructor ()
      ensures Snapshot() == EMPTY
    {
      sessions, tokens, nextSession, nextToken := map[], map[], 0, 0;
    }

    method GetActiveSessionCount(user: UserId, now: int) returns (count: nat)
      ensures count == |Active(Snapshot(), user, now)|
    {
      count := |set id | id in sessions && sessions[id].user == user && sessions[id].expiresAt > now|;
      assert Active(Snapshot(), user, now) ==
             set id | id in sessions && sessions[id].user == user && sessions[id].expiresAt > now;
    }

    /** Removes exactly one session, of the longest idle ones among the user's active sessions, if any. */
    method DeleteOldestSession(user: UserId, now: int) returns (victim: Option<SessionId>)
      modifies this`sessions
      ensures victim == None <==> Active(old(Snapshot()), user, now) == {}
      ensures victim == None ==> sessions == old(sessions)
      ensures victim.Some? ==>
                IsOldest(old(Snapshot()), user, now, victim.value) && sessions == old(sessions) - {victim.value}
    {
      var s := Snapshot();
      var active := Active(s, user, now);
      if active == {} {
        return None;
      }
      ghost var oldest := OldestExists(s, user, now, active);
      var id :| id in active && forall o | o in active :: s.sessions[id].lastActivity <= s.sessions[o].lastActivity;
      sessions := sessions - {id};
      victim := Some(id);
    }

    /** Session rows and the tokens of those rows go together. */
    method DeleteSessions(ids: set<SessionId>)
      modifies this
      ensures Snapshot() == RemoveSessions(old(Snapshot()), ids)
    {
      var deleted := ids * sessions.Keys;
      sessions := sessions - ids;
      tokens := map t | t in tokens && tokens[t].session !in deleted :: tokens[t];
    }

    method CreateSession(user: UserId, configuredMax: int, now: int) returns (id: SessionId)
      modifies this
      ensures id == old(nextSession)
      ensures
        var was, active := old(Snapshot()), Active(old(Snapshot()), user, now);
        if |active| >= MaxSessions(configuredMax) then
          exists victim ::
            IsOldest(was, user, now, victim) && Snapshot() == InsertSession(Evict(was, victim), user, now)
        else Snapshot() == InsertSession(was, user, now)
    {
      var maxSessions := DEFAULT_MAX_SESSIONS;
      if configuredMax > 0 {
        maxSessions := configuredMax;
      }
      var count := GetActiveSessionCount(user, now);
      if count >= maxSessions {
        ghost var was := Snapshot();
        var victim := DeleteOldestSession(user, now);
        assert Snapshot() == Evict(was, victim.value);
      }
      id := nextSession;
      sessions := sessions[id := Session(user, now, now, now + SESSION_LIFETIME)];
      nextSession := nextSession + 1;
    }

    method CreateRefreshToken(user: UserId, session: SessionId, now: int) returns (id: TokenId)
      modifies this`tokens, this`nextToken
      ensures Snapshot() == InsertToken(old(Snapshot()), user, session, now) && id == old(nextToken)
    {
      id := nextToken;
      tokens := tokens[id := Token(user, session, now, now + TOKEN_LIFETIME)];
      nextToken := nextToken + 1;
    }

    /** A successful login: a session, with room made for it if need be, and its refresh token. */
    method CreateAndSendJWT(user: UserId, configuredMax: int, now: int) returns (token: TokenId)
      modifies this
      ensures Next(MaxSessions(configuredMax), old(Snapshot()), Login(user, now), Snapshot())
      ensures token == old(nextToken)
    {
      var session := CreateSession(user, configuredMax, now);
      token := CreateRefreshToken(user, session, now);
    }

    /** Every request that is let through counts as activity of its session. */
    method VerifyAuth(session: SessionId, user: UserId, userOk: bool, now: int) returns (ok: bool)
      modifies this`sessions
      ensures Next(0, old(Snapshot()), Authenticate(session, user, userOk, now), Snapshot())
      ensures ok <==> session in old(sessions) && now < old(sessions)[session].expiresAt
                      && old(sessions)[session].user == user && userOk
    {
      if !(session in sessions && sessions[session].expiresAt > now) {
        return false;
      }
      if sessions[session].user != user || !userOk {
        return false;
      }
      sessions := sessions[session := sessions[session].(lastActivity := now)];
      ok := true;
    }

    method RefreshAccessToken(token: TokenId, userOk: bool, now: int) returns (newToken: Option<TokenId>)
      modifies this
      ensures Next(0, old(Snapshot()), Refresh(token, userOk, now), Snapshot())
      ensures newToken == if Honoured(old(Snapshot()), token, userOk, now) then Some(old(nextToken)) else None
    {
      if token !in tokens {
        return None;
      }
      var refreshToken := tokens[token];
      if refreshToken.expiry < now {
        return None;
      }
      if !userOk {
        return None;
      }
      if !(refreshToken.session in sessions && sessions[refreshToken.session].expiresAt > now) {
        return None;
      }
      var session := refreshToken.session;
      sessions := sessions[session := sessions[session].(lastActivity := now)];
      var id := CreateRefreshToken(refreshToken.user, session, now);
      tokens := tokens - {token};
      newToken := Some(id);
    }

    /** Whether a session was ended: the caller's own, all of the user's, or another of the user's. */
    method DoLogout(session: SessionId, what: Logout, now: int) returns (ok: bool)
      modifies this
      ensures Next(0, old(Snapshot()), LogOut(session, what, now), Snapshot())
    {
      if !(session in sessions && sessions[session].expiresAt > now) {
        assert RemoveSessions(Snapshot(), {}) == Snapshot();
        return false;
      }
      var user := sessions[session].user;
      match what {
        case Other(id) =>
          if !(id in sessions && sessions[id].expiresAt > now && sessions[id].user == user) {
            assert RemoveSessions(Snapshot(), {}) == Snapshot();
            return false;
          }
          DeleteSessions({id});
        case All => DeleteSessions(set id | id in sessions && sessions[id].user == user);
        case Current => DeleteSessions({session});
      }
      ok := true;
    }

    /** Ends all sessions of a user, as after a password reset. */
    method DeleteOfUser(user: UserId, now: int)
      modifies this
      ensures Next(0, old(Snapshot()), RevokeUser(user, now), Snapshot())
    {
      DeleteSessions(set id | id in sessions && sessions[id].user == user);
    }

    method DeleteExpiredSessions(now: int)
      modifies this
      ensures Next(0, old(Snapshot()), ExpireSessions(now), Snapshot())
    {
      DeleteSessions(set id | id in sessions && sessions[id].expiresAt < now);
    }

    method DeleteExpiredTokens(now: int)
      modifies this`tokens
      ensures Next(0, old(Snapshot()), ExpireTokens(now), Snapshot())
    {
      tokens := map t | t in tokens && !(tokens[t].expiry < now) :: tokens[t];
    }
  }

  /** For any content of the tables: removing sessions leaves no token of a removed session. */
  lemma RemovalLeavesNoToken(s: State, ids: set<SessionId>, t: TokenId)
    requires t in RemoveSessions(s, ids).tokens
    ensures !(s.tokens[t].session in s.sessions && s.tokens[t].session !in RemoveSessions(s, ids).sessions)
    ensures RemoveSessions(s, ids).tokens[t] == s.tokens[t]
  {
  }

  // ----- runs --------------------------------------------------------------------------------------------------

  /** A run: `states[i + 1]` is reached from `states[i]` by `events[i]`; clocks do not run backwards. */
  ghost predicate IsRun(max: nat, states: seq<State>, events: seq<Event>) {
    && |states| == |events| + 1
    && states[0] == EMPTY
    && (forall i | 0 <= i < |events| :: Next(max, states[i], events[i], states[i + 1]))
    && forall i, j | 0 <= i < j < |events| :: events[i].now <= events[j].now
  }

  predicate OneTokenPerSession(s: State) {
    forall t, u | t in s.tokens && u in s.tokens && s.tokens[t].session == s.tokens[u].session :: t == u
  }

  predicate Numbered(s: State) {
    && (forall id | id in s.sessions :: id < s.nextSession)
    && (forall t | t in s.tokens :: t < s.nextToken && s.tokens[t].session < s.nextSession)
  }

  /** At no instant from `now` on does a user have more than `max` active sessions. */
  ghost predicate WithinLimit(max: nat, s: State, now: int) {
    forall user, t | t >= now :: |Active(s, user, t)| <= max
  }

  lemma ShrinkingKeepsLimit(max: nat, s: State, s': State, now: int, now': int)
    requires WithinLimit(max, s, now) && now <= now'
    requires forall id | id in s'.sessions :: id in s.sessions && s'.sessions[id].user == s.sessions[id].user
                                              && s'.sessions[id].expiresAt == s.sessions[id].expiresAt
    ensures WithinLimit(max, s', now')
  {
    forall user, t | t >= now'
      ensures |Active(s', user, t)| <= max
    {
      SubsetSize(Active(s', user, t), Active(s, user, t));
    }
  }

  /** A new session fits if the user has fewer than the maximum. */
  lemma InsertKeepsLimit(max: nat, s: State, user: UserId, now: int)
    requires WithinLimit(max, s, now) && |Active(s, user, now)| < max && s.nextSession !in s.sessions
    ensures WithinLimit(max, LoggedIn(s, user, now), now)
  {
    var s' := LoggedIn(s, user, now);
    forall u, t | t >= now
      ensures |Active(s', u, t)| <= max
    {
      if u == user {
        SubsetSize(Active(s', u, t), Active(s, u, now) + {s.nextSession});
      } else {
        SubsetSize(Active(s', u, t), Active(s, u, t));
      }
    }
  }

  lemma StepKeepsLimit(max: nat, s: State, e: Event, s': State, now: int)
    requires max > 0 && Next(max, s, e, s') && Numbered(s)
    requires WithinLimit(max, s, now) && now <= e.now
    ensures WithinLimit(max, s', e.now)
  {
    match e {
      case Login(user, t) =>
        ShrinkingKeepsLimit(max, s, s, now, t);
        if |Active(s, user, t)| >= max {
          assert Active(s, user, t) != {};
          var victim :| IsOldest(s, user, t, victim) && s' == LoggedIn(Evict(s, victim), user, t);
          var evicted := Evict(s, victim);
          ShrinkingKeepsLimit(max, s, evicted, now, t);
          assert Active(evicted, user, t) == Active(s, user, t) - {victim};
          InsertKeepsLimit(max, evicted, user, t);
        } else {
          InsertKeepsLimit(max, s, user, t);
        }
      case _ => ShrinkingKeepsLimit(max, s, s', now, e.now);
    }
  }

  lemma StepKeepsTables(max: nat, s: State, e: Event, s': State)
    requires Next(max, s, e, s') && Numbered(s) && OneTokenPerSession(s)
    ensures Numbered(s') && OneTokenPerSession(s')
    ensures s.nextSession <= s'.nextSession && s.nextToken <= s'.nextToken
  {
  }

  lemma {:induction false} RunKeeps(max: nat, states: seq<State>, events: seq<Event>, n: nat)
    requires max > 0 && IsRun(max, states, events) && n <= |events|
    ensures Numbered(states[n]) && OneTokenPerSession(states[n])
    ensures forall now | (n > 0 ==> events[n - 1].now <= now) :: WithinLimit(max, states[n], now)
    decreases n
  {
    if n == 0 {
      assert forall user, t :: Active(EMPTY, user, t) == {};
    } else {
      RunKeeps(max, states, events, n - 1);
      var e := events[n - 1];
      assert n > 1 ==> events[n - 2].now <= e.now;
      StepKeepsTables(max, states[n - 1], e, states[n]);
      StepKeepsLimit(max, states[n - 1], e, states[n], e.now);
      forall now | e.now <= now
        ensures WithinLimit(max, states[n], now)
      {
        ShrinkingKeepsLimit(max, states[n], states[n], e.now, now);
      }
    }
  }

  /** In no run does a user ever have more active sessions than the maximum. */
  lemma NeverTooManySessions(max: nat, states: seq<State>, events: seq<Event>, n: nat, user: UserId, now: int)
    requires max > 0 && IsRun(max, states, events) && n <= |events|
    requires n > 0 ==> events[n - 1].now <= now
    ensures |Active(states[n], user, now)| <= max
  {
    RunKeeps(max, states, events, n);
    assert WithinLimit(max, states[n], now);
  }

  /** In no run does a session ever have two refresh tokens. */
  lemma NeverTwoTokens(max: nat, states: seq<State>, events: seq<Event>, n: nat, t: TokenId, u: TokenId)
    requires max > 0 && IsRun(max, states, events) && n <= |events|
    requires t in states[n].tokens && u in states[n].tokens
    requires states[n].tokens[t].session == states[n].tokens[u].session
    ensures t == u
  {
    RunKeeps(max, states, events, n);
  }

  // ----- what is gone stays gone ----------------------------------------------------------------------------------

  predicate SessionGone(s: State, id: SessionId) {
    id < s.nextSession && id !in s.sessions
  }

  predicate TokenGone(s: State, t: TokenId) {
    t < s.nextToken && t !in s.tokens
  }

  lemma StepKeepsGone(max: nat, s: State, e: Event, s': State, id: SessionId, t: TokenId)
    requires Next(max, s, e, s')
    ensures SessionGone(s, id) ==> SessionGone(s', id)
    ensures TokenGone(s, t) ==> TokenGone(s', t)
    ensures t in s.tokens && t in s'.tokens ==> s'.tokens[t] == s.tokens[t] || t == s.nextToken
  {
  }

  lemma {:induction false} GoneStaysGone(
      max: nat, states: seq<State>, events: seq<Event>, m: nat, n: nat, id: SessionId, t: TokenId)
    requires IsRun(max, states, events) && m <= n <= |events|
    ensures SessionGone(states[m], id) ==> SessionGone(states[n], id)
    ensures TokenGone(states[m], t) ==> TokenGone(states[n], t)
    decreases n
  {
    if m < n {
      GoneStaysGone(max, states, events, m, n - 1, id, t);
      StepKeepsGone(max, states[n - 1], events[n - 1], states[n], id, t);
    }
  }

  /** The refresh that the run makes at step `n` succeeds. */
  predicate Redeems(states: seq<State>, events: seq<Event>, n: nat, t: TokenId)
    requires n < |events| && n < |states|
  {
    events[n].Refresh? && events[n].token == t && Honoured(states[n], t, events[n].userOk, events[n].now)
  }

  /** Each token is redeemed at most once. */
  lemma RedeemedAtMostOnce(max: nat, states: seq<State>, events: seq<Event>, m: nat, n: nat, t: TokenId)
    requires max > 0 && IsRun(max, states, events) && m < n < |events|
    requires Redeems(states, events, m, t)
    ensures !Redeems(states, events, n, t)
  {
    RunKeeps(max, states, events, m);
    assert Next(max, states[m], events[m], states[m + 1]);
    assert TokenGone(states[m + 1], t);
    GoneStaysGone(max, states, events, m + 1, n, 0, t);
  }

  /** Once a session is gone, by logout, expiry or eviction, no token of it is honoured any more. */
  lemma NoTokenOutlivesItsSession(
      max: nat, states: seq<State>, events: seq<Event>, m: nat, n: nat, id: SessionId, t: TokenId, userOk: bool,
      now: int)
    requires IsRun(max, states, events) && m <= n <= |events|
    requires SessionGone(states[m], id)
    requires t in states[n].tokens && states[n].tokens[t].session == id
    ensures !Honoured(states[n], t, userOk, now)
  {
    GoneStaysGone(max, states, events, m, n, id, t);
  }

  /** An eviction leaves the token of the evicted session behind, though it is of no use. */
  lemma EvictionLeavesToken(s: State, victim: SessionId, t: TokenId, userOk: bool, now: int)
    requires Numbered(s) && victim in s.sessions && t in s.tokens && s.tokens[t].session == victim
    ensures t in Evict(s, victim).tokens && !Honoured(Evict(s, victim), t, userOk, now)
    ensures SessionGone(Evict(s, victim), victim)
  {
  }
}
