/** How sessions begin and end over a run, and for how long a refresh token is good. */
module Tokens {
  import opened Wrappers
  import opened Domain
  import opened Sessions

  const NINETY_DAYS := 7_776_000
  const TWENTY_EIGHT_DAYS := 2_419_200

  // ----- sessions, step by step ---------------------------------------------------------------------------

  /** The session is there and has time left. */
  predicate Running(s: State, id: SessionId, now: int) {
    id in s.sessions && now < s.sessions[id].expiresAt
  }

  function RunningOf(s: State, user: UserId, now: int): set<SessionId> {
    set id | id in s.sessions && s.sessions[id].user == user && now < s.sessions[id].expiresAt
  }

  /** A login starts one session of ninety days and gives it a token of twenty-eight. */
  lemma LoginStarts(max: nat, s: State, user: UserId, now: int, s': State)
    requires Next(max, s, Login(user, now), s') && Numbered(s)
    ensures s.nextSession !in s.sessions && s.nextToken !in s.tokens
    ensures s.nextSession in s'.sessions
    ensures s'.sessions[s.nextSession] == Session(user, now, now, now + NINETY_DAYS)
    ensures s'.sessions.Keys <= s.sessions.Keys + {s.nextSession}
    ensures s'.tokens == s.tokens[s.nextToken := Token(user, s.nextSession, now, now + TWENTY_EIGHT_DAYS)]
  {
  }

  /**
    A session ends with a step exactly if it is logged out, revoked or removed for its age; or, at a login
    of a user who has the maximum running, as one of that user's running sessions that has been idle longest.
   */
  lemma SessionEndsBy(max: nat, s: State, e: Event, s': State, id: SessionId)
    requires max > 0 && Next(max, s, e, s') && Numbered(s) && id in s.sessions
    ensures
      match e
      case Login(user, now) =>
        && (id !in s'.sessions ==>
              && |RunningOf(s, user, now)| >= max && id in RunningOf(s, user, now)
              && forall o | o in RunningOf(s, user, now) :: s.sessions[id].lastActivity <= s.sessions[o].lastActivity)
        && (|RunningOf(s, user, now)| >= max ==> exists o :: o in s.sessions && o !in s'.sessions)
      case LogOut(session, what, now) =>
        id !in s'.sessions <==>
          && Running(s, session, now)
          && (match what
              case Current => id == session
              case All => s.sessions[id].user == s.sessions[session].user
              case Other(o) => id == o && Running(s, o, now) && s.sessions[o].user == s.sessions[session].user)
      case RevokeUser(user, _) => id !in s'.sessions <==> s.sessions[id].user == user
      case ExpireSessions(now) => id !in s'.sessions <==> s.sessions[id].expiresAt < now
      case _ => id in s'.sessions
  {
    match e {
      case Login(user, now) =>
        assert RunningOf(s, user, now) == Active(s, user, now);
        if |Active(s, user, now)| >= max {
          var victim :| IsOldest(s, user, now, victim) && s' == LoggedIn(Evict(s, victim), user, now);
          assert victim in s.sessions && victim !in s'.sessions;
        }
      case _ =>
    }
  }

  /** A session that stays is the same, but for the time of its last activity. */
  lemma SessionStaysTheSame(max: nat, s: State, e: Event, s': State, id: SessionId)
    requires Next(max, s, e, s') && Numbered(s) && id in s.sessions && id in s'.sessions
    ensures
      var active :=
        || (e.Authenticate? && e.session == id && e.userOk && Running(s, id, e.now) && s.sessions[id].user == e.user)
        || (e.Refresh? && s'.nextToken > s.nextToken && e.token in s.tokens && s.tokens[e.token].session == id);
      s'.sessions[id] == if active then s.sessions[id].(lastActivity := e.now) else s.sessions[id]
  {
  }

  /** When sessions end other than by eviction, their tokens go with them; no other token does. */
  lemma TokensGoWithSessions(max: nat, s: State, e: Event, s': State, t: TokenId)
    requires Next(max, s, e, s') && t in s.tokens
    requires e.LogOut? || e.RevokeUser? || e.ExpireSessions?
    ensures t in s'.tokens <==> !(s.tokens[t].session in s.sessions && s.tokens[t].session !in s'.sessions)
    ensures t in s'.tokens ==> s'.tokens[t] == s.tokens[t]
  {
  }

  /** With the configured maximum, or ten if there is none, no user ever has more sessions running. */
  lemma NeverMoreThanConfigured(
      configured: int, states: seq<State>, events: seq<Event>, n: nat, user: UserId, now: int)
    requires IsRun(MaxSessions(configured), states, events) && n <= |events|
    requires n > 0 ==> events[n - 1].now <= now
    ensures |RunningOf(states[n], user, now)| <= if configured > 0 then configured else 10
  {
    NeverTooManySessions(MaxSessions(configured), states, events, n, user, now);
    assert RunningOf(states[n], user, now) == Active(states[n], user, now);
  }

  // ----- refresh tokens over a run ----------------------------------------------------------------------------

  /** Step `m` of the run issues the token. */
  predicate Issues(states: seq<State>, events: seq<Event>, m: nat, t: TokenId)
    requires m < |events| && |states| == |events| + 1
  {
    t !in states[m].tokens && t in states[m + 1].tokens
  }

  /** Step `m` of the run uses the token up. */
  predicate UsesUp(states: seq<State>, events: seq<Event>, m: nat, t: TokenId)
    requires m < |events| && |states| == |events| + 1
  {
    events[m].Refresh? && events[m].token == t && t in states[m].tokens && t !in states[m + 1].tokens
  }

  lemma IssuedFresh(max: nat, s: State, e: Event, s': State, t: TokenId)
    requires Next(max, s, e, s') && t !in s.tokens && t in s'.tokens
    ensures e.Login? || e.Refresh?
    ensures t == s.nextToken && s'.tokens[t].created == e.now && s'.tokens[t].expiry == e.now + TWENTY_EIGHT_DAYS
  {
  }

  /** Every token in the table was issued by a login or a refresh, and has not changed since. */
  lemma {:induction false} TokenWasIssued(max: nat, states: seq<State>, events: seq<Event>, n: nat, t: TokenId)
    returns (m: nat)
    requires max > 0 && IsRun(max, states, events) && n <= |events| && t in states[n].tokens
    ensures m < n && Issues(states, events, m, t) && states[n].tokens[t] == states[m + 1].tokens[t]
    ensures events[m].Login? || events[m].Refresh?
    ensures states[n].tokens[t].expiry == events[m].now + TWENTY_EIGHT_DAYS
    decreases n
  {
    var before := states[n - 1];
    RunKeeps(max, states, events, n - 1);
    if t in before.tokens {
      m := TokenWasIssued(max, states, events, n - 1, t);
      StepKeepsGone(max, before, events[n - 1], states[n], 0, t);
    } else {
      m := n - 1;
      IssuedFresh(max, before, events[n - 1], states[n], t);
    }
  }

  /**
    A refresh that yields a new token redeems one that was issued at most twenty-eight days before, by a
    login or a refresh of the same run, for a session that is still running, and by a usable user.
   */
  lemma RefreshNeedsFreshToken(max: nat, states: seq<State>, events: seq<Event>, n: nat, newToken: TokenId)
    returns (m: nat)
    requires max > 0 && IsRun(max, states, events) && n < |events|
    requires events[n].Refresh? && newToken in states[n + 1].tokens && newToken !in states[n].tokens
    ensures
      var t := events[n].token;
      && m < n && Issues(states, events, m, t) && (events[m].Login? || events[m].Refresh?)
      && events[n].now <= events[m].now + TWENTY_EIGHT_DAYS
      && t in states[n].tokens && Running(states[n], states[n].tokens[t].session, events[n].now)
      && events[n].userOk
  {
    assert Next(max, states[n], events[n], states[n + 1]);
    m := TokenWasIssued(max, states, events, n, events[n].token);
  }

  /** A step removes a token only if it uses it up, if the token is too old, or along with its session. */
  lemma TokenRemovedBy(max: nat, s: State, e: Event, s': State, t: TokenId)
    requires Next(max, s, e, s') && Numbered(s) && t in s.tokens && t !in s'.tokens
    ensures || (e.Refresh? && e.token == t) || s.tokens[t].expiry < e.now
            || (s.tokens[t].session in s.sessions && SessionGone(s', s.tokens[t].session))
  {
  }

  lemma {:induction false} TokenStays(
      max: nat, states: seq<State>, events: seq<Event>, m: nat, j: nat, n: nat, t: TokenId)
    requires max > 0 && IsRun(max, states, events) && m < j <= n < |events|
    requires Issues(states, events, m, t)
    requires events[n].now <= events[m].now + TWENTY_EIGHT_DAYS
    requires states[m + 1].tokens[t].session in states[n].sessions
    requires forall i | m < i < n :: !UsesUp(states, events, i, t)
    ensures t in states[j].tokens && states[j].tokens[t] == states[m + 1].tokens[t]
    decreases j
  {
    if j > m + 1 {
      TokenStays(max, states, events, m, j - 1, n, t);
      var before, e := states[j - 1], events[j - 1];
      RunKeeps(max, states, events, j - 1);
      assert Next(max, before, e, states[j]);
      IssuedFresh(max, states[m], events[m], states[m + 1], t);
      assert e.now <= events[n].now;
      if t !in states[j].tokens {
        TokenRemovedBy(max, before, e, states[j], t);
        assert !UsesUp(states, events, j - 1, t);
        GoneStaysGone(max, states, events, j, n, before.tokens[t].session, t);
      }
      StepKeepsGone(max, before, e, states[j], 0, t);
    }
  }

  /**
    Conversely, a token that has not been used up, of a session still running, is redeemed by its usable
    user within twenty-eight days: for exactly one new token, of the same session and user.
   */
  lemma FreshTokenIsRedeemed(max: nat, states: seq<State>, events: seq<Event>, m: nat, n: nat, t: TokenId)
    requires max > 0 && IsRun(max, states, events) && m < n < |events|
    requires Issues(states, events, m, t)
    requires events[n].Refresh? && events[n].token == t && events[n].userOk
    requires events[n].now <= events[m].now + TWENTY_EIGHT_DAYS
    requires Running(states[n], states[m + 1].tokens[t].session, events[n].now)
    requires forall i | m < i < n :: !UsesUp(states, events, i, t)
    ensures
      var was, now, newToken := states[m + 1].tokens[t], events[n].now, states[n].nextToken;
      && t in states[n].tokens && newToken !in states[n].tokens
      && states[n + 1].tokens ==
           states[n].tokens[newToken := Token(was.user, was.session, now, now + TWENTY_EIGHT_DAYS)] - {t}
  {
    TokenStays(max, states, events, m, n, n, t);
    RunKeeps(max, states, events, n);
    IssuedFresh(max, states[m], events[m], states[m + 1], t);
    assert Next(max, states[n], events[n], states[n + 1]);
  }
}
