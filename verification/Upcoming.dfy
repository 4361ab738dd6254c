/** How far the limit on a user's bookings to come can be relied upon. */
module Upcoming {
  import opened Wrappers
  import opened Calendar
  import opened FiniteSets
  import opened Domain
  import opened Queries
  import opened Rules
  import opened Recurrence
  import opened Requests
  import opened Runs
  import opened Sites

  /** The organisation of that space has this limit, and exempts the actor or does not. */
  predicate UnderTerms(env: Env, space: SpaceId, actor: User, limit: nat, exempt: bool) {
    env.HasSpace(space) ==>
      var org := env.locations[env.spaces[space].location].org;
      env.SettingsOf(org).maxBookingsPerUser == limit && Exempt(env.SettingsOf(org), actor, org) == exempt
  }

  predicate FewUpcoming(env: Env, s: State, owner: UserId, limit: nat) {
    |GetUpcoming(env, s.bookings, owner)| <= limit
  }

  /**
    Such a request of `actor`, in any surroundings with that limit and any reachable state, leaves
    `owner` with no more bookings to come than that.
   */
  ghost predicate KeepsUpcoming(way: Way, limit: nat, owner: UserId, actor: User, exempt: bool) {
    forall calls: seq<Call>, call: Call |
      && FewUpcoming(call.env, Run(EMPTY, calls), owner, limit)
      && MadeThisWay(way, actor, call.request)
      && UnderTerms(call.env, SpaceAsked(call.request), actor, limit, exempt) ::
      FewUpcoming(call.env, Step(Run(EMPTY, calls), call), owner, limit)
  }

  /** A change is not checked at all: it keeps the limit only of those whose bookings it cannot touch. */
  predicate UpcomingMinded(way: Way, limit: nat, owner: UserId, actor: User, exempt: bool) {
    match way
    case ByCreating => actor.role < ROLE_SPACE_ADMIN || (!exempt && (actor.id == owner || limit == 0))
    case ByChanging => actor.role < ROLE_SPACE_ADMIN && actor.id != owner
    case BySeries => actor.role < ROLE_SPACE_ADMIN || !exempt || actor.id != owner
  }

  // ----- requests that keep the limit --------------------------------------------------------------------

  /** One row more adds one booking to come at most, and none to those of others. */
  lemma OneRowMore(env: Env, s: State, b: Booking, owner: UserId)
    requires WellNumbered(s)
    ensures
      var before, after := GetUpcoming(env, s.bookings, owner), GetUpcoming(env, InsertBooking(s, b).bookings, owner);
      |after| <= |before| + 1 && (b.user != owner ==> after == before)
  {
    var before, after := GetUpcoming(env, s.bookings, owner), GetUpcoming(env, InsertBooking(s, b).bookings, owner);
    SubsetSize(after, before + {s.nextBooking});
  }

  /** Without exemption a row is admitted only below the limit. */
  lemma AdmittedBelowLimit(
      env: Env, rows: Table, location: LocationId, actor: User, d: Draft, limit: nat)
    requires location in env.locations && Admission(env, rows, location, actor, d, None, 0) == Done
    requires
      var settings := env.SettingsOf(env.locations[location].org);
      settings.maxBookingsPerUser == limit && !Exempt(settings, actor, env.locations[location].org)
    ensures |GetUpcoming(env, rows, actor.id)| < limit
  {
    assert RequestVerdict(env, rows, location, actor, d, None, 0) == Done;
  }

  lemma CreateKeepsUpcoming(
      limit: nat, owner: UserId, actor: User, exempt: bool, env: Env, s: State, m: BookingRequest)
    requires WellNumbered(s) && UpcomingMinded(ByCreating, limit, owner, actor, exempt)
    requires UnderTerms(env, m.space, actor, limit, exempt) && FewUpcoming(env, s, owner, limit)
    ensures FewUpcoming(env, Create(env, s, actor, m).0, owner, limit)
  {
    var s' := Create(env, s, actor, m).0;
    if s' != s {
      var b := s'.bookings[s.nextBooking];
      OneRowMore(env, s, b, owner);
      if b.user == owner && !exempt {
        AdmittedBelowLimit(env, s.bookings, env.spaces[m.space].location, actor, m.ToDraft(), limit);
      }
    }
  }

  /** An ordinary user changes own bookings only, and keeps them. */
  lemma UpdateKeepsUpcoming(owner: UserId, actor: User, env: Env, s: State, id: BookingId, m: BookingRequest)
    requires actor.role < ROLE_SPACE_ADMIN && actor.id != owner
    ensures GetUpcoming(env, Update(env, s, actor, id, m).0.bookings, owner) == GetUpcoming(env, s.bookings, owner)
  {
  }

  lemma {:induction false} OccurrencesKeepUpcoming(
      limit: nat, owner: UserId, actor: User, exempt: bool, env: Env, s: State, e: Series, id: SeriesId,
      times: seq<int>)
    requires WellNumbered(s) && UpcomingMinded(BySeries, limit, owner, actor, exempt)
    requires env.HasSpace(e.space) && UnderTerms(env, e.space, actor, limit, exempt)
    requires FewUpcoming(env, s, owner, limit)
    ensures FewUpcoming(env, InsertOccurrences(env, s, actor, e, id, times).0, owner, limit)
    decreases |times|
  {
    if times != [] {
      var s' := s;
      if Decision(env, s, actor, e, times[0]) == Done {
        var b := OccurrenceRow(env, actor, e, id, times[0]);
        OneRowMore(env, s, b, owner);
        if actor.id == owner {
          AdmittedBelowLimit(
            env, s.bookings, env.spaces[e.space].location, actor, Occurrence(e, e.subject, times[0]), limit);
        }
        s' := InsertBooking(s, b);
      }
      OccurrencesKeepUpcoming(limit, owner, actor, exempt, env, s', e, id, times[1..]);
    }
  }

  lemma SeriesKeepsUpcoming(limit: nat, owner: UserId, actor: User, exempt: bool, env: Env, s: State, e: Series)
    requires WellNumbered(s) && UpcomingMinded(BySeries, limit, owner, actor, exempt)
    requires UnderTerms(env, e.space, actor, limit, exempt) && FewUpcoming(env, s, owner, limit)
    ensures FewUpcoming(env, CreateSeries(env, s, actor, e).0, owner, limit)
  {
    if SeriesGate(env, actor, e) == Done {
      var start := InsertSeries(s, e.(user := actor.id));
      assert FewUpcoming(env, start, owner, limit);
      if Occurrences(e).Some? {
        OccurrencesKeepUpcoming(
          limit, owner, actor, exempt, env, start, e, s.nextSeries, Occurrences(e).value);
      }
    }
  }

  lemma MindedKeeps(
      way: Way, limit: nat, owner: UserId, actor: User, exempt: bool, s: State, call: Call)
    requires WellNumbered(s) && UpcomingMinded(way, limit, owner, actor, exempt)
    requires MadeThisWay(way, actor, call.request)
    requires UnderTerms(call.env, SpaceAsked(call.request), actor, limit, exempt)
    requires FewUpcoming(call.env, s, owner, limit)
    ensures FewUpcoming(call.env, Step(s, call), owner, limit)
  {
    match call.request {
      case CreateBooking(_, m) => CreateKeepsUpcoming(limit, owner, actor, exempt, call.env, s, m);
      case UpdateBooking(_, id, m) => UpdateKeepsUpcoming(owner, actor, call.env, s, id, m);
      case CreateRecurring(_, e) => SeriesKeepsUpcoming(limit, owner, actor, exempt, call.env, s, e);
    }
  }

  // ----- requests that do not ------------------------------------------------------------------------------

  /** All bookings of a site lie ahead. */
  lemma AllToCome(n: nat, owner: UserId, actor: User, terms: Settings, b: Booking)
    requires b.user == owner && b.space == Desk(n) && b.leave == 7200
    ensures |GetUpcoming(Crowded(n, owner, actor, terms), UsedUp(n, owner).bookings, owner)| == n
    ensures |GetUpcoming(Crowded(n, owner, actor, terms), UsedUp(n, owner).bookings[n := b], owner)| == n + 1
  {
    var env, rows := Crowded(n, owner, actor, terms), UsedUp(n, owner).bookings;
    forall i | 0 <= i <= n
      ensures env.HasSpace(Desk(i))
    {
      DeskOf(actor.org, n + 1, 0, terms, env.bookFor, i);
    }
    CountSideBySide(n, owner, 3600, 7200);
    assert GetUpcoming(env, rows, owner) == rows.Keys;
    assert GetUpcoming(env, rows[n := b], owner) == rows.Keys + {n};
  }

  /** One booking of the owner is over, `n` are still to come. */
  lemma OneIsOver(n: nat, owner: UserId, actor: User, terms: Settings)
    ensures FewUpcoming(Crowded(n, owner, actor, terms), WithOther(n, owner, -5 * DAY, -4 * DAY), owner, n)
  {
    var env := Crowded(n, owner, actor, terms);
    AllToCome(n, owner, actor, terms, Booking(owner, Desk(n), 3600, 7200, true, "", None));
    assert GetUpcoming(env, WithOther(n, owner, -5 * DAY, -4 * DAY).bookings, owner) ==
           GetUpcoming(env, UsedUp(n, owner).bookings, owner);
  }

  lemma BreaksUpcoming(
      way: Way, limit: nat, owner: UserId, actor: User, exempt: bool, calls: seq<Call>, s: State, call: Call,
      b: Booking)
    requires exempt ==> actor.role >= ROLE_SPACE_ADMIN
    requires Run(EMPTY, calls) == s && FewUpcoming(call.env, s, owner, limit)
    requires MadeThisWay(way, actor, call.request) && SpaceAsked(call.request) == Desk(limit)
    requires call.env == Crowded(limit, owner, actor, Terms(0, limit, exempt))
    requires b.user == owner && b.space == Desk(limit) && b.leave == 7200
    requires Step(s, call).bookings == UsedUp(limit, owner).bookings[limit := b]
    ensures !KeepsUpcoming(way, limit, owner, actor, exempt)
  {
    DeskOf(actor.org, limit + 1, 0, Terms(0, limit, exempt), call.env.bookFor, limit);
    AllToCome(limit, owner, actor, Terms(0, limit, exempt), b);
    assert UnderTerms(call.env, SpaceAsked(call.request), actor, limit, exempt);
    assert !FewUpcoming(call.env, Step(s, call), owner, limit);
  }

  lemma UnmindedBreaks(way: Way, limit: nat, owner: UserId, actor: User, exempt: bool)
    requires !UpcomingMinded(way, limit, owner, actor, exempt)
    requires exempt ==> actor.role >= ROLE_SPACE_ADMIN
    ensures !KeepsUpcoming(way, limit, owner, actor, exempt)
  {
    var b := Booking(owner, Desk(limit), 3600, 7200, true, "", None);
    var terms := Terms(0, limit, exempt);
    NextToTheOthers(limit, owner, 3600, 7200);
    AllToCome(limit, owner, actor, terms, b);
    match way {
      case ByCreating =>
        var calls := UsedUpIsReached(limit, limit, owner);
        var call := StepByCreating(limit, owner, actor, 0, limit, exempt);
        BreaksUpcoming(way, limit, owner, actor, exempt, calls, UsedUp(limit, owner), call, b);
      case ByChanging =>
        var was := WithOther(limit, owner, -5 * DAY, -4 * DAY);
        var calls := WithOtherIsReached(limit, owner, -5 * DAY, -4 * DAY);
        var call := StepByChanging(limit, owner, actor, 0, limit, exempt, -5 * DAY, -4 * DAY);
        OneIsOver(limit, owner, actor, terms);
        BreaksUpcoming(way, limit, owner, actor, exempt, calls, was, call, b);
      case BySeries =>
        var calls := UsedUpIsReached(limit, limit, owner);
        var call, row := StepBySeries(limit, actor, 0, limit);
        BreaksUpcoming(way, limit, owner, actor, exempt, calls, UsedUp(limit, owner), call, row);
    }
  }

  /** Without a role nobody is exempt, so such a request can only be one for a space that is not there. */
  lemma NobodyExemptWithoutRole(actor: User, s: State, call: Call, limit: nat)
    requires actor.role < ROLE_SPACE_ADMIN && WayOf(call.request).Some? && call.request.actor == actor
    requires UnderTerms(call.env, SpaceAsked(call.request), actor, limit, true)
    ensures Step(s, call) == s
  {
  }

  /**
    Over all surroundings with that limit and all states that runs reach, requests of one kind leave a
    user with no more bookings to come than allowed, exactly if they are minded of the limit as stated
    above. Changes stand out: a past booking can be moved ahead unchecked, so they keep the limit only
    of others than the actor, and only if the actor has no role.
   */
  lemma KeepsUpcomingIff(way: Way, limit: nat, owner: UserId, actor: User, exempt: bool)
    ensures KeepsUpcoming(way, limit, owner, actor, exempt) <==>
            UpcomingMinded(way, limit, owner, actor, exempt) || (exempt && actor.role < ROLE_SPACE_ADMIN)
  {
    if UpcomingMinded(way, limit, owner, actor, exempt) || (exempt && actor.role < ROLE_SPACE_ADMIN) {
      forall calls: seq<Call>, call: Call |
        && FewUpcoming(call.env, Run(EMPTY, calls), owner, limit)
        && MadeThisWay(way, actor, call.request)
        && UnderTerms(call.env, SpaceAsked(call.request), actor, limit, exempt)
        ensures FewUpcoming(call.env, Step(Run(EMPTY, calls), call), owner, limit)
      {
        if UpcomingMinded(way, limit, owner, actor, exempt) {
          ReachedIsWellNumbered(calls);
          MindedKeeps(way, limit, owner, actor, exempt, Run(EMPTY, calls), call);
        } else {
          NobodyExemptWithoutRole(actor, Run(EMPTY, calls), call, limit);
        }
      }
    } else {
      UnmindedBreaks(way, limit, owner, actor, exempt);
    }
  }

  // ----- whole runs -------------------------------------------------------------------------------------------

  /** The call writes nothing, or meets that limit and keeps it. */
  predicate CallMinded(limit: nat, owner: UserId, call: Call) {
    WayOf(call.request).Some? ==>
      exists exempt ::
        && UpcomingMinded(WayOf(call.request).value, limit, owner, call.request.actor, exempt)
        && UnderTerms(call.env, SpaceAsked(call.request), call.request.actor, limit, exempt)
  }

  /** Between the two readings time does not run backwards and no space is added. */
  ghost predicate Since(env: Env, later: Env) {
    env.now <= later.now && forall space | later.HasSpace(space) :: env.HasSpace(space)
  }

  ghost predicate TimePasses(calls: seq<Call>, end: Env)
    decreases |calls|
  {
    calls == [] || (Since(calls[0].env, if |calls| > 1 then calls[1].env else end) && TimePasses(calls[1..], end))
  }

  lemma FewerLater(env: Env, later: Env, s: State, owner: UserId, limit: nat)
    requires Since(env, later) && FewUpcoming(env, s, owner, limit)
    ensures FewUpcoming(later, s, owner, limit)
  {
    SubsetSize(GetUpcoming(later, s.bookings, owner), GetUpcoming(env, s.bookings, owner));
  }

  lemma RemovalKeepsUpcoming(limit: nat, owner: UserId, s: State, call: Call)
    requires WellNumbered(s) && WayOf(call.request).None? && FewUpcoming(call.env, s, owner, limit)
    ensures FewUpcoming(call.env, Step(s, call), owner, limit)
  {
    assert Shrinks(s.bookings, Step(s, call).bookings) by {
      match call.request {
        case ApproveBooking(actor, id, accept) => ApproveShrinks(call.env, s, actor, id, accept);
        case DeleteBooking(actor, id) => DeleteShrinks(call.env, s, actor, id);
        case DeleteRecurring(actor, id) => DeleteSeriesShrinks(call.env, s, actor, id);
        case PurgeOld(_, _) =>
      }
    }
    SubsetSize(GetUpcoming(call.env, Step(s, call).bookings, owner), GetUpcoming(call.env, s.bookings, owner));
  }

  lemma {:induction false} RunKeepsUpcoming(limit: nat, owner: UserId, s: State, calls: seq<Call>, end: Env)
    requires WellNumbered(s) && Holds(NoDoubleBooking, s.bookings) && TimePasses(calls, end)
    requires forall i | 0 <= i < |calls| :: CallMinded(limit, owner, calls[i])
    requires FewUpcoming(if calls == [] then end else calls[0].env, s, owner, limit)
    ensures FewUpcoming(end, Run(s, calls), owner, limit)
    decreases |calls|
  {
    if calls != [] {
      var call, s' := calls[0], Step(s, calls[0]);
      if WayOf(call.request).Some? {
        var exempt :| && UpcomingMinded(WayOf(call.request).value, limit, owner, call.request.actor, exempt)
                      && UnderTerms(call.env, SpaceAsked(call.request), call.request.actor, limit, exempt);
        MindedKeeps(WayOf(call.request).value, limit, owner, call.request.actor, exempt, s, call);
      } else {
        RemovalKeepsUpcoming(limit, owner, s, call);
      }
      StepKeeps(NoDoubleBooking, s, call);
      FewerLater(call.env, if |calls| > 1 then calls[1].env else end, s', owner, limit);
      RunKeepsUpcoming(limit, owner, s', calls[1..], end);
    }
  }

  /** In a run of such requests a user never has more bookings to come than the limit allows. */
  lemma NeverTooManyUpcoming(limit: nat, owner: UserId, calls: seq<Call>, end: Env)
    requires TimePasses(calls, end) && forall i | 0 <= i < |calls| :: CallMinded(limit, owner, calls[i])
    ensures |GetUpcoming(end, Run(EMPTY, calls).bookings, owner)| <= limit
  {
    EmptyHolds(NoDoubleBooking);
    assert GetUpcoming(if calls == [] then end else calls[0].env, EMPTY.bookings, owner) == {};
    RunKeepsUpcoming(limit, owner, EMPTY, calls, end);
  }
}
