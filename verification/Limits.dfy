/** How far the caps reach: for which overlaps, and for whose requests, they can be relied upon. */
module Limits {
  import opened Wrappers
  import opened FiniteSets
  import opened Domain
  import opened Queries
  import opened Rules
  import opened Recurrence
  import opened Requests
  import opened Runs
  import opened Sites
  import DailyBasis

  // ----- the cap of a location --------------------------------------------------------------------------

  const ADMIN := User("ADMIN", "O", "", ROLE_SUPER_ADMIN, [])
  function Capped(cap: nat): Env {
    Site("O", cap + 1, cap, FREE, map[])
  }

  function MinuteAt(i: nat): BookingRequest {
    BookingRequest(Desk(i), "", 100, 160, "")
  }

  function MinuteCall(cap: nat, k: nat): Call {
    Call(Capped(cap), CreateBooking(ADMIN, MinuteAt(k)))
  }

  /** One booking of a minute on each desk. */
  function MinuteCalls(cap: nat): seq<Call> {
    seq(cap + 1, i requires 0 <= i <= cap => MinuteCall(cap, i))
  }

  lemma NothingActiveAtTheEnds(rows: Table, ids: set<BookingId>)
    requires forall id | id in rows :: rows[id].enter == 100 && rows[id].leave == 160
    ensures Peak(rows, ids, 100, 160) == 0
  {
    assert Active(rows, ids, 100) == {} && Active(rows, ids, 160) == {};
    assert Peak(rows, ids, 220, 160) == 0;
    assert Peak(rows, ids, 160, 160) == 0;
  }

  lemma MinuteIsAdmitted(cap: nat, k: nat)
    requires k <= cap
    ensures
      Admission(Capped(cap), SideBySide(k, ADMIN.id, 100, 160), "L", ADMIN, MinuteAt(k).ToDraft(), None, 0) == Done
  {
    var env, rows, d := Capped(cap), SideBySide(k, ADMIN.id, 100, 160), MinuteAt(k).ToDraft();
    DeskOf("O", cap + 1, cap, FREE, map[], k);
    NothingActiveAtTheEnds(rows, GetNear(rows, env.SpacesOf("L"), 100, 160, None));
    NextToTheOthers(k, ADMIN.id, 100, 160);
    assert AdvanceVerdict(FREE, true, 0, 0, d) == Done;
    assert RequestVerdict(env, rows, "L", ADMIN, d, None, 0) == Done;
  }

  /** The state after the first `k` of them. */
  function Minutes(k: nat): State {
    State(SideBySide(k, ADMIN.id, 100, 160), map[], k, 0)
  }

  lemma MinuteGoesThrough(cap: nat, k: nat)
    requires k <= cap
    ensures Step(Minutes(k), MinuteCall(cap, k)) == Minutes(k + 1)
  {
    DeskOf("O", cap + 1, cap, FREE, map[], k);
    MinuteIsAdmitted(cap, k);
    assert CreateGate(Capped(cap), ADMIN, MinuteAt(k)) == Done;
    NextToTheOthers(k, ADMIN.id, 100, 160);
  }

  lemma {:induction false} RunThrough(calls: seq<Call>, states: seq<State>)
    requires |states| == |calls| + 1
    requires forall i | 0 <= i < |calls| :: Step(states[i], calls[i]) == states[i + 1]
    ensures Run(states[0], calls) == states[|calls|]
    decreases |calls|
  {
    if calls != [] {
      RunThrough(calls[1..], states[1..]);
    }
  }

  lemma MinutesSideBySide(cap: nat)
    ensures Run(EMPTY, MinuteCalls(cap)).bookings == SideBySide(cap + 1, ADMIN.id, 100, 160)
  {
    var calls, states := MinuteCalls(cap), seq(cap + 2, i requires 0 <= i => Minutes(i));
    assert Minutes(0) == EMPTY;
    forall i | 0 <= i < |calls|
      ensures Step(states[i], calls[i]) == states[i + 1]
    {
      MinuteGoesThrough(cap, i);
    }
    RunThrough(calls, states);
  }

  /** In all runs, at every location with that cap, no more bookings share a stretch of that length. */
  ghost predicate CapHolds(cap: nat, length: int) {
    forall location, spaces, calls, s | FixedLocation(location, spaces, cap, calls) ::
      SharedAtMost(cap, Run(EMPTY, calls).bookings, spaces, s, length)
  }

  predicate SharedAtMost(cap: nat, rows: Table, spaces: set<SpaceId>, s: int, length: int) {
    |Sharing(rows, spaces, s, s + length, None)| <= cap
  }

  lemma MinutesShare(cap: nat, length: int)
    requires length <= SAMPLE
    ensures !SharedAtMost(cap, SideBySide(cap + 1, ADMIN.id, 100, 160), Desks(cap + 1), 100, length)
  {
    var rows := SideBySide(cap + 1, ADMIN.id, 100, 160);
    assert Sharing(rows, Desks(cap + 1), 100, 100 + length, None) == rows.Keys;
    CountSideBySide(cap + 1, ADMIN.id, 100, 160);
  }

  lemma MinutesExceedCap(cap: nat, length: int)
    requires length <= SAMPLE
    ensures !CapHolds(cap, length)
  {
    var calls := MinuteCalls(cap);
    MinutesSideBySide(cap);
    MinutesShare(cap, length);
    DeskOf("O", cap + 1, cap, FREE, map[], 0);
    assert FixedLocation("L", Desks(cap + 1), cap, calls);
    assert !SharedAtMost(cap, Run(EMPTY, calls).bookings, Desks(cap + 1), 100, length);
  }

  /** The cap of a location can be relied upon for exactly those overlaps that exceed the sample distance. */
  lemma CapHoldsIff(cap: nat, length: int)
    requires cap > 0
    ensures CapHolds(cap, length) <==> length > SAMPLE
  {
    if length > SAMPLE {
      forall location, spaces, calls, s | FixedLocation(location, spaces, cap, calls)
        ensures SharedAtMost(cap, Run(EMPTY, calls).bookings, spaces, s, length)
      {
        LocationNeverOverbooked(location, spaces, cap, calls, s, s + length);
      }
    } else {
      MinutesExceedCap(cap, length);
    }
  }

  // ----- the limit of a user ----------------------------------------------------------------------------

  /** The organisation of that space has this limit, and exempts the actor or does not. */
  predicate UnderLimit(env: Env, space: SpaceId, actor: User, limit: nat, exempt: bool) {
    env.HasSpace(space) ==>
      var org := env.locations[env.spaces[space].location].org;
      env.SettingsOf(org).maxConcurrentPerUser == limit && Exempt(env.SettingsOf(org), actor, org) == exempt
  }

  /**
    Such a request of `actor`, in any surroundings with that limit and any state that a run has
    reached, keeps the limit of `owner`.
   */
  ghost predicate KeepsLimit(way: Way, limit: nat, owner: UserId, actor: User, exempt: bool) {
    forall calls: seq<Call>, call: Call |
      && Holds(UserCap(owner, limit), Run(EMPTY, calls).bookings)
      && MadeThisWay(way, actor, call.request)
      && UnderLimit(call.env, SpaceAsked(call.request), actor, limit, exempt) ::
      Holds(UserCap(owner, limit), Step(Run(EMPTY, calls), call).bookings)
  }

  /** Whose limit a request can be relied upon to keep. */
  predicate LimitMinded(way: Way, owner: UserId, actor: User, exempt: bool) {
    || actor.role < ROLE_SPACE_ADMIN
    || (!exempt && actor.id == owner)
    || (way == BySeries && actor.id != owner)
  }

  /** An ordinary user is never exempt, and writes no booking of anybody else. */
  lemma LimitMindedIsCovered(
      way: Way, limit: nat, owner: UserId, actor: User, exempt: bool, s: State, call: Call)
    requires limit > 0 && LimitMinded(way, owner, actor, exempt)
    requires MadeThisWay(way, actor, call.request)
    requires UnderLimit(call.env, SpaceAsked(call.request), actor, limit, exempt)
    ensures CallCovered(UserCap(owner, limit), s, call)
  {
  }

  lemma UsedUpWithinLimit(limit: nat, owner: UserId)
    ensures Holds(UserCap(owner, limit), UsedUp(limit, owner).bookings)
  {
    var rows := UsedUp(limit, owner).bookings;
    forall s, e | s < e
      ensures |SharingOfUser(rows, owner, s, e, None)| <= limit
    {
      SubsetSize(SharingOfUser(rows, owner, s, e, None), rows.Keys);
      CountSideBySide(limit, owner, 3600, 7200);
    }
  }

  /** One row more at the same time, whatever else it says, breaks the limit. */
  lemma OneMoreBreaksLimit(limit: nat, owner: UserId, b: Booking)
    requires b.user == owner && b.enter == 3600 && b.leave == 7200
    ensures !Holds(UserCap(owner, limit), UsedUp(limit, owner).bookings[limit := b])
  {
    var rows := UsedUp(limit, owner).bookings[limit := b];
    assert SharingOfUser(rows, owner, 3600, 7200, None) == rows.Keys;
    assert rows.Keys == UsedUp(limit, owner).bookings.Keys + {limit};
    CountSideBySide(limit, owner, 3600, 7200);
    assert |SharingOfUser(rows, owner, 3600, 7200, None)| == limit + 1;
  }

  lemma BreaksLimit(
      way: Way, limit: nat, owner: UserId, actor: User, exempt: bool, calls: seq<Call>, s: State, call: Call,
      rows: Table)
    requires exempt ==> actor.role >= ROLE_SPACE_ADMIN
    requires Run(EMPTY, calls) == s && Holds(UserCap(owner, limit), s.bookings)
    requires MadeThisWay(way, actor, call.request) && SpaceAsked(call.request) == Desk(limit)
    requires call.env == Crowded(limit, owner, actor, Terms(limit, 1, exempt))
    requires Step(s, call).bookings == rows && !Holds(UserCap(owner, limit), rows)
    ensures !KeepsLimit(way, limit, owner, actor, exempt)
  {
    DeskOf(actor.org, limit + 1, 0, Terms(limit, 1, exempt), call.env.bookFor, limit);
    assert UnderLimit(call.env, SpaceAsked(call.request), actor, limit, exempt);
  }

  lemma TooManyBreakLimit(limit: nat, owner: UserId)
    ensures !Holds(UserCap(owner, limit), SideBySide(limit + 1, owner, 3600, 7200))
  {
    NextToTheOthers(limit, owner, 3600, 7200);
    OneMoreBreaksLimit(limit, owner, Booking(owner, Desk(limit), 3600, 7200, true, "", None));
  }

  lemma CreatingBreaksLimit(limit: nat, owner: UserId, actor: User, exempt: bool)
    requires limit > 0 && !LimitMinded(ByCreating, owner, actor, exempt)
    ensures !KeepsLimit(ByCreating, limit, owner, actor, exempt)
  {
    var calls := UsedUpIsReached(limit, limit, owner);
    var call := StepByCreating(limit, owner, actor, limit, 1, exempt);
    UsedUpWithinLimit(limit, owner);
    TooManyBreakLimit(limit, owner);
    BreaksLimit(
      ByCreating, limit, owner, actor, exempt, calls, UsedUp(limit, owner), call,
      SideBySide(limit + 1, owner, 3600, 7200));
  }

  lemma WithOtherWithinLimit(limit: nat, owner: UserId)
    requires limit > 0
    ensures Holds(UserCap(owner, limit), WithOther(limit, owner, 10800, 14400).bookings)
  {
    var rows, first := WithOther(limit, owner, 10800, 14400).bookings, UsedUp(limit, owner).bookings;
    forall s, e | s < e
      ensures |SharingOfUser(rows, owner, s, e, None)| <= limit
    {
      var sharing := SharingOfUser(rows, owner, s, e, None);
      if limit in sharing {
        assert sharing == {limit};
      } else {
        UsedUpWithinLimit(limit, owner);
        SubsetSize(sharing, SharingOfUser(first, owner, s, e, None));
      }
    }
  }

  lemma ChangingBreaksLimit(limit: nat, owner: UserId, actor: User, exempt: bool)
    requires limit > 0 && !LimitMinded(ByChanging, owner, actor, exempt)
    ensures !KeepsLimit(ByChanging, limit, owner, actor, exempt)
  {
    var calls := WithOtherIsReached(limit, owner, 10800, 14400);
    var call := StepByChanging(limit, owner, actor, limit, 1, exempt, 10800, 14400);
    WithOtherWithinLimit(limit, owner);
    TooManyBreakLimit(limit, owner);
    BreaksLimit(
      ByChanging, limit, owner, actor, exempt, calls, WithOther(limit, owner, 10800, 14400), call,
      SideBySide(limit + 1, owner, 3600, 7200));
  }

  lemma SeriesBreaksLimit(limit: nat, owner: UserId, actor: User, exempt: bool)
    requires limit > 0 && !LimitMinded(BySeries, owner, actor, exempt)
    ensures !KeepsLimit(BySeries, limit, owner, actor, exempt)
  {
    var calls := UsedUpIsReached(limit, limit, owner);
    var call, b := StepBySeries(limit, actor, limit, 1);
    UsedUpWithinLimit(limit, owner);
    OneMoreBreaksLimit(limit, owner, b);
    BreaksLimit(
      BySeries, limit, owner, actor, exempt, calls, UsedUp(limit, owner), call,
      UsedUp(limit, owner).bookings[limit := b]);
  }

  /**
    The limit is checked for whoever makes the request, not for whom it is made, and not at all for
    the exempt. Over all surroundings with that limit and all states that runs reach, requests of one
    kind keep it for a user exactly if they come from somebody without a role or, not exempt, from that
    user; a series is always the actor's own, so those of others do no harm.
   */
  lemma KeepsLimitIff(way: Way, limit: nat, owner: UserId, actor: User, exempt: bool)
    requires limit > 0
    ensures KeepsLimit(way, limit, owner, actor, exempt) <==> LimitMinded(way, owner, actor, exempt)
  {
    if LimitMinded(way, owner, actor, exempt) {
      forall calls: seq<Call>, call: Call |
        && Holds(UserCap(owner, limit), Run(EMPTY, calls).bookings)
        && MadeThisWay(way, actor, call.request)
        && UnderLimit(call.env, SpaceAsked(call.request), actor, limit, exempt)
        ensures Holds(UserCap(owner, limit), Step(Run(EMPTY, calls), call).bookings)
      {
        ReachedIsWellNumbered(calls);
        LimitMindedIsCovered(way, limit, owner, actor, exempt, Run(EMPTY, calls), call);
        StepKeeps(UserCap(owner, limit), Run(EMPTY, calls), call);
      }
    } else {
      match way {
        case ByCreating => CreatingBreaksLimit(limit, owner, actor, exempt);
        case ByChanging => ChangingBreaksLimit(limit, owner, actor, exempt);
        case BySeries => SeriesBreaksLimit(limit, owner, actor, exempt);
      }
    }
  }

  // ----- bookings that end before they start --------------------------------------------------------------

  /** The organisation of that space books by the day, or not, and exempts the actor, or not. */
  predicate UnderRules(env: Env, space: SpaceId, actor: User, exempt: bool, byDay: bool) {
    env.HasSpace(space) ==>
      var org := env.locations[env.spaces[space].location].org;
      env.SettingsOf(org).BooksByDay() == byDay && Exempt(env.SettingsOf(org), actor, org) == exempt
  }

  /** Such a request of `actor`, in any such surroundings and any reachable state, stores no inverted booking. */
  ghost predicate KeepsWellFormed(actor: User, exempt: bool, byDay: bool) {
    forall way: Way, calls: seq<Call>, call: Call |
      && Holds(WellFormed, Run(EMPTY, calls).bookings)
      && MadeThisWay(way, actor, call.request)
      && UnderRules(call.env, SpaceAsked(call.request), actor, exempt, byDay) ::
      Holds(WellFormed, Step(Run(EMPTY, calls), call).bookings)
  }

  const INVERTED := BookingRequest(Desk(0), "", 86400, 0, "")

  function ByDayOrNotTerms(exempt: bool, byDay: bool): Settings {
    Terms(0, 1, exempt).(dailyBasis := Some(byDay))
  }

  function ByDayOrNot(actor: User, exempt: bool, byDay: bool): Env {
    Crowded(0, actor.id, actor, ByDayOrNotTerms(exempt, byDay))
  }

  /** Booked by the day, minus one day is a whole number of days, and below every limit. */
  lemma MinusOneDayIsAllowed()
    ensures DailyBasis.DurationAllowed(DailyBasis.CIVIL, DailyBasis.CIVIL_STEPS, 1, -86400, false, true, 12)
  {
  }

  /** On an empty site only the rules on time matter. */
  lemma PassesOtherRules(actor: User, exempt: bool, byDay: bool, m: BookingRequest)
    requires exempt ==> actor.role >= ROLE_SPACE_ADMIN
    requires m.space == Desk(0) && m.subject == ""
    requires ValidDuration(ByDayOrNotTerms(exempt, byDay), exempt, m.ToDraft())
    requires AdvanceVerdict(ByDayOrNotTerms(exempt, byDay), exempt, 0, 0, m.ToDraft()) == Done
    ensures Admission(ByDayOrNot(actor, exempt, byDay), map[], "L", actor, m.ToDraft(), None, 0) == Done
  {
    var env, d, settings := ByDayOrNot(actor, exempt, byDay), m.ToDraft(), ByDayOrNotTerms(exempt, byDay);
    DeskOf(actor.org, 1, 0, settings, env.bookFor, 0);
    assert Exempt(settings, actor, actor.org) == exempt;
    assert GetUpcoming(env, map[], actor.id) == {};
    assert RequestVerdict(env, map[], "L", actor, d, None, 0) == Done;
    assert GetConflicts(map[], d.space, d.enter, d.leave, None) == {};
  }

  lemma InvertedIsOnTime(exempt: bool, byDay: bool)
    requires exempt || byDay
    ensures ValidDuration(ByDayOrNotTerms(exempt, byDay), exempt, INVERTED.ToDraft())
    ensures AdvanceVerdict(ByDayOrNotTerms(exempt, byDay), exempt, 0, 0, INVERTED.ToDraft()) == Done
  {
    MinusOneDayIsAllowed();
  }

  lemma AdmittedIsStored(actor: User, exempt: bool, byDay: bool, m: BookingRequest)
    requires m.space == Desk(0) && m.userEmail == ""
    requires Admission(ByDayOrNot(actor, exempt, byDay), map[], "L", actor, m.ToDraft(), None, 0) == Done
    ensures Step(EMPTY, Call(ByDayOrNot(actor, exempt, byDay), CreateBooking(actor, m))).bookings ==
            map[0 := Booking(actor.id, m.space, m.enter, m.leave, true, m.subject, None)]
  {
    var env := ByDayOrNot(actor, exempt, byDay);
    DeskOf(actor.org, 1, 0, ByDayOrNotTerms(exempt, byDay), env.bookFor, 0);
    assert CreateGate(env, actor, m) == Done;
  }

  lemma InvertedGoesThrough(actor: User, exempt: bool, byDay: bool) returns (call: Call)
    requires if exempt then actor.role >= ROLE_SPACE_ADMIN else byDay
    ensures MadeThisWay(ByCreating, actor, call.request) && SpaceAsked(call.request) == Desk(0)
    ensures call.env == ByDayOrNot(actor, exempt, byDay)
    ensures !Holds(WellFormed, Step(EMPTY, call).bookings)
  {
    InvertedIsOnTime(exempt, byDay);
    PassesOtherRules(actor, exempt, byDay, INVERTED);
    AdmittedIsStored(actor, exempt, byDay, INVERTED);
    call := Call(ByDayOrNot(actor, exempt, byDay), CreateBooking(actor, INVERTED));
    assert 0 in Step(EMPTY, call).bookings;
  }

  lemma InvertedIsStored(actor: User, exempt: bool, byDay: bool)
    requires if exempt then actor.role >= ROLE_SPACE_ADMIN else byDay
    ensures !KeepsWellFormed(actor, exempt, byDay)
  {
    var call := InvertedGoesThrough(actor, exempt, byDay);
    DeskOf(actor.org, 1, 0, ByDayOrNotTerms(exempt, byDay), call.env.bookFor, 0);
    assert Run(EMPTY, []) == EMPTY;
    assert UnderRules(call.env, SpaceAsked(call.request), actor, exempt, byDay);
  }

  /**
    Requests of an actor store only bookings that end no earlier than they start, exactly if durations
    are checked by the hour and the actor is not exempt. (Without a role nobody ever is.)
   */
  lemma KeepsWellFormedIff(actor: User, exempt: bool, byDay: bool)
    ensures KeepsWellFormed(actor, exempt, byDay) <==>
            if exempt then actor.role < ROLE_SPACE_ADMIN else !byDay
  {
    if if exempt then actor.role < ROLE_SPACE_ADMIN else !byDay {
      forall way: Way, calls: seq<Call>, call: Call |
        && Holds(WellFormed, Run(EMPTY, calls).bookings)
        && MadeThisWay(way, actor, call.request)
        && UnderRules(call.env, SpaceAsked(call.request), actor, exempt, byDay)
        ensures Holds(WellFormed, Step(Run(EMPTY, calls), call).bookings)
      {
        ReachedIsWellNumbered(calls);
        StepKeeps(WellFormed, Run(EMPTY, calls), call);
      }
    } else {
      InvertedIsStored(actor, exempt, byDay);
    }
  }
}
