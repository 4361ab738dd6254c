/**
  Sites with any number of desks, the states that a user can bring them into, and one booking more: what
  the runs that show the reach of a limit have in common.
 */
module Sites {
  import opened Wrappers
  import opened Calendar
  import opened FiniteSets
  import opened Domain
  import opened Queries
  import opened Rules
  import opened Recurrence
  import opened Requests
  import opened Runs

  // ----- a site with any number of spaces ---------------------------------------------------------------

  /** Names of different lengths. */
  function Desk(i: nat): SpaceId {
    seq(i + 1, _ => 'd')
  }

  function Desks(n: nat): (desks: set<SpaceId>)
    ensures forall i | 0 <= i < n :: Desk(i) in desks
    ensures forall d | d in desks :: exists i :: 0 <= i < n && d == Desk(i)
  {
    set i | 0 <= i < n :: Desk(i)
  }

  /** One location with `n` desks, a cap, and one set of rules. */
  function Site(org: OrgId, n: nat, cap: nat, settings: Settings, bookFor: map<(OrgId, string), UserId>): Env {
    Env(0,
        map d | d in Desks(n) :: Space("L", true, false, [], []),
        map["L" := Location(org, true, cap, "", 0, [])],
        map[org := settings],
        bookFor)
  }

  lemma DeskOf(org: OrgId, n: nat, cap: nat, settings: Settings, bookFor: map<(OrgId, string), UserId>, i: nat)
    requires i < n
    ensures
      var env := Site(org, n, cap, settings, bookFor);
      && env.HasSpace(Desk(i)) && env.spaces[Desk(i)] == Space("L", true, false, [], [])
      && env.SpacesOf("L") == Desks(n)
  {
  }

  /** One booking on each of the first `n` desks, all at the same time. */
  function SideBySide(n: nat, user: UserId, enter: int, leave: int): Table {
    map i | 0 <= i < n :: Booking(user, Desk(i), enter, leave, true, "", None)
  }

  lemma NextToTheOthers(n: nat, user: UserId, enter: int, leave: int)
    ensures SideBySide(n, user, enter, leave)[n := Booking(user, Desk(n), enter, leave, true, "", None)] ==
            SideBySide(n + 1, user, enter, leave)
    ensures GetConflicts(SideBySide(n, user, enter, leave), Desk(n), enter, leave, None) == {}
  {
    forall i | 0 <= i < n
      ensures Desk(i) != Desk(n)
    {
      assert |Desk(i)| != |Desk(n)|;
    }
  }

  lemma {:induction false} CountSideBySide(n: nat, user: UserId, enter: int, leave: int)
    ensures |SideBySide(n, user, enter, leave).Keys| == n
    decreases n
  {
    if n > 0 {
      CountSideBySide(n - 1, user, enter, leave);
      assert SideBySide(n, user, enter, leave).Keys == SideBySide(n - 1, user, enter, leave).Keys + {n - 1};
    } else {
      assert SideBySide(n, user, enter, leave).Keys == {};
    }
  }

  const FREE := NO_SETTINGS.(noAdminRestrictions := Some(true))

  // ----- the ways in which a request can write a booking ---------------------------------------------------

  datatype Way = ByCreating | ByChanging | BySeries

  predicate MadeThisWay(way: Way, actor: User, request: Request) {
    match way
    case ByCreating => request.CreateBooking? && request.actor == actor
    case ByChanging => request.UpdateBooking? && request.actor == actor
    case BySeries => request.CreateRecurring? && request.actor == actor
  }

  function WayOf(request: Request): Option<Way> {
    match request
    case CreateBooking(_, _) => Some(ByCreating)
    case UpdateBooking(_, _, _) => Some(ByChanging)
    case CreateRecurring(_, _) => Some(BySeries)
    case _ => None
  }

  function SpaceAsked(request: Request): SpaceId
    requires request.CreateBooking? || request.UpdateBooking? || request.CreateRecurring?
  {
    if request.CreateRecurring? then request.e.space else request.m.space
  }

  // ----- states in which a user has any number of bookings ------------------------------------------------

  function UsedUp(n: nat, owner: UserId): State {
    State(SideBySide(n, owner, 3600, 7200), map[], n, 0)
  }

  /** One more booking of the owner, at another time. */
  function WithOther(n: nat, owner: UserId, enter: int, leave: int): State {
    InsertBooking(UsedUp(n, owner), Booking(owner, Desk(n), enter, leave, true, "", None))
  }

  /** The site ten days earlier, when the owner was still exempt. */
  function Earlier(n: nat): Env {
    Site("O", n, 0, FREE, map[]).(now := -10 * DAY)
  }

  function FillCall(n: nat, owner: UserId, i: nat, enter: int, leave: int): Call {
    Call(
      Earlier(n),
      CreateBooking(User(owner, "O", "", ROLE_SUPER_ADMIN, []), BookingRequest(Desk(i), "", enter, leave, "")))
  }

  lemma FillCallGoesThrough(n: nat, owner: UserId, s: State, i: nat, enter: int, leave: int) returns (call: Call)
    requires i < n && -10 * DAY <= enter <= leave
    requires GetConflicts(s.bookings, Desk(i), enter, leave, None) == {}
    ensures Step(s, call) == InsertBooking(s, Booking(owner, Desk(i), enter, leave, true, "", None))
  {
    call := FillCall(n, owner, i, enter, leave);
    var env, user := Earlier(n), User(owner, "O", "", ROLE_SUPER_ADMIN, []);
    var m := BookingRequest(Desk(i), "", enter, leave, "");
    DeskOf("O", n, 0, FREE, map[], i);
    assert AdvanceVerdict(FREE, true, env.now, 0, m.ToDraft()) == Done;
    assert RequestVerdict(env, s.bookings, "L", user, m.ToDraft(), None, 0) == Done;
    assert CreateGate(env, user, m) == Done;
  }

  lemma {:induction false} RunAppend(s: State, calls: seq<Call>, last: Call)
    ensures Run(s, calls + [last]) == Step(Run(s, calls), last)
    decreases |calls|
  {
    if calls == [] {
      assert calls + [last] == [last] && [last][1..] == [];
    } else {
      assert (calls + [last])[1..] == calls[1..] + [last];
      RunAppend(Step(s, calls[0]), calls[1..], last);
    }
  }

  lemma NothingUsedUp(owner: UserId)
    ensures UsedUp(0, owner) == EMPTY
  {
  }

  lemma UsedUpGrows(n: nat, owner: UserId)
    ensures InsertBooking(UsedUp(n, owner), Booking(owner, Desk(n), 3600, 7200, true, "", None)) == UsedUp(n + 1, owner)
  {
    NextToTheOthers(n, owner, 3600, 7200);
  }

  lemma OneMoreUsedUp(desks: nat, n: nat, owner: UserId, before: seq<Call>) returns (calls: seq<Call>)
    requires n < desks && Run(EMPTY, before) == UsedUp(n, owner)
    ensures Run(EMPTY, calls) == UsedUp(n + 1, owner)
  {
    NoConflictOnNextDesk(n, owner, 3600, 7200);
    var call := FillCallGoesThrough(desks, owner, UsedUp(n, owner), n, 3600, 7200);
    UsedUpGrows(n, owner);
    RunAppend(EMPTY, before, call);
    calls := before + [call];
  }

  lemma {:induction false} UsedUpIsReached(desks: nat, n: nat, owner: UserId) returns (calls: seq<Call>)
    requires n <= desks
    ensures Run(EMPTY, calls) == UsedUp(n, owner)
    decreases n
  {
    if n == 0 {
      NothingUsedUp(owner);
      calls := [];
    } else {
      calls := UsedUpIsReached(desks, n - 1, owner);
      calls := OneMoreUsedUp(desks, n - 1, owner, calls);
    }
  }

  lemma NoConflictOnNextDesk(n: nat, owner: UserId, enter: int, leave: int)
    ensures GetConflicts(UsedUp(n, owner).bookings, Desk(n), enter, leave, None) == {}
  {
    forall i | 0 <= i < n
      ensures Desk(i) != Desk(n)
    {
      assert |Desk(i)| != |Desk(n)|;
    }
  }

  lemma WithOtherIsReached(n: nat, owner: UserId, enter: int, leave: int) returns (calls: seq<Call>)
    requires -10 * DAY <= enter <= leave
    ensures Run(EMPTY, calls) == WithOther(n, owner, enter, leave)
  {
    var before := UsedUpIsReached(n + 1, n, owner);
    NoConflictOnNextDesk(n, owner, enter, leave);
    var call := FillCallGoesThrough(n + 1, owner, UsedUp(n, owner), n, enter, leave);
    RunAppend(EMPTY, before, call);
    calls := before + [call];
  }

  /** Moving it to the time of the others meets no conflict. */
  lemma OtherCanMove(n: nat, owner: UserId, enter: int, leave: int)
    ensures GetConflicts(WithOther(n, owner, enter, leave).bookings, Desk(n), 3600, 7200, Some(n)) == {}
    ensures WithOther(n, owner, enter, leave).bookings[n := Booking(owner, Desk(n), 3600, 7200, true, "", None)] ==
            SideBySide(n + 1, owner, 3600, 7200)
  {
    NextToTheOthers(n, owner, 3600, 7200);
    var first := SideBySide(n, owner, 3600, 7200);
    assert GetConflicts(first, Desk(n), 3600, 7200, None) == {};
    assert forall id | id in first :: WithOther(n, owner, enter, leave).bookings[id] == first[id];
  }

  // ----- one booking more ---------------------------------------------------------------------------------------

  const TERMS := NO_SETTINGS.(maxDurationHours := 12, minDurationHours := Some(0), maxDaysInAdvance := 14,
                              allowRecurring := true, featureRecurring := true)

  /** Limits on the bookings of a user at the same time (zero: none) and on those to come. */
  function Terms(concurrent: nat, upcoming: nat, exempt: bool): Settings {
    TERMS.(noAdminRestrictions := Some(exempt), maxConcurrentPerUser := concurrent, maxBookingsPerUser := upcoming)
  }

  /** A site with `n + 1` desks, where `actor` can book for `owner`. */
  function Crowded(n: nat, owner: UserId, actor: User, terms: Settings): Env {
    Site(actor.org, n + 1, 0, terms, map[(actor.org, "for" + actor.email) := owner])
  }

  function OneMore(n: nat, email: string): BookingRequest {
    BookingRequest(Desk(n), "", 3600, 7200, email)
  }

  /** The rules let such a request pass when the limits are used up: they look at the wrong user, or at none. */
  lemma OneMoreIsAdmitted(
      n: nat, owner: UserId, actor: User, concurrent: nat, upcoming: nat, exempt: bool, rows: Table, subject: string,
      exclude: Option<BookingId>)
    requires ValidSubject(subject) && (exempt || exclude.Some? || upcoming > 0)
    requires if exempt then actor.role >= ROLE_SPACE_ADMIN else actor.id != owner || (concurrent == 0 && exclude.Some?)
    requires forall id | id in rows :: rows[id].user == owner
    requires GetConflicts(rows, Desk(n), 3600, 7200, exclude) == {}
    ensures
      var env, d := Crowded(n, owner, actor, Terms(concurrent, upcoming, exempt)), Draft(Desk(n), subject, 3600, 7200);
      Admission(env, rows, "L", actor, d, exclude, 0) == Done
  {
    var settings := Terms(concurrent, upcoming, exempt);
    var env, d := Crowded(n, owner, actor, settings), Draft(Desk(n), subject, 3600, 7200);
    DeskOf(actor.org, n + 1, 0, settings, env.bookFor, n);
    assert Exempt(settings, actor, actor.org) == exempt;
    assert AdvanceVerdict(settings, exempt, 0, 0, d) == Done;
    if actor.id != owner {
      assert GetTimeRangeByUser(rows, actor.id, 3600, 7200, exclude) == {};
      assert GetUpcoming(env, rows, actor.id) == {};
    }
    assert RequestVerdict(env, rows, "L", actor, d, exclude, 0) == Done;
  }

  lemma CreationGoesThrough(
      n: nat, owner: UserId, actor: User, concurrent: nat, upcoming: nat, exempt: bool) returns (m: BookingRequest)
    requires actor.role >= ROLE_SPACE_ADMIN && (exempt || (actor.id != owner && upcoming > 0))
    ensures m.space == Desk(n)
    ensures
      var b := Booking(owner, Desk(n), 3600, 7200, true, "", None);
      Create(Crowded(n, owner, actor, Terms(concurrent, upcoming, exempt)), UsedUp(n, owner), actor, m).0 ==
      InsertBooking(UsedUp(n, owner), b)
  {
    m := OneMore(n, if actor.id == owner then "" else "for" + actor.email);
    var settings := Terms(concurrent, upcoming, exempt);
    var env, s := Crowded(n, owner, actor, settings), UsedUp(n, owner);
    DeskOf(actor.org, n + 1, 0, settings, env.bookFor, n);
    NextToTheOthers(n, owner, 3600, 7200);
    OneMoreIsAdmitted(n, owner, actor, concurrent, upcoming, exempt, s.bookings, "", None);
    assert "for" + actor.email != actor.email by {
      assert |"for" + actor.email| != |actor.email|;
    }
    assert OwnerOfNew(env, actor, actor.org, m.userEmail) == (Done, owner);
    assert CreateGate(env, actor, m) == Done;
  }

  lemma ChangeGoesThrough(
      n: nat, owner: UserId, actor: User, concurrent: nat, upcoming: nat, exempt: bool, enter: int, leave: int)
    requires actor.role >= ROLE_SPACE_ADMIN || actor.id == owner
    requires if exempt then actor.role >= ROLE_SPACE_ADMIN else actor.id != owner || concurrent == 0
    ensures
      var env, s := Crowded(n, owner, actor, Terms(concurrent, upcoming, exempt)), WithOther(n, owner, enter, leave);
      Update(env, s, actor, n, OneMore(n, "")).0.bookings == SideBySide(n + 1, owner, 3600, 7200)
  {
    var settings, m := Terms(concurrent, upcoming, exempt), OneMore(n, "");
    var env, s := Crowded(n, owner, actor, settings), WithOther(n, owner, enter, leave);
    DeskOf(actor.org, n + 1, 0, settings, env.bookFor, n);
    OtherCanMove(n, owner, enter, leave);
    OneMoreIsAdmitted(n, owner, actor, concurrent, upcoming, exempt, s.bookings, "", Some(n));
    assert UpdateGate(env, s, actor, n, m) == Done;
  }

  /** A series of one booking. */
  function OneOff(n: nat, owner: UserId): Series {
    Series(owner, Desk(n), 3600, 7200, "", Daily(1), 3601)
  }

  lemma OneOffOccursOnce(n: nat, owner: UserId)
    ensures Occurrences(OneOff(n, owner)) == Some([3600])
  {
    var c: Cadence := Daily(1);
    assert Walk(c, 3601, NextTime(c, 3600), MAX_RECURRING_BOOKINGS - 1) == Some([]);
    assert Walk(c, 3601, 3600, MAX_RECURRING_BOOKINGS) == Some([3600] + []);
    assert [3600] + [] == [3600];
  }

  lemma SeriesGoesThrough(n: nat, actor: User, concurrent: nat, upcoming: nat)
    returns (e: Series, b: Booking)
    requires actor.role >= ROLE_SPACE_ADMIN
    ensures e.space == Desk(n)
    ensures b.user == actor.id && b.space == Desk(n) && b.enter == 3600 && b.leave == 7200
    ensures
      var env := Crowded(n, actor.id, actor, Terms(concurrent, upcoming, true));
      CreateSeries(env, UsedUp(n, actor.id), actor, e).0.bookings ==
      UsedUp(n, actor.id).bookings[n := b]
  {
    var owner, settings := actor.id, Terms(concurrent, upcoming, true);
    var env, s := Crowded(n, owner, actor, settings), UsedUp(n, owner);
    e := OneOff(n, owner);
    DeskOf(actor.org, n + 1, 0, settings, env.bookFor, n);
    NextToTheOthers(n, owner, 3600, 7200);
    OneMoreIsAdmitted(n, owner, actor, concurrent, upcoming, true, s.bookings, "", None);
    OneOffOccursOnce(n, owner);
    var s1 := InsertSeries(s, e.(user := actor.id));
    assert Decision(env, s1, actor, e, 3600) == Done;
    assert [3600][1..] == [];
    b := OccurrenceRow(env, actor, e, 0, 3600);
    assert InsertOccurrences(env, s1, actor, e, 0, [3600]).0 == InsertBooking(s1, b);
    assert SeriesGate(env, actor, e) == Done;
  }

  /** One booking more, in each of the three ways. */
  lemma StepByCreating(n: nat, owner: UserId, actor: User, concurrent: nat, upcoming: nat, exempt: bool)
    returns (call: Call)
    requires actor.role >= ROLE_SPACE_ADMIN && (exempt || (actor.id != owner && upcoming > 0))
    ensures MadeThisWay(ByCreating, actor, call.request) && SpaceAsked(call.request) == Desk(n)
    ensures call.env == Crowded(n, owner, actor, Terms(concurrent, upcoming, exempt))
    ensures Step(UsedUp(n, owner), call).bookings == SideBySide(n + 1, owner, 3600, 7200)
  {
    var m := CreationGoesThrough(n, owner, actor, concurrent, upcoming, exempt);
    call := Call(Crowded(n, owner, actor, Terms(concurrent, upcoming, exempt)), CreateBooking(actor, m));
    NextToTheOthers(n, owner, 3600, 7200);
  }

  lemma StepByChanging(
      n: nat, owner: UserId, actor: User, concurrent: nat, upcoming: nat, exempt: bool, enter: int, leave: int)
    returns (call: Call)
    requires actor.role >= ROLE_SPACE_ADMIN || actor.id == owner
    requires if exempt then actor.role >= ROLE_SPACE_ADMIN else actor.id != owner || concurrent == 0
    ensures MadeThisWay(ByChanging, actor, call.request) && SpaceAsked(call.request) == Desk(n)
    ensures call.env == Crowded(n, owner, actor, Terms(concurrent, upcoming, exempt))
    ensures Step(WithOther(n, owner, enter, leave), call).bookings == SideBySide(n + 1, owner, 3600, 7200)
  {
    ChangeGoesThrough(n, owner, actor, concurrent, upcoming, exempt, enter, leave);
    call := Call(
      Crowded(n, owner, actor, Terms(concurrent, upcoming, exempt)), UpdateBooking(actor, n, OneMore(n, "")));
  }

  lemma StepBySeries(n: nat, actor: User, concurrent: nat, upcoming: nat) returns (call: Call, b: Booking)
    requires actor.role >= ROLE_SPACE_ADMIN
    ensures MadeThisWay(BySeries, actor, call.request) && SpaceAsked(call.request) == Desk(n)
    ensures call.env == Crowded(n, actor.id, actor, Terms(concurrent, upcoming, true))
    ensures b.user == actor.id && b.space == Desk(n) && b.enter == 3600 && b.leave == 7200
    ensures Step(UsedUp(n, actor.id), call).bookings == UsedUp(n, actor.id).bookings[n := b]
  {
    var e;
    e, b := SeriesGoesThrough(n, actor, concurrent, upcoming);
    call := Call(Crowded(n, actor.id, actor, Terms(concurrent, upcoming, true)), CreateRecurring(actor, e));
  }

  lemma ReachedIsWellNumbered(calls: seq<Call>)
    ensures WellNumbered(Run(EMPTY, calls))
  {
    EmptyHolds(NoDoubleBooking);
    AlwaysCovered(EMPTY, calls);
    RunKeeps(NoDoubleBooking, EMPTY, calls);
  }
}
