/** Sequential runs of booking requests, and what every state they reach has in common. */
module Runs {
  import opened Wrappers
  import opened FiniteSets
  import opened Domain
  import opened Queries
  import opened Rules
  import opened Recurrence
  import opened Requests

  datatype Request =
    | CreateBooking(actor: User, m: BookingRequest)
    | UpdateBooking(actor: User, id: BookingId, m: BookingRequest)
    | ApproveBooking(actor: User, id: BookingId, accept: bool)
    | DeleteBooking(actor: User, id: BookingId)
    | CreateRecurring(actor: User, e: Series)
    | DeleteRecurring(actor: User, series: SeriesId)
    | PurgeOld(victims: set<BookingId>, batch: nat)

  /** A request together with the settings, spaces and clock it meets; these may change between calls. */
  datatype Call = Call(env: Env, request: Request)

  function Step(s: State, call: Call): State {
    var env := call.env;
    match call.request
    case CreateBooking(actor, m) => Create(env, s, actor, m).0
    case UpdateBooking(actor, id, m) => Update(env, s, actor, id, m).0
    case ApproveBooking(actor, id, accept) => Approve(env, s, actor, id, accept).0
    case DeleteBooking(actor, id) => Delete(env, s, actor, id).0
    case CreateRecurring(actor, e) => CreateSeries(env, s, actor, e).0
    case DeleteRecurring(actor, id) => DeleteSeries(env, s, actor, id).0
    case PurgeOld(victims, batch) =>
      if PurgeChoice(env, s, victims, batch) then PurgeBookings(s, victims) else s
  }

  function Run(s: State, calls: seq<Call>): State
    decreases |calls|
  {
    if calls == [] then s else Run(Step(s, calls[0]), calls[1..])
  }

  // ----- the invariants -----------------------------------------------------------------------

  datatype Invariant =
    | NoDoubleBooking
    | LocationCap(location: LocationId, spaces: set<SpaceId>, cap: nat)
    | UserCap(user: UserId, limit: nat)
    | WellFormed
    | Lasting(minHours: nat, maxHours: nat)

  /** The bookings of a user, except `exclude`, that the whole stretch from `s` to `e` belongs to. */
  function SharingOfUser(rows: Table, user: UserId, s: int, e: int, exclude: Option<BookingId>): set<BookingId> {
    set id | id in rows && Some(id) != exclude && rows[id].user == user && rows[id].enter <= s && e <= rows[id].leave
  }

  ghost predicate Holds(inv: Invariant, rows: Table) {
    match inv
    case NoDoubleBooking =>
      forall i, j | i in rows && j in rows && i != j && rows[i].space == rows[j].space ::
        !Clashes(rows[i].enter, rows[i].leave, rows[j])
    case LocationCap(_, spaces, cap) =>
      forall s, e | e - s > SAMPLE :: |Sharing(rows, spaces, s, e, None)| <= cap
    case UserCap(user, limit) =>
      forall s, e | s < e :: |SharingOfUser(rows, user, s, e, None)| <= limit
    case WellFormed =>
      forall id | id in rows :: rows[id].enter <= rows[id].leave
    case Lasting(minHours, maxHours) =>
      forall id | id in rows :: minHours * 3600 - 1 <= rows[id].leave - rows[id].enter < maxHours * 3600 + 60
  }

  /**
    What an invariant asks of a row that `actor` writes in `location` for `owner`: nothing to rule
    out double bookings; a fixed cap over a fixed set of spaces for the location's cap; that the
    user's own rows are written by that user, without exemption and under a fixed limit; for
    well-formed rows that the rule on durations applies by the hour; and for rows that last so long
    that it does so with a fixed minimum and maximum.
   */
  predicate Covered(inv: Invariant, env: Env, actor: User, location: LocationId, owner: UserId)
    requires location in env.locations
  {
    var org := env.locations[location].org;
    var settings := env.SettingsOf(org);
    match inv
    case NoDoubleBooking => true
    case LocationCap(l, spaces, cap) =>
      l in env.locations && env.SpacesOf(l) == spaces && env.locations[l].maxConcurrent == cap > 0
    case UserCap(user, limit) =>
      owner == user ==> actor.id == user && !Exempt(settings, actor, org) && settings.maxConcurrentPerUser == limit > 0
    case WellFormed =>
      !Exempt(settings, actor, org) && !settings.BooksByDay()
    case Lasting(minHours, maxHours) =>
      && !Exempt(settings, actor, org) && settings.dailyBasis == Some(false)
      && settings.minDurationHours == Some(minHours) && settings.maxDurationHours == maxHours
  }

  predicate CallCovered(inv: Invariant, s: State, call: Call) {
    var env := call.env;
    match call.request
    case CreateBooking(actor, m) =>
      CreateGate(env, actor, m) == Done ==>
        var location := env.spaces[m.space].location;
        Covered(inv, env, actor, location, OwnerOfNew(env, actor, env.locations[location].org, m.userEmail).1)
    case UpdateBooking(actor, id, m) =>
      UpdateGate(env, s, actor, id, m) == Done ==>
        var location := env.spaces[m.space].location;
        Covered(inv, env, actor, location,
                OwnerOfChanged(env, actor, env.locations[location].org, m.userEmail, s.bookings[id].user).1)
    case CreateRecurring(actor, e) =>
      SeriesGate(env, actor, e) == Done ==> Covered(inv, env, actor, env.spaces[e.space].location, actor.id)
    case _ => true
  }

  /** Every call of the run is covered in the state it meets. */
  predicate RunCovered(inv: Invariant, s: State, calls: seq<Call>)
    decreases |calls|
  {
    calls == [] || (CallCovered(inv, s, calls[0]) && RunCovered(inv, Step(s, calls[0]), calls[1..]))
  }

  // ----- rows that go, or keep their place and time ---------------------------------------------

  predicate SamePlaceAndTime(a: Booking, b: Booking) {
    a.user == b.user && a.space == b.space && a.enter == b.enter && a.leave == b.leave
  }

  predicate Shrinks(rows: Table, rows': Table) {
    rows'.Keys <= rows.Keys && forall id | id in rows' :: SamePlaceAndTime(rows[id], rows'[id])
  }

  lemma ShrinkKeeps(inv: Invariant, rows: Table, rows': Table)
    requires Holds(inv, rows) && Shrinks(rows, rows')
    ensures Holds(inv, rows')
  {
    match inv {
      case NoDoubleBooking =>
      case LocationCap(_, spaces, cap) =>
        forall s, e | e - s > SAMPLE
          ensures |Sharing(rows', spaces, s, e, None)| <= cap
        {
          SubsetSize(Sharing(rows', spaces, s, e, None), Sharing(rows, spaces, s, e, None));
        }
      case UserCap(user, limit) =>
        forall s, e | s < e
          ensures |SharingOfUser(rows', user, s, e, None)| <= limit
        {
          SubsetSize(SharingOfUser(rows', user, s, e, None), SharingOfUser(rows, user, s, e, None));
        }
      case WellFormed =>
      case Lasting(_, _) =>
    }
  }

  // ----- rows that the rules admit ----------------------------------------------------------------

  /** `id` is the row being changed, or a new one. */
  predicate Target(rows: Table, id: BookingId, exclude: Option<BookingId>) {
    exclude == Some(id) || (exclude == None && id !in rows)
  }

  /** Row `b` may be stored: the rules admitted its space and time. */
  predicate Admitted(
      env: Env, rows: Table, location: LocationId, actor: User, b: Booking, subject: string,
      exclude: Option<BookingId>, markup: nat)
  {
    && env.HasSpace(b.space)
    && location == env.spaces[b.space].location
    && Admission(env, rows, location, actor, Draft(b.space, subject, b.enter, b.leave), exclude, markup) == Done
  }

  lemma WriteKeepsNoDoubleBooking(rows: Table, id: BookingId, b: Booking, exclude: Option<BookingId>)
    requires Holds(NoDoubleBooking, rows) && Target(rows, id, exclude)
    requires GetConflicts(rows, b.space, b.enter, b.leave, exclude) == {}
    ensures Holds(NoDoubleBooking, rows[id := b])
  {
    forall j | j in rows && j != id && rows[j].space == b.space
      ensures !Clashes(b.enter, b.leave, rows[j]) && !Clashes(rows[j].enter, rows[j].leave, b)
    {
      assert j !in GetConflicts(rows, b.space, b.enter, b.leave, exclude);
      ClashSymmetric(b, rows[j]);
    }
  }

  lemma WriteKeepsLocationCap(
      inv: Invariant, rows: Table, id: BookingId, b: Booking, exclude: Option<BookingId>)
    requires inv.LocationCap? && Holds(inv, rows) && Target(rows, id, exclude)
    requires b.space in inv.spaces ==> GetConcurrent(rows, inv.spaces, b.enter, b.leave, exclude) < inv.cap
    ensures Holds(inv, rows[id := b])
  {
    var spaces, rows' := inv.spaces, rows[id := b];
    forall s, e | e - s > SAMPLE
      ensures |Sharing(rows', spaces, s, e, None)| <= inv.cap
    {
      var after := Sharing(rows', spaces, s, e, None);
      if id in after {
        var others := Sharing(rows, spaces, s, e, exclude);
        SubsetSize(after - {id}, others);
        SweepSeesLongStretch(rows, spaces, b.enter, b.leave, exclude, s, e);
      } else {
        SubsetSize(after, Sharing(rows, spaces, s, e, None));
      }
    }
  }

  lemma WriteKeepsUserCap(
      inv: Invariant, rows: Table, id: BookingId, b: Booking, exclude: Option<BookingId>)
    requires inv.UserCap? && Holds(inv, rows) && Target(rows, id, exclude)
    requires b.user == inv.user ==> |GetTimeRangeByUser(rows, inv.user, b.enter, b.leave, exclude)| < inv.limit
    ensures Holds(inv, rows[id := b])
  {
    var rows' := rows[id := b];
    forall s, e | s < e
      ensures |SharingOfUser(rows', inv.user, s, e, None)| <= inv.limit
    {
      var after := SharingOfUser(rows', inv.user, s, e, None);
      if id in after {
        SubsetSize(after - {id}, GetTimeRangeByUser(rows, inv.user, b.enter, b.leave, exclude));
      } else {
        SubsetSize(after, SharingOfUser(rows, inv.user, s, e, None));
      }
    }
  }

  lemma WriteKeeps(
      inv: Invariant, env: Env, rows: Table, location: LocationId, actor: User, id: BookingId, b: Booking,
      subject: string, exclude: Option<BookingId>, markup: nat)
    requires Holds(inv, rows) && Target(rows, id, exclude)
    requires Admitted(env, rows, location, actor, b, subject, exclude, markup)
    requires Covered(inv, env, actor, location, b.user)
    ensures Holds(inv, rows[id := b])
  {
    match inv {
      case NoDoubleBooking => WriteKeepsNoDoubleBooking(rows, id, b, exclude);
      case LocationCap(_, _, _) => WriteKeepsLocationCap(inv, rows, id, b, exclude);
      case UserCap(_, _) => WriteKeepsUserCap(inv, rows, id, b, exclude);
      case WellFormed =>
      case Lasting(minHours, maxHours) =>
        var settings := env.SettingsOf(env.locations[location].org);
        var d := Draft(b.space, subject, b.enter, b.leave);
        assert RequestVerdict(env, rows, location, actor, d, exclude, markup) == Done;
        HourlyMeaning(settings, d);
        MinimumMeaning(settings, d);
    }
  }

  // ----- whole requests and whole runs --------------------------------------------------------------

  lemma {:induction false} OccurrencesKeep(
      inv: Invariant, env: Env, s: State, actor: User, e: Series, id: SeriesId, times: seq<int>)
    requires WellNumbered(s) && Holds(inv, s.bookings)
    requires env.HasSpace(e.space) && Covered(inv, env, actor, env.spaces[e.space].location, actor.id)
    ensures
      var s' := InsertOccurrences(env, s, actor, e, id, times).0;
      WellNumbered(s') && Holds(inv, s'.bookings)
    decreases |times|
  {
    if times != [] {
      var s' := s;
      if Decision(env, s, actor, e, times[0]) == Done {
        var b := OccurrenceRow(env, actor, e, id, times[0]);
        WriteKeeps(inv, env, s.bookings, env.spaces[e.space].location, actor, s.nextBooking, b, e.subject, None, 0);
        s' := InsertBooking(s, b);
      }
      OccurrencesKeep(inv, env, s', actor, e, id, times[1..]);
    }
  }

  lemma CreateKeeps(inv: Invariant, env: Env, s: State, actor: User, m: BookingRequest)
    requires WellNumbered(s) && Holds(inv, s.bookings) && CallCovered(inv, s, Call(env, CreateBooking(actor, m)))
    ensures
      var s' := Create(env, s, actor, m).0;
      WellNumbered(s') && Holds(inv, s'.bookings)
  {
    var s' := Create(env, s, actor, m).0;
    if s' != s {
      var b := s'.bookings[s.nextBooking];
      WriteKeeps(inv, env, s.bookings, env.spaces[m.space].location, actor, s.nextBooking, b, m.subject, None, 0);
    }
  }

  lemma UpdateKeeps(inv: Invariant, env: Env, s: State, actor: User, id: BookingId, m: BookingRequest)
    requires WellNumbered(s) && Holds(inv, s.bookings) && CallCovered(inv, s, Call(env, UpdateBooking(actor, id, m)))
    ensures
      var s' := Update(env, s, actor, id, m).0;
      WellNumbered(s') && Holds(inv, s'.bookings)
  {
    var s' := Update(env, s, actor, id, m).0;
    if s' != s {
      var b := s'.bookings[id];
      WriteKeeps(inv, env, s.bookings, env.spaces[m.space].location, actor, id, b, m.subject, Some(id), 0);
    }
  }

  lemma CreateSeriesKeeps(inv: Invariant, env: Env, s: State, actor: User, e: Series)
    requires WellNumbered(s) && Holds(inv, s.bookings) && CallCovered(inv, s, Call(env, CreateRecurring(actor, e)))
    ensures
      var s' := CreateSeries(env, s, actor, e).0;
      WellNumbered(s') && Holds(inv, s'.bookings)
  {
    if SeriesGate(env, actor, e) == Done && Occurrences(e).Some? {
      OccurrencesKeep(
        inv, env, InsertSeries(s, e.(user := actor.id)), actor, e, s.nextSeries, Occurrences(e).value);
    }
  }

  lemma ApproveShrinks(env: Env, s: State, actor: User, id: BookingId, accept: bool)
    requires WellNumbered(s)
    ensures
      var s' := Approve(env, s, actor, id, accept).0;
      WellNumbered(s') && Shrinks(s.bookings, s'.bookings)
  {
  }

  lemma DeleteShrinks(env: Env, s: State, actor: User, id: BookingId)
    requires WellNumbered(s)
    ensures
      var s' := Delete(env, s, actor, id).0;
      WellNumbered(s') && Shrinks(s.bookings, s'.bookings)
  {
  }

  lemma DeleteSeriesShrinks(env: Env, s: State, actor: User, id: SeriesId)
    requires WellNumbered(s)
    ensures
      var s' := DeleteSeries(env, s, actor, id).0;
      WellNumbered(s') && Shrinks(s.bookings, s'.bookings)
  {
  }

  lemma StepKeeps(inv: Invariant, s: State, call: Call)
    requires WellNumbered(s) && Holds(inv, s.bookings) && CallCovered(inv, s, call)
    ensures WellNumbered(Step(s, call)) && Holds(inv, Step(s, call).bookings)
  {
    var env := call.env;
    match call.request {
      case CreateBooking(actor, m) => CreateKeeps(inv, env, s, actor, m);
      case UpdateBooking(actor, id, m) => UpdateKeeps(inv, env, s, actor, id, m);
      case CreateRecurring(actor, e) => CreateSeriesKeeps(inv, env, s, actor, e);
      case ApproveBooking(actor, id, accept) =>
        ApproveShrinks(env, s, actor, id, accept);
        ShrinkKeeps(inv, s.bookings, Step(s, call).bookings);
      case DeleteBooking(actor, id) =>
        DeleteShrinks(env, s, actor, id);
        ShrinkKeeps(inv, s.bookings, Step(s, call).bookings);
      case DeleteRecurring(actor, id) =>
        DeleteSeriesShrinks(env, s, actor, id);
        ShrinkKeeps(inv, s.bookings, Step(s, call).bookings);
      case PurgeOld(_, _) =>
        ShrinkKeeps(inv, s.bookings, Step(s, call).bookings);
    }
  }

  lemma {:induction false} RunKeeps(inv: Invariant, s: State, calls: seq<Call>)
    requires WellNumbered(s) && Holds(inv, s.bookings) && RunCovered(inv, s, calls)
    ensures WellNumbered(Run(s, calls)) && Holds(inv, Run(s, calls).bookings)
    decreases |calls|
  {
    if calls != [] {
      StepKeeps(inv, s, calls[0]);
      RunKeeps(inv, Step(s, calls[0]), calls[1..]);
    }
  }

  lemma EmptyHolds(inv: Invariant)
    ensures WellNumbered(EMPTY) && Holds(inv, EMPTY.bookings)
  {
    assert forall spaces, s, e :: Sharing(EMPTY.bookings, spaces, s, e, None) == {};
    assert forall user, s, e :: SharingOfUser(EMPTY.bookings, user, s, e, None) == {};
  }

  // ----- the results ----------------------------------------------------------------------------------

  lemma {:induction false} AlwaysCovered(s: State, calls: seq<Call>)
    ensures RunCovered(NoDoubleBooking, s, calls)
    decreases |calls|
  {
    if calls != [] {
      AlwaysCovered(Step(s, calls[0]), calls[1..]);
    }
  }

  /** No run whatsoever reaches a state in which two bookings of a space clash. */
  lemma NeverDoubleBooked(calls: seq<Call>, i: BookingId, j: BookingId)
    requires i != j && i in Run(EMPTY, calls).bookings && j in Run(EMPTY, calls).bookings
    requires Run(EMPTY, calls).bookings[i].space == Run(EMPTY, calls).bookings[j].space
    ensures
      var a, b := Run(EMPTY, calls).bookings[i], Run(EMPTY, calls).bookings[j];
      && !Clashes(a.enter, a.leave, b)
      && (a.enter <= a.leave && b.enter <= b.leave ==> a.leave < b.enter || b.leave < a.enter)
  {
    EmptyHolds(NoDoubleBooking);
    AlwaysCovered(EMPTY, calls);
    RunKeeps(NoDoubleBooking, EMPTY, calls);
  }

  /** In every call the location has these spaces and this cap. */
  predicate FixedLocation(location: LocationId, spaces: set<SpaceId>, cap: nat, calls: seq<Call>) {
    forall i | 0 <= i < |calls| ::
      && location in calls[i].env.locations
      && calls[i].env.SpacesOf(location) == spaces
      && calls[i].env.locations[location].maxConcurrent == cap
  }

  lemma {:induction false} FixedLocationCovers(
      location: LocationId, spaces: set<SpaceId>, cap: nat, s: State, calls: seq<Call>)
    requires cap > 0 && FixedLocation(location, spaces, cap, calls)
    ensures RunCovered(LocationCap(location, spaces, cap), s, calls)
    decreases |calls|
  {
    if calls != [] {
      FixedLocationCovers(location, spaces, cap, Step(s, calls[0]), calls[1..]);
    }
  }

  /** A fixed positive cap: at most that many bookings of the location share more than a minute. */
  lemma LocationNeverOverbooked(
      location: LocationId, spaces: set<SpaceId>, cap: nat, calls: seq<Call>, s: int, e: int)
    requires cap > 0 && FixedLocation(location, spaces, cap, calls)
    requires e - s > SAMPLE
    ensures |Sharing(Run(EMPTY, calls).bookings, spaces, s, e, None)| <= cap
  {
    var inv := LocationCap(location, spaces, cap);
    EmptyHolds(inv);
    FixedLocationCovers(location, spaces, cap, EMPTY, calls);
    RunKeeps(inv, EMPTY, calls);
  }

  /**
    A user whose bookings are all made and changed by that user, without exemption and under a
    fixed positive limit, never has more bookings than that at any instant.
   */
  lemma UserNeverOverbooked(user: UserId, limit: nat, calls: seq<Call>, s: int, e: int)
    requires limit > 0 && RunCovered(UserCap(user, limit), EMPTY, calls)
    requires s < e
    ensures |SharingOfUser(Run(EMPTY, calls).bookings, user, s, e, None)| <= limit
  {
    var inv := UserCap(user, limit);
    EmptyHolds(inv);
    RunKeeps(inv, EMPTY, calls);
  }

  /**
    Where bookings are made by the hour, nobody is exempt, and the shortest and longest duration are
    fixed, every booking lasts at least the one (but for a second) and not a minute more than the other.
   */
  lemma BookingsLastAsAllowed(minHours: nat, maxHours: nat, calls: seq<Call>, id: BookingId)
    requires RunCovered(Lasting(minHours, maxHours), EMPTY, calls) && id in Run(EMPTY, calls).bookings
    ensures
      var b := Run(EMPTY, calls).bookings[id];
      minHours * 3600 - 1 <= b.leave - b.enter < maxHours * 3600 + 60
  {
    EmptyHolds(Lasting(minHours, maxHours));
    RunKeeps(Lasting(minHours, maxHours), EMPTY, calls);
  }

  /** Where durations are checked by the hour and nobody is exempt, no booking ends before it starts. */
  lemma BookingsWellFormed(calls: seq<Call>, id: BookingId)
    requires RunCovered(WellFormed, EMPTY, calls) && id in Run(EMPTY, calls).bookings
    ensures Run(EMPTY, calls).bookings[id].enter <= Run(EMPTY, calls).bookings[id].leave
  {
    EmptyHolds(WellFormed);
    RunKeeps(WellFormed, EMPTY, calls);
  }
}
