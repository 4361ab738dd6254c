/** How the two tables stay consistent with each other, and what one request undoes of another. */
module Integrity {
  import opened Wrappers
  import opened Calendar
  import opened Domain
  import opened FiniteSets
  import opened Queries
  import opened Rules
  import opened Recurrence
  import opened Requests
  import opened Runs

  /** `b` is what the series `e` stores for one of its occurrences. */
  predicate OccurrenceOf(e: Series, b: Booking) {
    && b.user == e.user
    && b.space == e.space
    && b.leave - b.enter == e.leave - e.enter
    && Occurrences(e).Some?
    && b.enter in Occurrences(e).value
  }

  predicate RowIntact(s: State, b: Booking) {
    b.series.Some? ==> b.series.value in s.series && OccurrenceOf(s.series[b.series.value], b)
  }

  /** Every booking that names a series is an occurrence of a series that is still there. */
  predicate Intact(s: State) {
    && WellNumbered(s)
    && (forall r | r in s.series :: r < s.nextSeries)
    && (forall id | id in s.bookings :: RowIntact(s, s.bookings[id]))
  }

  lemma {:induction false} OccurrencesIntact(
      env: Env, s: State, actor: User, e: Series, id: SeriesId, times: seq<int>)
    requires env.HasSpace(e.space) && Intact(s)
    requires id in s.series && s.series[id] == e.(user := actor.id) && Occurrences(e).Some?
    requires forall t | t in times :: t in Occurrences(e).value
    ensures Intact(InsertOccurrences(env, s, actor, e, id, times).0)
    decreases |times|
  {
    if times != [] {
      var s' := s;
      if Decision(env, s, actor, e, times[0]) == Done {
        var b := OccurrenceRow(env, actor, e, id, times[0]);
        assert times[0] in Occurrences(e).value;
        assert OccurrenceOf(e.(user := actor.id), b);
        s' := InsertBooking(s, b);
        forall o | o in s'.bookings
          ensures RowIntact(s', s'.bookings[o])
        {
          if o != s.nextBooking {
            assert RowIntact(s, s.bookings[o]);
          }
        }
      }
      OccurrencesIntact(env, s', actor, e, id, times[1..]);
    }
  }

  lemma CreateSeriesIntact(env: Env, s: State, actor: User, e: Series)
    requires Intact(s)
    ensures Intact(CreateSeries(env, s, actor, e).0)
  {
    if SeriesGate(env, actor, e) == Done {
      var s' := InsertSeries(s, e.(user := actor.id));
      forall o | o in s'.bookings
        ensures RowIntact(s', s'.bookings[o])
      {
        assert RowIntact(s, s.bookings[o]);
      }
      if Occurrences(e).Some? {
        OccurrencesIntact(env, s', actor, e, s.nextSeries, Occurrences(e).value);
      }
    }
  }

  lemma RemoveBookingIntact(s: State, id: BookingId)
    requires Intact(s) && id in s.bookings
    ensures Intact(RemoveBooking(s, id))
  {
    var s' := RemoveBooking(s, id);
    forall o | o in s'.bookings
      ensures RowIntact(s', s'.bookings[o])
    {
      assert RowIntact(s, s.bookings[o]);
    }
  }

  lemma RemoveSeriesIntact(s: State, r: SeriesId, now: int)
    requires Intact(s)
    ensures Intact(RemoveSeries(s, r, now))
  {
    var s' := RemoveSeries(s, r, now);
    forall o | o in s'.bookings
      ensures RowIntact(s', s'.bookings[o])
    {
      assert RowIntact(s, s.bookings[o]);
    }
  }

  lemma PurgeIntact(s: State, victims: set<BookingId>)
    requires Intact(s)
    ensures Intact(PurgeBookings(s, victims))
  {
    var s' := PurgeBookings(s, victims);
    forall o | o in s'.bookings
      ensures RowIntact(s', s'.bookings[o])
    {
      assert RowIntact(s, s.bookings[o]);
    }
  }

  /** A row written outside any series, or with its place, time and series unchanged. */
  lemma WriteIntact(s: State, id: BookingId, b: Booking, next: BookingId)
    requires Intact(s) && id < next && s.nextBooking <= next
    requires b.series == None ||
             (id in s.bookings && SamePlaceAndTime(s.bookings[id], b) && b.series == s.bookings[id].series)
    ensures Intact(s.(bookings := s.bookings[id := b], nextBooking := next))
  {
    var s' := s.(bookings := s.bookings[id := b], nextBooking := next);
    forall o | o in s'.bookings
      ensures RowIntact(s', s'.bookings[o])
    {
      if o in s.bookings {
        assert RowIntact(s, s.bookings[o]);
      }
    }
  }

  lemma CreateIntact(env: Env, s: State, actor: User, m: BookingRequest)
    requires Intact(s)
    ensures Intact(Create(env, s, actor, m).0)
  {
    var s' := Create(env, s, actor, m).0;
    if s' != s {
      WriteIntact(s, s.nextBooking, s'.bookings[s.nextBooking], s.nextBooking + 1);
    }
  }

  lemma UpdateIntact(env: Env, s: State, actor: User, id: BookingId, m: BookingRequest)
    requires Intact(s)
    ensures Intact(Update(env, s, actor, id, m).0)
  {
    var s' := Update(env, s, actor, id, m).0;
    if s' != s {
      WriteIntact(s, id, s'.bookings[id], s.nextBooking);
    }
  }

  lemma ApproveIntact(env: Env, s: State, actor: User, id: BookingId, accept: bool)
    requires Intact(s)
    ensures Intact(Approve(env, s, actor, id, accept).0)
  {
    if id in s.bookings {
      RemoveBookingIntact(s, id);
      WriteIntact(s, id, s.bookings[id].(approved := true), s.nextBooking);
    }
  }

  lemma StepIntact(s: State, call: Call)
    requires Intact(s)
    ensures Intact(Step(s, call))
  {
    var env := call.env;
    match call.request {
      case CreateBooking(actor, m) => CreateIntact(env, s, actor, m);
      case UpdateBooking(actor, id, m) => UpdateIntact(env, s, actor, id, m);
      case ApproveBooking(actor, id, accept) => ApproveIntact(env, s, actor, id, accept);
      case DeleteBooking(actor, id) =>
        if id in s.bookings {
          RemoveBookingIntact(s, id);
        }
      case CreateRecurring(actor, e) => CreateSeriesIntact(env, s, actor, e);
      case DeleteRecurring(actor, id) =>
        if id in s.series && env.HasSpace(s.series[id].space) {
          RemoveSeriesIntact(s, id, env.now + env.locations[env.spaces[s.series[id].space].location].utcOffset);
        }
      case PurgeOld(victims, _) => PurgeIntact(s, victims);
    }
  }

  lemma {:induction false} RunIntact(s: State, calls: seq<Call>)
    requires Intact(s)
    ensures Intact(Run(s, calls))
    decreases |calls|
  {
    if calls != [] {
      StepIntact(s, calls[0]);
      RunIntact(Step(s, calls[0]), calls[1..]);
    }
  }

  /**
    In every reachable state a booking that names a series belongs to the owner of that series, is
    in its space, has its length, and starts at one of its due times.
   */
  lemma SeriesBookingsAreDue(calls: seq<Call>, id: BookingId)
    requires id in Run(EMPTY, calls).bookings && Run(EMPTY, calls).bookings[id].series.Some?
    ensures
      var s := Run(EMPTY, calls);
      var b := s.bookings[id];
      && b.series.value in s.series
      && OccurrenceOf(s.series[b.series.value], b)
      && (InOrder(s.series[b.series.value].cadence) ==>
            var e := s.series[b.series.value];
            Due(e.cadence, First(e), b.enter) && b.enter < e.end)
  {
    RunIntact(EMPTY, calls);
    var s := Run(EMPTY, calls);
    assert RowIntact(s, s.bookings[id]);
    var e := s.series[s.bookings[id].series.value];
    if InOrder(e.cadence) {
      DueWhenListed(e, s.bookings[id].enter);
    }
  }

  lemma DueWhenListed(e: Series, t: int)
    requires InOrder(e.cadence) && Occurrences(e).Some? && t in Occurrences(e).value
    ensures Due(e.cadence, First(e), t) && t < e.end
  {
    ExpansionIsExact(e);
    assert t in (set u | u in Occurrences(e).value);
    assert t in DueTimes(e.cadence, First(e), First(e), e.end);
  }

  /**
    The creation of a series that fails leaves the tables as they were, unless it fails for the
    number of occurrences (with weekdays in order, if more than 365 times are due): then the row of
    the series stays behind, without any booking.
   */
  lemma RefusalLeavesNoTraceIff(env: Env, s: State, actor: User, e: Series)
    requires Intact(s) && CreateSeries(env, s, actor, e).1 != Done
    ensures
      var s' := CreateSeries(env, s, actor, e).0;
      && (s'.bookings == s.bookings && s'.series == s.series <==>
          !(SeriesGate(env, actor, e) == Done && Occurrences(e) == None))
      && (InOrder(e.cadence) ==>
            (Occurrences(e) == None <==>
             |DueTimes(e.cadence, First(e), First(e), e.end)| > 365))
      && (s'.series != s.series ==>
            s'.series == s.series[s.nextSeries := e.(user := actor.id)] &&
            forall id | id in s'.bookings :: s'.bookings[id].series != Some(s.nextSeries))
  {
    var s' := CreateSeries(env, s, actor, e).0;
    if s' != s {
      assert s.nextSeries in s'.series && s.nextSeries !in s.series;
    }
    if InOrder(e.cadence) {
      ExpansionIsExact(e);
    }
    forall id | id in s.bookings
      ensures s.bookings[id].series != Some(s.nextSeries)
    {
      assert RowIntact(s, s.bookings[id]);
    }
  }

  lemma {:induction false} DailyRunsOutOfRoom(t: int, end: int, room: nat)
    requires t + DAY * room < end
    ensures Walk(Daily(1), end, t, room) == None
    decreases room
  {
    if room > 0 {
      assert NextTime(Daily(1), t) == t + DAY;
      DailyRunsOutOfRoom(t + DAY, end, room - 1);
    }
  }

  /** One booking on each day of a leap year is such a series. */
  lemma LeapYearIsTooLong(user: UserId, space: SpaceId)
    ensures Occurrences(Series(user, space, 0, 3600, "", Daily(1), 366 * DAY)) == None
  {
    DailyRunsOutOfRoom(0, 366 * DAY, MAX_RECURRING_BOOKINGS);
  }

  /** Deleting a booking right after it was created leaves the tables as they were. */
  lemma DeleteUndoesCreate(env: Env, s: State, actor: User, m: BookingRequest)
    requires WellNumbered(s) && Create(env, s, actor, m).1 == Done
    requires Delete(env, Create(env, s, actor, m).0, actor, s.nextBooking).1 == Done
    ensures
      var s' := Delete(env, Create(env, s, actor, m).0, actor, s.nextBooking).0;
      s'.bookings == s.bookings && s'.series == s.series
  {
    var created := Create(env, s, actor, m).0;
    assert created.bookings - {s.nextBooking} == s.bookings;
  }

  /** If a state has only later bookings of a new series on top of another one, removing that gives the other back. */
  lemma RemovedAgain(s: State, created: State, r: SeriesId, now: int)
    requires r !in s.series && r in created.series && created.series - {r} == s.series
    requires forall o | o in s.bookings ::
               && s.bookings[o].series != Some(r)
               && o in created.bookings && created.bookings[o] == s.bookings[o]
    requires forall o | o in created.bookings && o !in s.bookings ::
               created.bookings[o].series == Some(r) && created.bookings[o].enter > now
    ensures
      var s' := RemoveSeries(created, r, now);
      s'.bookings == s.bookings && s'.series == s.series
  {
  }

  /** Deleting a series before any of its occurrences has begun leaves the tables as they were. */
  lemma DeleteUndoesCreateSeries(env: Env, s: State, actor: User, e: Series, now: int)
    requires Intact(s) && InOrder(e.cadence) && CreateSeries(env, s, actor, e).1 == Done && now < e.enter
    ensures
      var s' := RemoveSeries(CreateSeries(env, s, actor, e).0, s.nextSeries, now);
      s'.bookings == s.bookings && s'.series == s.series
  {
    var times := Occurrences(e).value;
    var s1 := InsertSeries(s, e.(user := actor.id));
    var created := CreateSeries(env, s, actor, e).0;
    forall t | t in times
      ensures now < t
    {
      NotBeforeStart(e, t);
    }
    OnlyLaterRowsAdded(env, s1, actor, e, s.nextSeries, times, now);
    forall id | id in s.bookings
      ensures s.bookings[id].series != Some(s.nextSeries)
    {
      assert RowIntact(s, s.bookings[id]);
    }
    RemovedAgain(s, created, s.nextSeries, now);
  }

  lemma {:induction false} OnlyLaterRowsAdded(
      env: Env, s: State, actor: User, e: Series, id: SeriesId, times: seq<int>, now: int)
    requires env.HasSpace(e.space) && WellNumbered(s)
    requires forall t | t in times :: now < t
    ensures
      var s' := InsertOccurrences(env, s, actor, e, id, times).0;
      && s'.series == s.series
      && (forall o | o in s.bookings :: o in s'.bookings && s'.bookings[o] == s.bookings[o])
      && (forall o | o in s'.bookings && o !in s.bookings ::
            s'.bookings[o].series == Some(id) && s'.bookings[o].enter > now)
    decreases |times|
  {
    if times != [] {
      var s' := if Decision(env, s, actor, e, times[0]) == Done
                then InsertBooking(s, OccurrenceRow(env, actor, e, id, times[0])) else s;
      assert times[0] in times;
      assert forall t | t in times[1..] :: t in times;
      OnlyLaterRowsAdded(env, s', actor, e, id, times[1..], now);
    }
  }

  /** No occurrence starts before the series does. */
  lemma NotBeforeStart(e: Series, t: int)
    requires InOrder(e.cadence) && Occurrences(e).Some? && t in Occurrences(e).value
    ensures e.enter <= t
  {
    DueWhenListed(e, t);
    FirstNotBeforeStart(e);
  }

  lemma FirstNotBeforeStart(e: Series)
    requires InOrder(e.cadence)
    ensures e.enter <= First(e)
  {
    if e.cadence.Weekly? {
      StartsOnFirstListedDay(e);
    }
  }

  // ----- fewer bookings, no new refusals -----------------------------------------------------------------

  predicate Subtable(less: Table, rows: Table) {
    less.Keys <= rows.Keys && forall id | id in less :: less[id] == rows[id]
  }

  lemma {:induction false} PeakMonotone(
      less: Table, rows: Table, ids: set<BookingId>, ids': set<BookingId>, t: int, leave: int)
    requires Subtable(less, rows) && ids <= ids' && ids <= less.Keys
    ensures Peak(less, ids, t, leave) <= Peak(rows, ids', t, leave)
    decreases leave - t
  {
    if t <= leave {
      SubsetSize(Active(less, ids, t), Active(rows, ids', t));
      PeakMonotone(less, rows, ids, ids', t + SAMPLE, leave);
    }
  }

  lemma QueriesMonotone(
      env: Env, less: Table, rows: Table, spaces: set<SpaceId>, user: UserId, d: Draft, exclude: Option<BookingId>)
    requires Subtable(less, rows)
    ensures GetConflicts(less, d.space, d.enter, d.leave, exclude) <=
            GetConflicts(rows, d.space, d.enter, d.leave, exclude)
    ensures |GetTimeRangeByUser(less, user, d.enter, d.leave, exclude)| <=
            |GetTimeRangeByUser(rows, user, d.enter, d.leave, exclude)|
    ensures |GetUpcoming(env, less, user)| <= |GetUpcoming(env, rows, user)|
    ensures GetConcurrent(less, spaces, d.enter, d.leave, exclude) <=
            GetConcurrent(rows, spaces, d.enter, d.leave, exclude)
  {
    SubsetSize(
      GetTimeRangeByUser(less, user, d.enter, d.leave, exclude),
      GetTimeRangeByUser(rows, user, d.enter, d.leave, exclude));
    SubsetSize(GetUpcoming(env, less, user), GetUpcoming(env, rows, user));
    PeakMonotone(
      less, rows, GetNear(less, spaces, d.enter, d.leave, exclude), GetNear(rows, spaces, d.enter, d.leave, exclude),
      d.enter, d.leave);
  }

  /** A request that is admitted stays admissible when bookings go away. */
  lemma FreeingNeverBlocks(
      env: Env, less: Table, rows: Table, location: LocationId, actor: User, d: Draft, exclude: Option<BookingId>,
      markup: nat)
    requires location in env.locations && Subtable(less, rows)
    requires Admission(env, rows, location, actor, d, exclude, markup) == Done
    ensures Admission(env, less, location, actor, d, exclude, markup) == Done
  {
    QueriesMonotone(env, less, rows, env.SpacesOf(location), actor.id, d, exclude);
    assert RequestVerdict(env, rows, location, actor, d, exclude, markup) == Done;
    assert RequestVerdict(env, less, location, actor, d, exclude, markup) == Done;
  }

  lemma NoConflictInItsOwnPlace(rows: Table, id: BookingId)
    requires Holds(NoDoubleBooking, rows) && id in rows
    ensures GetConflicts(rows, rows[id].space, rows[id].enter, rows[id].leave, Some(id)) == {}
  {
    forall j | j in rows && j != id && rows[j].space == rows[id].space
      ensures !Clashes(rows[id].enter, rows[id].leave, rows[j])
    {
    }
  }

  lemma ConflictNeedsConflicts(env: Env, s: State, actor: User, id: BookingId, m: BookingRequest)
    requires GetConflicts(s.bookings, m.space, m.enter, m.leave, Some(id)) == {}
    ensures Update(env, s, actor, id, m).1 != AlreadyExists
  {
  }

  /** In a reachable state, moving a booking to where it already is meets no conflict. */
  lemma StayingPutMeetsNoConflict(calls: seq<Call>, env: Env, actor: User, id: BookingId, m: BookingRequest)
    requires id in Run(EMPTY, calls).bookings
    requires
      var b := Run(EMPTY, calls).bookings[id];
      m.space == b.space && m.enter == b.enter && m.leave == b.leave
    ensures Update(env, Run(EMPTY, calls), actor, id, m).1 != AlreadyExists
  {
    var s := Run(EMPTY, calls);
    EmptyHolds(NoDoubleBooking);
    AlwaysCovered(EMPTY, calls);
    RunKeeps(NoDoubleBooking, EMPTY, calls);
    NoConflictInItsOwnPlace(s.bookings, id);
    ConflictNeedsConflicts(env, s, actor, id, m);
  }
}
