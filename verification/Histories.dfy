/** What requests, one by one and in whole runs, can bring about in the tables, and what they cannot. */
module Histories {
  import opened Wrappers
  import opened Calendar
  import opened Domain
  import opened Queries
  import opened Rules
  import opened Recurrence
  import opened Requests
  import opened Runs
  import opened Sites
  import opened Guards
  import opened Effects
  import Integrity
  import Rights
  import DailyBasis
  import Weekdays

  // ----- what a stored booking says about the request ---------------------------------------------------

  /** The call gives the row its owner, place and time, or changes one of them. */
  predicate Writes(s: State, call: Call, id: BookingId) {
    id in Step(s, call).bookings &&
    (id !in s.bookings || !SamePlaceAndTime(s.bookings[id], Step(s, call).bookings[id]))
  }

  /**
    Whichever request gives a booking its owner, place and time: the space is there, and the booking fits
    whatever others there are, by the rules for whoever makes the request.
   */
  lemma WrittenBookingFits(s: State, call: Call, id: BookingId)
    requires WellNumbered(s) && Writes(s, call, id)
    ensures WayOf(call.request).Some?
    ensures
      var b, env := Step(s, call).bookings[id], call.env;
      && env.HasSpace(b.space)
      && FitsAnyway(
           env, env.spaces[b.space].location, call.request.actor, Draft(b.space, b.subject, b.enter, b.leave))
  {
    var env := call.env;
    match call.request {
      case CreateBooking(actor, m) =>
        var owner := CreateEffect(env, s, actor, m);
        CreateDoneIff(env, s, actor, m);
      case UpdateBooking(actor, o, m) =>
        var owner := UpdateEffect(env, s, actor, o, m);
        UpdateDoneIff(env, s, actor, o, m);
      case CreateRecurring(actor, e) => WrittenOccurrenceFits(env, s, actor, e, id);
      case ApproveBooking(actor, o, accept) => ApproveShrinks(env, s, actor, o, accept);
      case DeleteBooking(actor, o) => DeleteShrinks(env, s, actor, o);
      case DeleteRecurring(actor, r) => DeleteSeriesShrinks(env, s, actor, r);
      case PurgeOld(_, _) => PurgeEffect(s, call);
    }
  }

  lemma WrittenOccurrenceFits(env: Env, s: State, actor: User, e: Series, id: BookingId)
    requires WellNumbered(s) && Writes(s, Call(env, CreateRecurring(actor, e)), id)
    ensures
      var b := CreateSeries(env, s, actor, e).0.bookings[id];
      && env.HasSpace(e.space) && b.space == e.space
      && FitsAnyway(env, env.spaces[b.space].location, actor, Draft(b.space, b.subject, b.enter, b.leave))
  {
    CreateSeriesEffect(env, s, actor, e);
    var start, times := InsertSeries(s, e.(user := actor.id)), Occurrences(e).value;
    StoredOccurrenceFits(env, start, actor, e, s.nextSeries, times, id);
  }

  lemma {:induction false} StoredOccurrenceFits(
      env: Env, s: State, actor: User, e: Series, r: SeriesId, times: seq<int>, id: BookingId)
    requires env.HasSpace(e.space) && WellNumbered(s)
    requires id !in s.bookings && id in InsertOccurrences(env, s, actor, e, r, times).0.bookings
    ensures
      var b := InsertOccurrences(env, s, actor, e, r, times).0.bookings[id];
      && b.space == e.space
      && FitsAnyway(env, env.spaces[b.space].location, actor, Draft(b.space, b.subject, b.enter, b.leave))
    decreases |times|
  {
    if times != [] {
      var d := Occurrence(e, e.subject, times[0]);
      AdmittedIff(env, s.bookings, env.spaces[e.space].location, actor, d, None, 0);
      var next := s;
      if Decision(env, s, actor, e, times[0]) == Done {
        next := InsertBooking(s, OccurrenceRow(env, actor, e, r, times[0]));
        OccurrencesEffect(env, next, actor, e, r, times[1..]);
      }
      if id !in next.bookings {
        StoredOccurrenceFits(env, next, actor, e, r, times[1..], id);
      }
    }
  }

  // ----- spaces that are not in use -----------------------------------------------------------------------

  /** After the call the row is in a space that is not in use, and it was not there before. */
  ghost predicate EntersUnused(s: State, call: Call, id: BookingId) {
    id in Step(s, call).bookings &&
    var space := Step(s, call).bookings[id].space;
    call.env.HasSpace(space) && !InUse(call.env, space) && (id in s.bookings ==> s.bookings[id].space != space)
  }

  /** In all reachable states, requests of that kind by `actor` put no booking into a space that is not in use. */
  ghost predicate LeavesUnusedAlone(way: Way, actor: User) {
    forall calls: seq<Call>, call: Call, id: BookingId | MadeThisWay(way, actor, call.request) ::
      !EntersUnused(Run(EMPTY, calls), call, id)
  }

  /** Only a creation by somebody without a role and a series keep out of such a space. */
  predicate ChecksUse(way: Way, actor: User) {
    way == BySeries || (way == ByCreating && actor.role < 10)
  }

  lemma CreationChecksUse(s: State, call: Call, id: BookingId)
    requires WellNumbered(s) && call.request.CreateBooking? && EntersUnused(s, call, id)
    ensures Administers(call.request.actor, OrgOf(call.env, Step(s, call).bookings[id].space))
  {
    var owner := CreateEffect(call.env, s, call.request.actor, call.request.m);
    CreateDoneIff(call.env, s, call.request.actor, call.request.m);
  }

  lemma SeriesChecksUse(s: State, call: Call, id: BookingId)
    requires WellNumbered(s) && call.request.CreateRecurring?
    ensures !EntersUnused(s, call, id)
  {
    CreateSeriesEffect(call.env, s, call.request.actor, call.request.e);
    CreateSeriesDoneIff(call.env, s, call.request.actor, call.request.e);
  }

  /** A site of two desks, of which the second is not in use. */
  function HalfOpen(actor: User): Env {
    Site(actor.org, 2, 0, Terms(0, 1, false), map[])
      .(spaces := map[Desk(0) := Space("L", true, false, [], []), Desk(1) := Space("L", false, false, [], [])])
  }

  lemma ClosedDeskIsAdmitted(actor: User, rows: Table, exclude: Option<BookingId>)
    requires forall id | id in rows && Some(id) != exclude :: rows[id].space != Desk(1)
    requires exclude == None ==> rows == map[]
    ensures Admission(
      HalfOpen(actor), rows, "L", actor, Draft(Desk(1), "", 3600, 7200), exclude, 0) == Done
  {
    var env, d := HalfOpen(actor), Draft(Desk(1), "", 3600, 7200);
    assert Desk(0) != Desk(1) by {
      assert |Desk(0)| != |Desk(1)|;
    }
    assert AdvanceVerdict(Terms(0, 1, false), false, 0, 0, d) == Done;
    if exclude == None {
      assert GetUpcoming(env, rows, actor.id) == {};
    }
    assert RequestVerdict(env, rows, "L", actor, d, exclude, 0) == Done;
    assert GetConflicts(rows, d.space, d.enter, d.leave, exclude) == {};
  }

  lemma DesksDiffer()
    ensures Desk(0) != Desk(1)
  {
    assert |Desk(0)| != |Desk(1)|;
  }

  lemma CreationEntersUnused(actor: User)
    requires actor.role >= 10
    ensures !LeavesUnusedAlone(ByCreating, actor)
  {
    var env, m := HalfOpen(actor), BookingRequest(Desk(1), "", 3600, 7200, "");
    DesksDiffer();
    ClosedDeskIsAdmitted(actor, map[], None);
    assert CreateGate(env, actor, m) == Done;
    var call := Call(env, CreateBooking(actor, m));
    assert Run(EMPTY, []) == EMPTY;
    assert MadeThisWay(ByCreating, actor, call.request);
    assert EntersUnused(EMPTY, call, 0);
  }

  /** A booking can be moved there by anybody whose booking it is. */
  lemma ChangeEntersUnused(actor: User)
    ensures !LeavesUnusedAlone(ByChanging, actor)
  {
    var env, m := HalfOpen(actor), BookingRequest(Desk(1), "", 3600, 7200, "");
    var calls := UsedUpIsReached(1, 1, actor.id);
    var s := UsedUp(1, actor.id);
    DesksDiffer();
    ClosedDeskIsAdmitted(actor, s.bookings, Some(0));
    assert UpdateGate(env, s, actor, 0, m) == Done;
    var call := Call(env, UpdateBooking(actor, 0, m));
    assert MadeThisWay(ByChanging, actor, call.request);
    assert EntersUnused(Run(EMPTY, calls), call, 0);
  }

  lemma LeavesUnusedAloneIff(way: Way, actor: User)
    ensures LeavesUnusedAlone(way, actor) <==> ChecksUse(way, actor)
  {
    if ChecksUse(way, actor) {
      forall calls: seq<Call>, call: Call, id: BookingId | MadeThisWay(way, actor, call.request)
        ensures !EntersUnused(Run(EMPTY, calls), call, id)
      {
        ReachedIsWellNumbered(calls);
        if EntersUnused(Run(EMPTY, calls), call, id) {
          if way == BySeries {
            SeriesChecksUse(Run(EMPTY, calls), call, id);
          } else {
            CreationChecksUse(Run(EMPTY, calls), call, id);
          }
        }
      }
    } else if way == ByCreating {
      CreationEntersUnused(actor);
    } else {
      ChangeEntersUnused(actor);
    }
  }

  /** The space is not in use, or not there at all, and the call does not move a booking. */
  ghost predicate KeepsOut(space: SpaceId, call: Call) {
    && (call.env.HasSpace(space) ==> !InUse(call.env, space))
    && !call.request.UpdateBooking?
    && (call.request.CreateBooking? ==> call.request.actor.role < 10)
  }

  /** As long as a space is not in use, no run of ordinary users without changes puts a booking into it. */
  lemma {:induction false} UnusedStaysEmpty(s: State, calls: seq<Call>, space: SpaceId)
    requires WellNumbered(s) && Holds(NoDoubleBooking, s.bookings)
    requires forall id | id in s.bookings :: s.bookings[id].space != space
    requires forall i | 0 <= i < |calls| :: KeepsOut(space, calls[i])
    ensures forall id | id in Run(s, calls).bookings :: Run(s, calls).bookings[id].space != space
    decreases |calls|
  {
    if calls != [] {
      var call, s' := calls[0], Step(s, calls[0]);
      forall id | id in s'.bookings
        ensures s'.bookings[id].space != space
      {
        if s'.bookings[id].space == space {
          assert Writes(s, call, id);
          WrittenBookingFits(s, call, id);
          if call.request.CreateBooking? {
            CreationChecksUse(s, call, id);
          } else {
            SeriesChecksUse(s, call, id);
          }
        }
      }
      StepKeeps(NoDoubleBooking, s, call);
      UnusedStaysEmpty(s', calls[1..], space);
    }
  }

  // ----- bookings that have begun ----------------------------------------------------------------------------

  predicate Begun(env: Env, b: Booking) {
    env.HasSpace(b.space) && b.enter <= LocalNow(env, b.space)
  }

  /** The call is one that removes this booking by itself: a deletion, a refusal or the clean-up. */
  predicate AimsAt(call: Call, id: BookingId) {
    match call.request
    case DeleteBooking(_, o) => o == id
    case ApproveBooking(_, o, accept) => o == id && !accept
    case PurgeOld(victims, _) => id in victims
    case _ => false
  }

  /** Nothing else removes a booking, except that the deletion of its series does if it has not begun. */
  lemma RemovedOnlyBy(s: State, call: Call, id: BookingId)
    requires Integrity.Intact(s) && id in s.bookings && id !in Step(s, call).bookings
    ensures AimsAt(call, id) || (call.request.DeleteRecurring? && !Begun(call.env, s.bookings[id])
                                 && s.bookings[id].series == Some(call.request.series))
  {
    var env := call.env;
    match call.request {
      case CreateBooking(actor, m) => var owner := CreateEffect(env, s, actor, m);
      case UpdateBooking(actor, o, m) => var owner := UpdateEffect(env, s, actor, o, m);
      case ApproveBooking(actor, o, accept) => ApproveEffect(env, s, actor, o, accept);
      case DeleteBooking(actor, o) => DeleteEffect(env, s, actor, o);
      case CreateRecurring(actor, e) => CreateSeriesEffect(env, s, actor, e);
      case DeleteRecurring(actor, r) =>
        if DeleteSeries(env, s, actor, r).1 == Done {
          DeleteSeriesEffect(s, call);
          assert Integrity.RowIntact(s, s.bookings[id]);
        }
      case PurgeOld(victims, batch) => assert id in victims;
    }
  }

  /** Whenever a series is deleted in the run, the booking (as it is then) has begun. */
  predicate BegunWhenDeleted(s: State, calls: seq<Call>, id: BookingId)
    decreases |calls|
  {
    calls == [] ||
    (&& (calls[0].request.DeleteRecurring? && id in s.bookings ==> Begun(calls[0].env, s.bookings[id]))
     && BegunWhenDeleted(Step(s, calls[0]), calls[1..], id))
  }

  /**
    A booking that has begun whenever a series is deleted survives every run in which no request is aimed
    at it: the deletion of its series only detaches it.
   */
  lemma {:induction false} BegunBookingsStay(s: State, calls: seq<Call>, id: BookingId)
    requires Integrity.Intact(s) && id in s.bookings && BegunWhenDeleted(s, calls, id)
    requires forall i | 0 <= i < |calls| :: !AimsAt(calls[i], id)
    ensures id in Run(s, calls).bookings
    decreases |calls|
  {
    if calls != [] {
      if id !in Step(s, calls[0]).bookings {
        RemovedOnlyBy(s, calls[0], id);
      }
      Integrity.StepIntact(s, calls[0]);
      BegunBookingsStay(Step(s, calls[0]), calls[1..], id);
    }
  }
}
