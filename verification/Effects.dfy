/** What each request changes in the tables, and what it leaves alone. */
module Effects {
  import opened Wrappers
  import opened Calendar
  import opened FiniteSets
  import opened Domain
  import opened Queries
  import opened Rules
  import opened Recurrence
  import opened Requests
  import opened Runs
  import opened Guards
  import Integrity
  import Rights
  import Forecast

  // ----- rows that come, change and go ------------------------------------------------------------------

  /** `s'` differs from `s` by the row `b` under a new id. */
  predicate Added(s: State, s': State, b: Booking) {
    && s'.bookings == s.bookings[s.nextBooking := b]
    && s'.nextBooking == s.nextBooking + 1
    && s'.series == s.series && s'.nextSeries == s.nextSeries
  }

  /** `s'` differs from `s` by the row `id`, which is now `b`. */
  predicate Replaced(s: State, s': State, id: BookingId, b: Booking) {
    && id in s.bookings
    && s'.bookings == s.bookings[id := b]
    && s'.nextBooking == s.nextBooking
    && s'.series == s.series && s'.nextSeries == s.nextSeries
  }

  /** `s'` lacks the row `id`, and with its last booking the series that it belonged to. */
  ghost predicate Removed(s: State, s': State, id: BookingId) {
    && id in s.bookings
    && s'.bookings == s.bookings - {id}
    && s'.nextBooking == s.nextBooking && s'.nextSeries == s.nextSeries
    && (forall r :: r in s'.series <==>
          r in s.series && (s.bookings[id].series == Some(r) ==>
                              exists o :: o in s.bookings && o != id && s.bookings[o].series == Some(r)))
    && (forall r | r in s'.series :: s'.series[r] == s.series[r])
  }

  /** A booking starts out approved unless groups are a feature and some of them approve for the space. */
  predicate StartsApproved(env: Env, space: SpaceId)
    requires env.HasSpace(space)
  {
    !env.SettingsOf(env.locations[env.spaces[space].location].org).featureGroups || env.spaces[space].approvers == []
  }

  /** A creation stores what was asked for, for the user it is for; or it changes nothing. */
  lemma CreateEffect(env: Env, s: State, actor: User, m: BookingRequest) returns (owner: UserId)
    ensures
      var (s', outcome) := Create(env, s, actor, m);
      if outcome == Done then
        && env.HasSpace(m.space)
        && OwnerFound(env, actor, OrgOf(env, m.space), m.userEmail, owner)
        && Added(s, s', Booking(owner, m.space, m.enter, m.leave, StartsApproved(env, m.space), m.subject, None))
      else s' == s
  {
    if env.HasSpace(m.space) {
      owner := OwnerOfNew(env, actor, OrgOf(env, m.space), m.userEmail).1;
    } else {
      owner := "";
    }
  }

  /** A change stores what was asked for, keeps the approval, and takes the booking out of its series. */
  lemma UpdateEffect(env: Env, s: State, actor: User, id: BookingId, m: BookingRequest) returns (owner: UserId)
    ensures
      var (s', outcome) := Update(env, s, actor, id, m);
      if outcome == Done then
        && id in s.bookings && env.HasSpace(m.space)
        && NewOwnerFound(env, actor, OrgOf(env, m.space), m.userEmail, s.bookings[id].user, owner)
        && Replaced(s, s', id, Booking(owner, m.space, m.enter, m.leave, s.bookings[id].approved, m.subject, None))
      else s' == s
  {
    if id in s.bookings && env.HasSpace(m.space) {
      owner := OwnerOfChanged(env, actor, OrgOf(env, m.space), m.userEmail, s.bookings[id].user).1;
    } else {
      owner := "";
    }
  }

  lemma RemovalEffect(s: State, id: BookingId)
    requires id in s.bookings
    ensures Removed(s, RemoveBooking(s, id), id)
  {
    match s.bookings[id].series {
      case None =>
      case Some(r) =>
        var rest := s.bookings - {id};
        if o :| o in s.bookings && o != id && s.bookings[o].series == Some(r) {
          assert o in rest && rest[o].series == Some(r);
        }
        if o :| o in rest && rest[o].series == Some(r) {
          assert o in s.bookings && o != id && s.bookings[o].series == Some(r);
        }
    }
  }

  /** An approval changes the approval only; a pending booking that is declined goes. */
  lemma ApproveEffect(env: Env, s: State, actor: User, id: BookingId, accept: bool)
    ensures
      var (s', outcome) := Approve(env, s, actor, id, accept);
      if outcome == Done && !s.bookings[id].approved then
        if accept then Replaced(s, s', id, s.bookings[id].(approved := true)) else Removed(s, s', id)
      else s' == s
  {
    if id in s.bookings {
      RemovalEffect(s, id);
    }
  }

  lemma DeleteEffect(env: Env, s: State, actor: User, id: BookingId)
    ensures
      var (s', outcome) := Delete(env, s, actor, id);
      if outcome == Done then Removed(s, s', id) else s' == s
  {
    if id in s.bookings {
      RemovalEffect(s, id);
    }
  }

  /** The clock of a location, which its bookings go by. */
  function LocalNow(env: Env, space: SpaceId): int
    requires env.HasSpace(space)
  {
    env.now + env.locations[env.spaces[space].location].utcOffset
  }

  /**
    Deleting a series removes exactly its bookings that have not begun. The others stay as they are but
    for the series they belonged to; bookings outside the series and all other series stay as they are.
   */
  lemma DeleteSeriesEffect(s: State, call: Call)
    requires call.request.DeleteRecurring?
    requires DeleteSeries(call.env, s, call.request.actor, call.request.series).1 == Done
    ensures
      var s', r := Step(s, call), call.request.series;
      && r in s.series && call.env.HasSpace(s.series[r].space)
      && (forall id :: id in s'.bookings <==>
            id in s.bookings &&
            (s.bookings[id].series == Some(r) ==> s.bookings[id].enter <= LocalNow(call.env, s.series[r].space)))
      && (forall id | id in s'.bookings ::
            var b := s.bookings[id];
            s'.bookings[id] == if b.series == Some(r) then b.(series := None) else b)
      && (forall q :: q in s'.series <==> q in s.series && q != r)
      && (forall q | q in s'.series :: s'.series[q] == s.series[q])
      && s'.nextBooking == s.nextBooking && s'.nextSeries == s.nextSeries
  {
  }

  lemma RefusedDeleteSeriesEffect(env: Env, s: State, actor: User, id: SeriesId)
    requires DeleteSeries(env, s, actor, id).1 != Done
    ensures DeleteSeries(env, s, actor, id).0 == s
  {
  }

  /**
    A booking that the clean-up removes was over more than 30 days before today, and more than the days
    that its organisation keeps bookings for; no more go than the batch allows. A series goes with its last
    booking, and one that never had any goes with it.
   */
  lemma PurgeEffect(s: State, call: Call)
    requires call.request.PurgeOld?
    ensures
      var s', env := Step(s, call), call.env;
      var today := env.now - env.now % 86400;
      && s'.nextBooking == s.nextBooking && s'.nextSeries == s.nextSeries
      && (forall id | id in s'.bookings :: id in s.bookings && s'.bookings[id] == s.bookings[id])
      && (forall id | id in s.bookings && id !in s'.bookings ::
            var b := s.bookings[id];
            && env.HasSpace(b.space)
            && TermsOf(env, b.space).retentionEnabled && TermsOf(env, b.space).retentionDays.Some?
            && b.leave < today - 86400 * 30 && b.leave < today - 86400 * TermsOf(env, b.space).retentionDays.value)
      && s.bookings.Keys - s'.bookings.Keys <= call.request.victims
      && |s.bookings.Keys - s'.bookings.Keys| <= call.request.batch
      && (s'.bookings == s.bookings ==> s'.series == s.series)
      && (s'.bookings != s.bookings ==>
            forall r :: r in s'.series <==>
              r in s.series && exists id :: id in s'.bookings && s'.bookings[id].series == Some(r))
      && (forall r | r in s'.series :: s'.series[r] == s.series[r])
  {
    var PurgeOld(victims, batch) := call.request;
    assert DayOf(call.env.now) * DAY == call.env.now - call.env.now % 86400;
    if PurgeChoice(call.env, s, victims, batch) {
      assert Step(s, call) == PurgeBookings(s, victims);
      SubsetSize(s.bookings.Keys - Step(s, call).bookings.Keys, victims);
      if victims != {} {
        var id :| id in victims;
        assert id in s.bookings && id !in Step(s, call).bookings;
      }
    }
  }

  /** All old bookings go in the end: what the clean-up leaves is not old, or the batch was full. */
  lemma PurgeIsThorough(env: Env, s: State, victims: set<BookingId>, batch: nat, id: BookingId)
    requires PurgeChoice(env, s, victims, batch) && |victims| < batch
    requires id in s.bookings && env.HasSpace(s.bookings[id].space)
    requires TermsOf(env, s.bookings[id].space).retentionEnabled
    requires TermsOf(env, s.bookings[id].space).retentionDays.Some?
    requires
      var today, leave := env.now - env.now % 86400, s.bookings[id].leave;
      && leave < today - 86400 * 30
      && leave < today - 86400 * TermsOf(env, s.bookings[id].space).retentionDays.value
    ensures id !in Step(s, Call(env, PurgeOld(victims, batch))).bookings
  {
    assert DayOf(env.now) * DAY == env.now - env.now % 86400;
    assert Purgeable(env, s.bookings[id]);
  }

  // ----- the row of a series -----------------------------------------------------------------------------

  /** `b` is the booking of the occurrence at `t` of a series that `actor` creates under the id `r`. */
  predicate OfSeries(env: Env, actor: User, e: Series, r: SeriesId, t: int, b: Booking)
    requires env.HasSpace(e.space)
  {
    b == Booking(actor.id, e.space, t, t + e.leave - e.enter, StartsApproved(env, e.space), e.subject, Some(r))
  }

  /**
    Creating a series adds its row and, for occurrences that are reported as done, their bookings;
    everything that was there stays as it is.
   */
  lemma CreateSeriesEffect(env: Env, s: State, actor: User, e: Series)
    requires WellNumbered(s)
    ensures
      var (s', outcome, verdicts) := CreateSeries(env, s, actor, e);
      && (outcome == Done ==>
            && env.HasSpace(e.space) && Occurrences(e).Some? && |verdicts| == |Occurrences(e).value|
            && s'.series == s.series[s.nextSeries := e.(user := actor.id)] && s'.nextSeries == s.nextSeries + 1
            && (forall id | id in s.bookings :: id in s'.bookings && s'.bookings[id] == s.bookings[id])
            && (forall i | 0 <= i < |verdicts| && verdicts[i] == Done ::
                  HasNew(s, s', env, actor, e, Occurrences(e).value[i]))
            && (forall id | id in s'.bookings && id !in s.bookings ::
                  IsNew(env, actor, e, s.nextSeries, Occurrences(e).value, verdicts, s'.bookings[id])))
      && (outcome != Done ==> s'.bookings == s.bookings)
  {
    if SeriesGate(env, actor, e) == Done && Occurrences(e).Some? {
      var start, times := InsertSeries(s, e.(user := actor.id)), Occurrences(e).value;
      OccurrencesEffect(env, start, actor, e, s.nextSeries, times);
      Forecast.OneVerdictEach(env, start, actor, e, s.nextSeries, times);
      var (s', verdicts) := InsertOccurrences(env, start, actor, e, s.nextSeries, times);
      forall i | 0 <= i < |verdicts| && verdicts[i] == Done
        ensures HasNew(s, s', env, actor, e, times[i])
      {
        var row := Forecast.AllDoneAllStored(env, start, actor, e, s.nextSeries, times, i);
      }
    }
  }

  /** The booking of the occurrence at `t` is among the new ones. */
  ghost predicate HasNew(s: State, s': State, env: Env, actor: User, e: Series, t: int)
    requires env.HasSpace(e.space)
  {
    exists id :: id in s'.bookings && id !in s.bookings && OfSeries(env, actor, e, s.nextSeries, t, s'.bookings[id])
  }

  /** `b` is the booking of one of the occurrences that are reported as done. */
  predicate IsNew(
      env: Env, actor: User, e: Series, r: SeriesId, times: seq<int>, verdicts: seq<Outcome>, b: Booking)
    requires env.HasSpace(e.space) && |verdicts| == |times|
  {
    exists i :: 0 <= i < |times| && verdicts[i] == Done && OfSeries(env, actor, e, r, times[i], b)
  }

  lemma {:induction false} OccurrencesEffect(
      env: Env, s: State, actor: User, e: Series, r: SeriesId, times: seq<int>)
    requires env.HasSpace(e.space) && WellNumbered(s)
    ensures
      var (s', verdicts) := InsertOccurrences(env, s, actor, e, r, times);
      && |verdicts| == |times|
      && s'.series == s.series && s'.nextSeries == s.nextSeries
      && (forall id | id in s.bookings :: id in s'.bookings && s'.bookings[id] == s.bookings[id])
      && (forall id | id in s'.bookings && id !in s.bookings ::
            IsNew(env, actor, e, r, times, verdicts, s'.bookings[id]))
    decreases |times|
  {
    if times != [] {
      var next := Forecast.AfterOccurrence(env, s, actor, e, r, times[0]);
      OccurrencesEffect(env, next, actor, e, r, times[1..]);
      var (s', verdicts) := InsertOccurrences(env, s, actor, e, r, times);
      var (_, rest) := InsertOccurrences(env, next, actor, e, r, times[1..]);
      assert verdicts == [Decision(env, s, actor, e, times[0])] + rest;
      forall id | id in s'.bookings && id !in s.bookings
        ensures IsNew(env, actor, e, r, times, verdicts, s'.bookings[id])
      {
        if id in next.bookings {
          assert OfSeries(env, actor, e, r, times[0], s'.bookings[id]);
        } else {
          var b := s'.bookings[id];
          var j :| 0 <= j < |times[1..]| && rest[j] == Done && OfSeries(env, actor, e, r, times[1..][j], b);
          assert times[j + 1] == times[1..][j] && verdicts[j + 1] == rest[j];
        }
      }
    }
  }
}
