/** The handlers for recurring bookings, proved to do what `Requests` says. */
module SeriesRouter {
  import opened Wrappers
  import opened Domain
  import opened Queries
  import opened Rules
  import opened Recurrence
  import opened Requests
  import opened BookingStore
  import BookingRouter

  method PrecheckSeries(store: Store, env: Env, actor: User, e: Series) returns (outcome: Outcome, res: seq<Outcome>)
    ensures (outcome, res) == Precheck(env, store.Snapshot(), actor, e)
  {
    if !env.HasSpace(e.space) {
      return BadRequest, [];
    }
    var location := env.spaces[e.space].location;
    if !CanAccessOrg(actor, env.locations[location].org) {
      return Forbidden, [];
    }
    if !env.SettingsOf(actor.org).featureRecurring {
      return PaymentRequired, [];
    }
    var bookings := CreateBookings(e);
    if bookings.None? {
      return BadRequest, [];
    }
    var times := bookings.value;
    res := [];
    for idx := 0 to |times|
      invariant res == Predictions(env, store.Snapshot(), actor, e, times)[..idx]
    {
      PredictionsNext(env, store.Snapshot(), actor, e, times, idx);
      var d := Occurrence(e, "", times[idx]);
      var verdict := BookingRouter.CheckBookingCreateUpdate(store, env, location, actor, d, None, idx);
      if verdict == Done && GetConflicts(store.bookings, e.space, d.enter, d.leave, None) != {} {
        verdict := Refused(SlotConflict);
      }
      res := res + [verdict];
    }
    assert res == Predictions(env, store.Snapshot(), actor, e, times);
    outcome := Done;
  }

  lemma PredictionsNext(env: Env, s: State, actor: User, e: Series, times: seq<int>, idx: nat)
    requires env.HasSpace(e.space) && idx < |times|
    ensures Predictions(env, s, actor, e, times)[..idx + 1] ==
            Predictions(env, s, actor, e, times)[..idx] + [Prediction(env, s, actor, e, times[idx], idx)]
  {
  }

  method CreateRecurring(store: Store, env: Env, actor: User, e: Series) returns (outcome: Outcome, res: seq<Outcome>)
    modifies store
    ensures (store.Snapshot(), outcome, res) == CreateSeries(env, old(store.Snapshot()), actor, e)
  {
    if !env.HasSpace(e.space) {
      return BadRequest, [];
    }
    var space := env.spaces[e.space];
    var loc := env.locations[space.location];
    if !loc.enabled || !space.enabled {
      return BadRequest, [];
    }
    if !env.SettingsOf(loc.org).allowRecurring {
      return BadRequest, [];
    }
    if SubjectMissing(env.SettingsOf(loc.org), space, e.subject) {
      return Refused(SubjectRequired), [];
    }
    if !CanAccessOrg(actor, loc.org) {
      return Forbidden, [];
    }
    if !env.SettingsOf(actor.org).featureRecurring {
      return PaymentRequired, [];
    }
    var id := store.CreateSeries(e.(user := actor.id));
    var bookings := CreateBookings(e);
    if bookings.None? {
      return BadRequest, [];
    }
    var times := bookings.value;
    res := [];
    ghost var start := store.Snapshot();
    NothingYet(env, start, actor, e, id, times);
    for i := 0 to |times|
      invariant InsertOccurrences(env, start, actor, e, id, times) ==
                After(res, InsertOccurrences(env, store.Snapshot(), actor, e, id, times[i..]))
    {
      ghost var before := store.Snapshot();
      var d := Occurrence(e, e.subject, times[i]);
      var verdict := BookingRouter.CheckBookingCreateUpdate(store, env, space.location, actor, d, None, 0);
      if verdict == Done && GetConflicts(store.bookings, e.space, d.enter, d.leave, None) != {} {
        verdict := Refused(SlotConflict);
      }
      if verdict == Done {
        var row := store.Create(OccurrenceRow(env, actor, e, id, times[i]));
      }
      OccurrenceStep(env, before, store.Snapshot(), actor, e, id, times, i, res, verdict);
      res := res + [verdict];
    }
    assert res + [] == res;
    outcome := Done;
  }

  function After(res: seq<Outcome>, rest: (State, seq<Outcome>)): (State, seq<Outcome>) {
    (rest.0, res + rest.1)
  }

  lemma NothingYet(env: Env, s: State, actor: User, e: Series, id: SeriesId, times: seq<int>)
    requires env.HasSpace(e.space)
    ensures After([], InsertOccurrences(env, s, actor, e, id, times[0..])) ==
            InsertOccurrences(env, s, actor, e, id, times)
  {
    assert times[0..] == times;
    var (s', verdicts) := InsertOccurrences(env, s, actor, e, id, times);
    assert [] + verdicts == verdicts;
  }

  lemma OccurrenceStep(
      env: Env, s: State, s': State, actor: User, e: Series, id: SeriesId, times: seq<int>, i: nat,
      res: seq<Outcome>, verdict: Outcome)
    requires env.HasSpace(e.space) && i < |times|
    requires verdict == Decision(env, s, actor, e, times[i])
    requires s' == if verdict == Done then InsertBooking(s, OccurrenceRow(env, actor, e, id, times[i])) else s
    ensures After(res, InsertOccurrences(env, s, actor, e, id, times[i..])) ==
            After(res + [verdict], InsertOccurrences(env, s', actor, e, id, times[i + 1..]))
  {
    var rest := times[i..];
    assert rest[0] == times[i] && rest[1..] == times[i + 1..];
    var (_, verdicts) := InsertOccurrences(env, s', actor, e, id, times[i + 1..]);
    assert res + ([verdict] + verdicts) == res + [verdict] + verdicts;
  }

  method DeleteRecurring(store: Store, env: Env, actor: User, id: SeriesId) returns (outcome: Outcome)
    modifies store
    ensures (store.Snapshot(), outcome) == Requests.DeleteSeries(env, old(store.Snapshot()), actor, id)
  {
    if id !in store.series {
      return NotFound;
    }
    var e := store.series[id];
    if !env.HasSpace(e.space) {
      return BadRequest;
    }
    var loc := env.locations[env.spaces[e.space].location];
    if !CanAccessOrg(actor, loc.org) {
      return Forbidden;
    }
    if e.user != actor.id && !CanSpaceAdminOrg(actor, loc.org) {
      return Forbidden;
    }
    store.DeleteSeries(id, env.now + loc.utcOffset);
    outcome := Done;
  }
}
