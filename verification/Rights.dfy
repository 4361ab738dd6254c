/** Who can bring about what: approval, and the bookings of other users. */
module Rights {
  import opened Wrappers
  import opened Domain
  import opened Queries
  import opened Rules
  import opened Recurrence
  import opened Requests
  import opened Runs
  import opened Integrity
  import opened Guards

  // ----- a series touches no older row ------------------------------------------------------------

  lemma {:induction false} OccurrencesKeepRows(
      env: Env, s: State, actor: User, e: Series, id: SeriesId, times: seq<int>, row: BookingId)
    requires env.HasSpace(e.space) && WellNumbered(s)
    ensures
      var s' := InsertOccurrences(env, s, actor, e, id, times).0;
      && (row in s.bookings ==> row in s'.bookings && s'.bookings[row] == s.bookings[row])
      && (row in s'.bookings && row !in s.bookings ==>
            exists t :: s'.bookings[row] == OccurrenceRow(env, actor, e, id, t))
    decreases |times|
  {
    if times != [] {
      var s' := if Decision(env, s, actor, e, times[0]) == Done
                then InsertBooking(s, OccurrenceRow(env, actor, e, id, times[0])) else s;
      OccurrencesKeepRows(env, s', actor, e, id, times[1..], row);
      if row == s.nextBooking && row in s'.bookings {
        assert s'.bookings[row] == OccurrenceRow(env, actor, e, id, times[0]);
      }
    }
  }

  lemma CreateSeriesKeepsRows(env: Env, s: State, actor: User, e: Series, row: BookingId)
    requires WellNumbered(s)
    ensures
      var s' := CreateSeries(env, s, actor, e).0;
      && (row in s.bookings ==> row in s'.bookings && s'.bookings[row] == s.bookings[row])
      && (row in s'.bookings && row !in s.bookings ==>
            && env.HasSpace(e.space)
            && exists t :: s'.bookings[row] == OccurrenceRow(env, actor, e, s.nextSeries, t))
  {
    if SeriesGate(env, actor, e) == Done && Occurrences(e).Some? {
      OccurrencesKeepRows(
        env, InsertSeries(s, e.(user := actor.id)), actor, e, s.nextSeries, Occurrences(e).value, row);
    }
  }

  // ----- approval -----------------------------------------------------------------------------------

  /** An approval is never taken back; it is given only by an administrator who may approve for the space. */
  lemma ApprovalOnlyByApprover(s: State, call: Call, id: BookingId)
    requires WellNumbered(s) && id in s.bookings && id in Step(s, call).bookings
    ensures s.bookings[id].approved ==> Step(s, call).bookings[id].approved
    ensures !s.bookings[id].approved && Step(s, call).bookings[id].approved ==>
      && call.request.ApproveBooking? && call.request.id == id && call.request.accept
      && call.request.actor.role >= 10
      && call.env.HasSpace(s.bookings[id].space)
      && GroupsAllow(call.env.spaces[s.bookings[id].space].approvers, call.request.actor.groups)
      && s.bookings[id].leave >= call.env.now - 86400
  {
    if call.request.ApproveBooking? {
      ApproveDoneIff(call.env, s, call.request.actor, call.request.id, call.request.accept);
    }
    if call.request.CreateRecurring? {
      CreateSeriesKeepsRows(call.env, s, call.request.actor, call.request.e, id);
    }
  }

  /** A new booking starts out approved exactly if its space asks for no approval. */
  lemma NewBookingApproval(s: State, call: Call, id: BookingId)
    requires WellNumbered(s) && id !in s.bookings && id in Step(s, call).bookings
    ensures
      var b := Step(s, call).bookings[id];
      && call.env.HasSpace(b.space)
      && var space := call.env.spaces[b.space];
         b.approved <==>
           !call.env.SettingsOf(call.env.locations[space.location].org).featureGroups || space.approvers == []
  {
    if call.request.CreateRecurring? {
      CreateSeriesKeepsRows(call.env, s, call.request.actor, call.request.e, id);
    }
  }

  // ----- other users' bookings -------------------------------------------------------------------------

  /** A request by somebody who administers nothing. */
  predicate ByOrdinaryUser(request: Request) {
    !request.PurgeOld? && request.actor.role < ROLE_SPACE_ADMIN
  }

  lemma DeleteSeriesKeepsOthers(env: Env, s: State, actor: User, series: SeriesId, id: BookingId)
    requires Intact(s) && actor.role < ROLE_SPACE_ADMIN
    requires id in s.bookings && s.bookings[id].user != actor.id
    ensures
      var s' := DeleteSeries(env, s, actor, series).0;
      id in s'.bookings && s'.bookings[id] == s.bookings[id]
  {
    assert RowIntact(s, s.bookings[id]);
  }

  /** In a consistent state no request of an ordinary user changes or removes a booking of another. */
  lemma OrdinaryUserLeavesOthersAlone(s: State, call: Call, id: BookingId)
    requires Intact(s) && ByOrdinaryUser(call.request)
    requires id in s.bookings && s.bookings[id].user != call.request.actor.id
    ensures id in Step(s, call).bookings && Step(s, call).bookings[id] == s.bookings[id]
  {
    var env := call.env;
    match call.request {
      case CreateRecurring(actor, e) => CreateSeriesKeepsRows(env, s, actor, e, id);
      case DeleteRecurring(actor, series) => DeleteSeriesKeepsOthers(env, s, actor, series, id);
      case _ =>
    }
  }

  /** Nor does such a request create a booking for anybody else. */
  lemma OrdinaryUserBooksForHimself(s: State, call: Call, id: BookingId)
    requires WellNumbered(s) && ByOrdinaryUser(call.request)
    requires id !in s.bookings && id in Step(s, call).bookings
    ensures Step(s, call).bookings[id].user == call.request.actor.id
  {
    if call.request.CreateRecurring? {
      CreateSeriesKeepsRows(call.env, s, call.request.actor, call.request.e, id);
    }
  }

  /** So from any reachable state on, another user's booking survives any run of such requests unchanged. */
  lemma {:induction false} OthersBookingsSurvive(s: State, calls: seq<Call>, id: BookingId, user: UserId)
    requires Intact(s) && id in s.bookings && s.bookings[id].user == user
    requires forall i | 0 <= i < |calls| :: ByOrdinaryUser(calls[i].request) && calls[i].request.actor.id != user
    ensures id in Run(s, calls).bookings && Run(s, calls).bookings[id] == s.bookings[id]
    decreases |calls|
  {
    if calls != [] {
      OrdinaryUserLeavesOthersAlone(s, calls[0], id);
      StepIntact(s, calls[0]);
      OthersBookingsSurvive(Step(s, calls[0]), calls[1..], id, user);
    }
  }
}
