/** When the precheck of a series can be relied upon. */
module Forecast {
  import opened Wrappers
  import opened Calendar
  import opened FiniteSets
  import opened Domain
  import opened Queries
  import opened Rules
  import opened Recurrence
  import opened Requests
  import Integrity
  import Runs
  import Weekdays

  /** Two occurrences of that length, starting at `t` and at `u`, leave a gap between them. */
  predicate Gap(t: int, u: int, length: int) {
    length < 0 || t + length < u || u + length < t
  }

  /** So do any two of the occurrences that start at `times`. */
  predicate Apart(times: seq<int>, length: int) {
    forall i, j | 0 <= i < j < |times| :: Gap(times[i], times[j], length)
  }

  function Length(e: Series): int {
    e.leave - e.enter
  }

  // ----- which occurrences can be stored at all ---------------------------------------------------

  /** With no booking in the way and no other occurrence before it, the occurrence is predicted. */
  predicate Possible(env: Env, actor: User, e: Series, at: int)
    requires env.HasSpace(e.space)
  {
    Prediction(env, EMPTY, actor, e, at, 0) == Done
  }

  ghost function PossibleTimes(env: Env, actor: User, e: Series): iset<int>
    requires env.HasSpace(e.space)
  {
    iset t: int | Possible(env, actor, e, t)
  }

  /** With no booking in the way the `i`-th occurrence is predicted. */
  predicate Promised(env: Env, actor: User, e: Series, times: seq<int>, i: nat)
    requires env.HasSpace(e.space) && i < |times|
  {
    Prediction(env, EMPTY, actor, e, times[i], i) == Done
  }

  predicate PromisedApart(env: Env, actor: User, e: Series, times: seq<int>)
    requires env.HasSpace(e.space)
  {
    forall i, j | 0 <= i < j < |times| && Promised(env, actor, e, times, i) && Promised(env, actor, e, times, j) ::
      Gap(times[i], times[j], Length(e))
  }

  /** What is predicted among other bookings is predicted all the more without them. */
  lemma PredictedIsPromised(env: Env, s: State, actor: User, e: Series, at: int, idx: nat)
    requires env.HasSpace(e.space) && Prediction(env, s, actor, e, at, idx) == Done
    ensures Prediction(env, EMPTY, actor, e, at, idx) == Done
  {
    Integrity.FreeingNeverBlocks(
      env, EMPTY.bookings, s.bookings, env.spaces[e.space].location, actor, Occurrence(e, "", at), None, idx);
  }

  lemma DecidedIsPossible(env: Env, s: State, actor: User, e: Series, at: int)
    requires env.HasSpace(e.space) && Decision(env, s, actor, e, at) == Done
    ensures Possible(env, actor, e, at)
  {
    var location, d := env.spaces[e.space].location, Occurrence(e, e.subject, at);
    Integrity.FreeingNeverBlocks(env, EMPTY.bookings, s.bookings, location, actor, d, None, 0);
    AdmissionCarriesOver(env, EMPTY.bookings, EMPTY.bookings, location, actor, d, "", 0);
  }

  /** A possible occurrence before a promised one is promised itself: it counts fewer others. */
  lemma PossibleBeforePromised(env: Env, actor: User, e: Series, times: seq<int>, i: nat, k: nat)
    requires env.HasSpace(e.space) && i <= k < |times|
    requires Possible(env, actor, e, times[i]) && Promised(env, actor, e, times, k)
    ensures Promised(env, actor, e, times, i)
  {
    var location := env.spaces[e.space].location;
    var settings := env.SettingsOf(env.locations[location].org);
    var exempt := Exempt(settings, actor, env.locations[location].org);
    assert FewEnoughUpcoming(env, settings, exempt, EMPTY.bookings, actor, k) by {
      assert RequestVerdict(env, EMPTY.bookings, location, actor, Occurrence(e, "", times[k]), None, k) == Done;
    }
    assert RequestVerdict(env, EMPTY.bookings, location, actor, Occurrence(e, "", times[i]), None, 0) == Done;
    assert RequestVerdict(env, EMPTY.bookings, location, actor, Occurrence(e, "", times[i]), None, i) == Done;
  }

  // ----- what is stored on the way -------------------------------------------------------------------

  /** Row `b` is one of the first `k` occurrences, at one of the times in `possible`. */
  predicate EarlierOccurrence(
      actor: User, e: Series, possible: iset<int>, times: seq<int>, k: nat, b: Booking)
    requires k <= |times|
  {
    && b.user == actor.id
    && b.space == e.space
    && b.leave == b.enter + Length(e)
    && b.enter in times[..k]
    && b.enter in possible
  }

  predicate Extends(base: Table, rows: Table) {
    base.Keys <= rows.Keys && forall id | id in base :: rows[id] == base[id]
  }

  /**
    `rows` has grown from `base` by some of the first `k` occurrences, and so have the bookings of
    the user that are not over.
   */
  predicate Grown(
      env: Env, base: Table, rows: Table, actor: User, e: Series, possible: iset<int>, times: seq<int>, k: nat)
    requires k <= |times|
  {
    && Extends(base, rows)
    && (forall id | id in rows && id !in base :: EarlierOccurrence(actor, e, possible, times, k, rows[id]))
    && |GetUpcoming(env, rows, actor.id)| <= |GetUpcoming(env, base, actor.id)| + k
  }

  predicate OutOfTheWay(enter: int, leave: int, b: Booking) {
    !Clashes(enter, leave, b) && !InTimeRange(enter, leave, b)
  }

  /** `rows` extends `base` by rows that are out of the way of `enter`..`leave`. */
  predicate ClearOf(base: Table, rows: Table, enter: int, leave: int) {
    Extends(base, rows) && forall id | id in rows && id !in base :: OutOfTheWay(enter, leave, rows[id])
  }

  /** The possible ones among the occurrences before the `k`-th leave a gap to that one. */
  predicate GapsBefore(e: Series, possible: iset<int>, times: seq<int>, k: nat)
    requires k < |times|
  {
    forall i | 0 <= i < k && times[i] in possible :: times[i] != times[k] && Gap(times[i], times[k], Length(e))
  }

  lemma PromisedGapsBefore(env: Env, actor: User, e: Series, times: seq<int>, k: nat)
    requires env.HasSpace(e.space) && k < |times| && Weekdays.Distinct(times)
    requires PromisedApart(env, actor, e, times) && Promised(env, actor, e, times, k)
    ensures GapsBefore(e, PossibleTimes(env, actor, e), times, k)
  {
    forall i | 0 <= i < k && times[i] in PossibleTimes(env, actor, e)
      ensures times[i] != times[k] && Gap(times[i], times[k], Length(e))
    {
      PossibleBeforePromised(env, actor, e, times, i, k);
    }
  }

  /** An earlier occurrence is out of the way of a later one. */
  lemma EarlierIsOutOfTheWay(
      actor: User, e: Series, possible: iset<int>, times: seq<int>, k: nat, b: Booking)
    requires k < |times| && GapsBefore(e, possible, times, k)
    requires EarlierOccurrence(actor, e, possible, times, k, b)
    ensures OutOfTheWay(times[k], times[k] + Length(e), b)
  {
    var i :| 0 <= i < k && times[..k][i] == b.enter;
    assert times[i] != times[k] && Gap(times[i], times[k], Length(e));
  }

  lemma {:induction false} PeakSameRows(base: Table, rows: Table, ids: set<BookingId>, t: int, leave: int)
    requires ids <= base.Keys && Extends(base, rows)
    ensures Peak(rows, ids, t, leave) == Peak(base, ids, t, leave)
    decreases leave - t
  {
    if t <= leave {
      assert Active(rows, ids, t) == Active(base, ids, t);
      PeakSameRows(base, rows, ids, t + SAMPLE, leave);
    }
  }

  lemma SameConflicts(base: Table, rows: Table, space: SpaceId, enter: int, leave: int)
    requires ClearOf(base, rows, enter, leave)
    ensures GetConflicts(rows, space, enter, leave, None) == GetConflicts(base, space, enter, leave, None)
  {
  }

  lemma SameTimeRange(base: Table, rows: Table, user: UserId, enter: int, leave: int)
    requires ClearOf(base, rows, enter, leave)
    ensures GetTimeRangeByUser(rows, user, enter, leave, None) == GetTimeRangeByUser(base, user, enter, leave, None)
  {
  }

  lemma SameConcurrent(base: Table, rows: Table, spaces: set<SpaceId>, enter: int, leave: int)
    requires ClearOf(base, rows, enter, leave)
    ensures GetConcurrent(rows, spaces, enter, leave, None) == GetConcurrent(base, spaces, enter, leave, None)
  {
    var near := GetNear(base, spaces, enter, leave, None);
    assert GetNear(rows, spaces, enter, leave, None) == near;
    PeakSameRows(base, rows, near, enter, leave);
  }

  /** Rows out of the way leave an admission standing if the markup makes up for their number. */
  lemma AdmissionCarriesOver(
      env: Env, base: Table, rows: Table, location: LocationId, actor: User, d: Draft, subject: string, markup: nat)
    requires location in env.locations && ValidSubject(subject)
    requires ClearOf(base, rows, d.enter, d.leave)
    requires |GetUpcoming(env, rows, actor.id)| <= |GetUpcoming(env, base, actor.id)| + markup
    requires Admission(env, base, location, actor, d, None, markup) == Done
    ensures Admission(env, rows, location, actor, d.(subject := subject), None, 0) == Done
  {
    SameConflicts(base, rows, d.space, d.enter, d.leave);
    SameTimeRange(base, rows, actor.id, d.enter, d.leave);
    SameConcurrent(base, rows, env.SpacesOf(location), d.enter, d.leave);
    RulesCarryOver(env, base, rows, location, actor, d, subject, markup);
  }

  lemma RulesCarryOver(
      env: Env, base: Table, rows: Table, location: LocationId, actor: User, d: Draft, subject: string, markup: nat)
    requires location in env.locations && ValidSubject(subject)
    requires GetTimeRangeByUser(rows, actor.id, d.enter, d.leave, None)
          == GetTimeRangeByUser(base, actor.id, d.enter, d.leave, None)
    requires GetConcurrent(rows, env.SpacesOf(location), d.enter, d.leave, None)
          == GetConcurrent(base, env.SpacesOf(location), d.enter, d.leave, None)
    requires |GetUpcoming(env, rows, actor.id)| <= |GetUpcoming(env, base, actor.id)| + markup
    requires Check(env, base, location, actor, d, None, markup) == Done
    ensures Check(env, rows, location, actor, d.(subject := subject), None, 0) == Done
  {
    var d' := d.(subject := subject);
    var loc := env.locations[location];
    var settings := env.SettingsOf(loc.org);
    var exempt := Exempt(settings, actor, loc.org);
    assert ValidDuration(settings, exempt, d') == ValidDuration(settings, exempt, d);
    assert AdvanceVerdict(settings, exempt, env.now, loc.utcOffset, d') ==
           AdvanceVerdict(settings, exempt, env.now, loc.utcOffset, d);
    assert RequestVerdict(env, base, location, actor, d, None, markup) == Done;
    assert RequestVerdict(env, rows, location, actor, d', None, 0) == Done;
  }

  lemma GrownIsClear(
      env: Env, base: Table, rows: Table, actor: User, e: Series, possible: iset<int>, times: seq<int>, k: nat)
    requires k < |times| && GapsBefore(e, possible, times, k)
    requires Grown(env, base, rows, actor, e, possible, times, k)
    ensures ClearOf(base, rows, times[k], times[k] + Length(e))
  {
    forall id | id in rows && id !in base
      ensures OutOfTheWay(times[k], times[k] + Length(e), rows[id])
    {
      EarlierIsOutOfTheWay(actor, e, possible, times, k, rows[id]);
    }
  }

  lemma PredictionCarriesOver(env: Env, s0: State, s: State, actor: User, e: Series, at: int, k: nat)
    requires env.HasSpace(e.space) && ValidSubject(e.subject)
    requires ClearOf(s0.bookings, s.bookings, at, at + Length(e))
    requires |GetUpcoming(env, s.bookings, actor.id)| <= |GetUpcoming(env, s0.bookings, actor.id)| + k
    requires Prediction(env, s0, actor, e, at, k) == Done
    ensures Decision(env, s, actor, e, at) == Done
  {
    AdmissionCarriesOver(
      env, s0.bookings, s.bookings, env.spaces[e.space].location, actor, Occurrence(e, "", at), e.subject, k);
  }

  lemma EarlierOccurrenceStays(
      actor: User, e: Series, possible: iset<int>, times: seq<int>, k: nat, b: Booking)
    requires k < |times| && EarlierOccurrence(actor, e, possible, times, k, b)
    ensures EarlierOccurrence(actor, e, possible, times, k + 1, b)
  {
    assert times[..k + 1] == times[..k] + [times[k]];
  }

  lemma GrownLater(
      env: Env, base: Table, rows: Table, actor: User, e: Series, possible: iset<int>, times: seq<int>, k: nat)
    requires k < |times| && Grown(env, base, rows, actor, e, possible, times, k)
    ensures Grown(env, base, rows, actor, e, possible, times, k + 1)
  {
    forall o | o in rows && o !in base
      ensures EarlierOccurrence(actor, e, possible, times, k + 1, rows[o])
    {
      EarlierOccurrenceStays(actor, e, possible, times, k, rows[o]);
    }
  }

  lemma GrowsByOne(
      env: Env, base: Table, rows: Table, actor: User, e: Series, possible: iset<int>, times: seq<int>, k: nat,
      id: BookingId, b: Booking)
    requires k < |times| && Grown(env, base, rows, actor, e, possible, times, k)
    requires id !in rows && EarlierOccurrence(actor, e, possible, times, k + 1, b)
    ensures Grown(env, base, rows[id := b], actor, e, possible, times, k + 1)
  {
    var rows' := rows[id := b];
    GrownLater(env, base, rows, actor, e, possible, times, k);
    SubsetSize(GetUpcoming(env, rows', actor.id), GetUpcoming(env, rows, actor.id) + {id});
  }

  /** The state after the `k`-th occurrence has been judged. */
  function AfterOccurrence(env: Env, s: State, actor: User, e: Series, id: SeriesId, at: int): State
    requires env.HasSpace(e.space)
  {
    if Decision(env, s, actor, e, at) == Done then InsertBooking(s, OccurrenceRow(env, actor, e, id, at)) else s
  }

  lemma OccurrenceGrows(
      env: Env, base: Table, s: State, actor: User, e: Series, id: SeriesId, possible: iset<int>, times: seq<int>,
      k: nat)
    requires env.HasSpace(e.space) && WellNumbered(s) && k < |times|
    requires possible == PossibleTimes(env, actor, e)
    requires Grown(env, base, s.bookings, actor, e, possible, times, k)
    ensures
      var s' := AfterOccurrence(env, s, actor, e, id, times[k]);
      WellNumbered(s') && Grown(env, base, s'.bookings, actor, e, possible, times, k + 1)
  {
    if Decision(env, s, actor, e, times[k]) == Done {
      var b := OccurrenceRow(env, actor, e, id, times[k]);
      DecidedIsPossible(env, s, actor, e, times[k]);
      assert EarlierOccurrence(actor, e, possible, times, k + 1, b) by {
        assert times[..k + 1][k] == b.enter;
      }
      GrowsByOne(env, base, s.bookings, actor, e, possible, times, k, s.nextBooking, b);
    } else {
      GrownLater(env, base, s.bookings, actor, e, possible, times, k);
    }
  }

  lemma InsertOccurrencesStep(env: Env, s: State, actor: User, e: Series, id: SeriesId, times: seq<int>, k: nat)
    requires env.HasSpace(e.space) && k < |times|
    ensures
      InsertOccurrences(env, s, actor, e, id, times[k..]).1 ==
      [Decision(env, s, actor, e, times[k])] +
      InsertOccurrences(env, AfterOccurrence(env, s, actor, e, id, times[k]), actor, e, id, times[k + 1..]).1
  {
    assert times[k..][0] == times[k] && times[k..][1..] == times[k + 1..];
  }

  /** However the table has grown by earlier occurrences, the `i`-th one is stored. */
  ghost predicate DoneWhenGrown(
      env: Env, s0: State, actor: User, e: Series, possible: iset<int>, times: seq<int>, i: nat)
    requires env.HasSpace(e.space) && i < |times|
  {
    forall s: State | Grown(env, s0.bookings, s.bookings, actor, e, possible, times, i) ::
      Decision(env, s, actor, e, times[i]) == Done
  }

  lemma PredictedWhenGrown(
      env: Env, s0: State, actor: User, e: Series, possible: iset<int>, times: seq<int>, i: nat)
    requires env.HasSpace(e.space) && ValidSubject(e.subject) && i < |times| && GapsBefore(e, possible, times, i)
    requires Prediction(env, s0, actor, e, times[i], i) == Done
    ensures DoneWhenGrown(env, s0, actor, e, possible, times, i)
  {
    forall s: State | Grown(env, s0.bookings, s.bookings, actor, e, possible, times, i)
      ensures Decision(env, s, actor, e, times[i]) == Done
    {
      GrownIsClear(env, s0.bookings, s.bookings, actor, e, possible, times, i);
      PredictionCarriesOver(env, s0, s, actor, e, times[i], i);
    }
  }

  lemma {:induction false} DecisionFollowsPrediction(
      env: Env, s0: State, s: State, actor: User, e: Series, id: SeriesId, possible: iset<int>, times: seq<int>,
      k: nat, i: nat)
    requires env.HasSpace(e.space) && WellNumbered(s) && k <= i < |times|
    requires possible == PossibleTimes(env, actor, e)
    requires Grown(env, s0.bookings, s.bookings, actor, e, possible, times, k)
    requires DoneWhenGrown(env, s0, actor, e, possible, times, i)
    ensures
      var verdicts := InsertOccurrences(env, s, actor, e, id, times[k..]).1;
      i - k < |verdicts| && verdicts[i - k] == Done
    decreases |times| - k
  {
    InsertOccurrencesStep(env, s, actor, e, id, times, k);
    if k == i {
      assert Decision(env, s, actor, e, times[k]) == Done;
    } else {
      OccurrenceGrows(env, s0.bookings, s, actor, e, id, possible, times, k);
      DecisionFollowsPrediction(
        env, s0, AfterOccurrence(env, s, actor, e, id, times[k]), actor, e, id, possible, times, k + 1, i);
    }
  }

  lemma {:induction false} OneVerdictEach(env: Env, s: State, actor: User, e: Series, id: SeriesId, times: seq<int>)
    requires env.HasSpace(e.space)
    ensures |InsertOccurrences(env, s, actor, e, id, times).1| == |times|
    decreases |times|
  {
    if times != [] {
      OneVerdictEach(env, AfterOccurrence(env, s, actor, e, id, times[0]), actor, e, id, times[1..]);
    }
  }

  lemma {:induction false} AllDoneAllStored(
      env: Env, s: State, actor: User, e: Series, id: SeriesId, times: seq<int>, i: nat) returns (row: BookingId)
    requires env.HasSpace(e.space) && WellNumbered(s) && i < |times|
    requires
      var verdicts := InsertOccurrences(env, s, actor, e, id, times).1;
      |verdicts| == |times| && verdicts[i] == Done
    ensures
      var s' := InsertOccurrences(env, s, actor, e, id, times).0;
      row in s'.bookings && s'.bookings[row] == OccurrenceRow(env, actor, e, id, times[i]) && row >= s.nextBooking
    decreases |times|
  {
    var done := Decision(env, s, actor, e, times[0]) == Done;
    var s' := if done then InsertBooking(s, OccurrenceRow(env, actor, e, id, times[0])) else s;
    if i == 0 {
      row := s.nextBooking;
      StoredStays(env, s', actor, e, id, times[1..], row);
    } else {
      row := AllDoneAllStored(env, s', actor, e, id, times[1..], i - 1);
    }
  }

  lemma {:induction false} StoredStays(
      env: Env, s: State, actor: User, e: Series, id: SeriesId, times: seq<int>, row: BookingId)
    requires env.HasSpace(e.space) && WellNumbered(s) && row in s.bookings
    ensures
      var s' := InsertOccurrences(env, s, actor, e, id, times).0;
      row in s'.bookings && s'.bookings[row] == s.bookings[row]
    decreases |times|
  {
    if times != [] {
      var s' := if Decision(env, s, actor, e, times[0]) == Done
                then InsertBooking(s, OccurrenceRow(env, actor, e, id, times[0])) else s;
      StoredStays(env, s', actor, e, id, times[1..], row);
    }
  }

  // ----- the handlers ------------------------------------------------------------------------------------

  /** The precheck in this state marks the `i`-th occurrence as possible. */
  predicate Predicted(env: Env, s: State, actor: User, e: Series, i: nat) {
    var res := Precheck(env, s, actor, e).1;
    i < |res| && res[i] == Done
  }

  /** The creation of the series in this state reports the `i`-th occurrence as done, and stores it. */
  predicate Kept(env: Env, s: State, actor: User, e: Series, i: nat) {
    var (s', _, verdicts) := CreateSeries(env, s, actor, e);
    && env.HasSpace(e.space)
    && Occurrences(e).Some? && i < |Occurrences(e).value|
    && i < |verdicts| && verdicts[i] == Done
    && exists id :: id in s'.bookings && id !in s.bookings
                    && s'.bookings[id] == OccurrenceRow(env, actor, e, s.nextSeries, Occurrences(e).value[i])
  }

  lemma PredictedMeaning(env: Env, s: State, actor: User, e: Series, i: nat)
    ensures Predicted(env, s, actor, e, i) <==>
      && PrecheckGate(env, actor, e) == Done
      && Occurrences(e).Some? && i < |Occurrences(e).value|
      && Prediction(env, s, actor, e, Occurrences(e).value[i], i) == Done
  {
  }

  /** Promised occurrences, with the empty table as the state, leave gaps. */
  predicate PromisesApart(env: Env, actor: User, e: Series) {
    Occurrences(e).Some? ==>
      forall i, j | 0 <= i < j < |Occurrences(e).value|
                    && Predicted(env, EMPTY, actor, e, i) && Predicted(env, EMPTY, actor, e, j) ::
        Gap(Occurrences(e).value[i], Occurrences(e).value[j], Length(e))
  }

  lemma PredictedIsKept(env: Env, s: State, actor: User, e: Series, i: nat)
    requires WellNumbered(s) && SeriesGate(env, actor, e) == Done && ValidSubject(e.subject)
    requires PromisesApart(env, actor, e) && Predicted(env, s, actor, e, i)
    ensures Kept(env, s, actor, e, i)
  {
    PredictedMeaning(env, s, actor, e, i);
    var times, s' := Occurrences(e).value, InsertSeries(s, e.(user := actor.id));
    OccurrencesDistinct(e);
    forall j | 0 <= j < |times|
      ensures Predicted(env, EMPTY, actor, e, j) <==> Promised(env, actor, e, times, j)
    {
      PredictedMeaning(env, EMPTY, actor, e, j);
    }
    PredictedIsPromised(env, s, actor, e, times[i], i);
    PromisedGapsBefore(env, actor, e, times, i);
    PredictedWhenGrown(env, s, actor, e, PossibleTimes(env, actor, e), times, i);
    DecisionFollowsPrediction(env, s, s', actor, e, s.nextSeries, PossibleTimes(env, actor, e), times, 0, i);
    assert times[0..] == times;
    OneVerdictEach(env, s', actor, e, s.nextSeries, times);
    var row := AllDoneAllStored(env, s', actor, e, s.nextSeries, times, i);
  }

  /** A series with an invalid subject has no occurrence stored. */
  lemma {:induction false} InvalidSubjectStoresNothing(
      env: Env, s: State, actor: User, e: Series, id: SeriesId, times: seq<int>, i: nat)
    requires env.HasSpace(e.space) && !ValidSubject(e.subject)
    requires i < |InsertOccurrences(env, s, actor, e, id, times).1|
    ensures InsertOccurrences(env, s, actor, e, id, times).1[i] != Done
    decreases |times|
  {
    if i > 0 {
      InvalidSubjectStoresNothing(
        env, AfterOccurrence(env, s, actor, e, id, times[0]), actor, e, id, times[1..], i - 1);
    }
  }

  /** Two occurrences that are both stored, starting from nothing, leave a gap. */
  lemma KeptLeavesGap(env: Env, actor: User, e: Series, i: nat, j: nat)
    requires i < j && Kept(env, EMPTY, actor, e, i) && Kept(env, EMPTY, actor, e, j)
    ensures Gap(Occurrences(e).value[i], Occurrences(e).value[j], Length(e))
  {
    var times, s' := Occurrences(e).value, InsertSeries(EMPTY, e.(user := actor.id));
    OneVerdictEach(env, s', actor, e, 0, times);
    var a := AllDoneAllStored(env, s', actor, e, 0, times, i);
    var b := AllDoneAllStored(env, s', actor, e, 0, times, j);
    OccurrencesDistinct(e);
    Runs.EmptyHolds(Runs.NoDoubleBooking);
    Runs.OccurrencesKeep(Runs.NoDoubleBooking, env, s', actor, e, 0, times);
    var rows := InsertOccurrences(env, s', actor, e, 0, times).0.bookings;
    assert rows[a].enter != rows[b].enter;
    assert !Clashes(rows[a].enter, rows[a].leave, rows[b]);
  }

  /** In every state, what the precheck marks as possible is then stored. */
  ghost predicate AlwaysKept(env: Env, actor: User, e: Series) {
    forall s, i: nat | WellNumbered(s) && Predicted(env, s, actor, e, i) :: Kept(env, s, actor, e, i)
  }

  lemma KeptNeedsGate(env: Env, s: State, actor: User, e: Series, i: nat)
    requires Kept(env, s, actor, e, i)
    ensures SeriesGate(env, actor, e) == Done && ValidSubject(e.subject)
  {
    if !ValidSubject(e.subject) {
      InvalidSubjectStoresNothing(
        env, InsertSeries(s, e.(user := actor.id)), actor, e, s.nextSeries, Occurrences(e).value, i);
    }
  }

  /**
    The precheck of a series can be relied upon in all states exactly if it marks nothing as possible
    even without any bookings, or the creation passes its own checks, which the precheck does not
    make, and the occurrences marked as possible without any bookings leave gaps.
   */
  lemma PrecheckSoundIff(env: Env, actor: User, e: Series)
    ensures AlwaysKept(env, actor, e) <==>
      || (forall i: nat :: !Predicted(env, EMPTY, actor, e, i))
      || (SeriesGate(env, actor, e) == Done && ValidSubject(e.subject) && PromisesApart(env, actor, e))
  {
    if AlwaysKept(env, actor, e) {
      assert WellNumbered(EMPTY);
      forall i: nat | Predicted(env, EMPTY, actor, e, i)
        ensures SeriesGate(env, actor, e) == Done && ValidSubject(e.subject)
      {
        KeptNeedsGate(env, EMPTY, actor, e, i);
      }
      forall i: nat, j: nat | i < j && Predicted(env, EMPTY, actor, e, i) && Predicted(env, EMPTY, actor, e, j)
        ensures Occurrences(e).Some? && j < |Occurrences(e).value|
        ensures Gap(Occurrences(e).value[i], Occurrences(e).value[j], Length(e))
      {
        KeptLeavesGap(env, actor, e, i, j);
      }
    }
    forall s, i: nat | WellNumbered(s) && Predicted(env, s, actor, e, i)
      ensures Predicted(env, EMPTY, actor, e, i)
      ensures SeriesGate(env, actor, e) == Done && ValidSubject(e.subject) && PromisesApart(env, actor, e) ==>
                Kept(env, s, actor, e, i)
    {
      PredictedMeaning(env, s, actor, e, i);
      PredictedMeaning(env, EMPTY, actor, e, i);
      PredictedIsPromised(env, s, actor, e, Occurrences(e).value[i], i);
      if SeriesGate(env, actor, e) == Done && ValidSubject(e.subject) && PromisesApart(env, actor, e) {
        PredictedIsKept(env, s, actor, e, i);
      }
    }
  }

  /** In particular if all occurrences leave gaps. */
  lemma PrecheckIsSound(env: Env, s: State, actor: User, e: Series, i: nat)
    requires WellNumbered(s) && ValidSubject(e.subject) && SeriesGate(env, actor, e) == Done
    requires Occurrences(e).Some? && Apart(Occurrences(e).value, Length(e))
    ensures Precheck(env, s, actor, e).0 == Done && |Precheck(env, s, actor, e).1| == |Occurrences(e).value|
    ensures Predicted(env, s, actor, e, i) ==> Kept(env, s, actor, e, i)
  {
    if Predicted(env, s, actor, e, i) {
      PredictedIsKept(env, s, actor, e, i);
    }
  }

  // ----- which series leave gaps ---------------------------------------------------------------------

  lemma OccurrencesAreDue(e: Series, i: nat, j: nat)
    requires InOrder(e.cadence) && Occurrences(e).Some? && i < j < |Occurrences(e).value|
    ensures
      var times := Occurrences(e).value;
      times[i] < times[j] && Due(e.cadence, First(e), times[i]) && Due(e.cadence, First(e), times[j])
  {
    ExpansionIsExact(e);
    var times := Occurrences(e).value;
    var due := DueTimes(e.cadence, First(e), First(e), e.end);
    assert times[i] in (set t | t in times) && times[j] in (set t | t in times);
    assert times[i] in due && times[j] in due;
  }

  /** Each occurrence is followed by the one that is a stride away. */
  lemma NextIsAStrideAway(e: Series, k: nat)
    requires Occurrences(e).Some? && k + 1 < |Occurrences(e).value|
    ensures
      var times := Occurrences(e).value;
      && OnSchedule(e.cadence, times[k])
      && times[k + 1] == NextTime(e.cadence, times[k])
  {
    var times := Occurrences(e).value;
    FirstIsListed(e);
    WalkFrom(e.cadence, e.end, First(e), MAX_RECURRING_BOOKINGS, k);
    WalkStartsWithNext(e.cadence, e.end, times[k], MAX_RECURRING_BOOKINGS - k);
    assert times[k..][1] == times[k + 1];
  }

  lemma WalkStartsWithNext(c: Cadence, end: int, t: int, room: nat)
    requires OnSchedule(c, t) && Walk(c, end, t, room).Some? && |Walk(c, end, t, room).value| > 1
    ensures Walk(c, end, t, room).value[1] == NextTime(c, t)
  {
    assert Walk(c, end, NextTime(c, t), room - 1).value[0] == NextTime(c, t);
  }

  function StrideAt(c: Cadence, t: int): int
    requires OnSchedule(c, t)
  {
    DAY * Stride(c, Weekday(DayOf(t)))
  }

  lemma OccursOnSchedule(e: Series, k: nat)
    requires Occurrences(e).Some? && k < |Occurrences(e).value|
    ensures OnSchedule(e.cadence, Occurrences(e).value[k])
  {
    FirstIsListed(e);
    WalkFrom(e.cadence, e.end, First(e), MAX_RECURRING_BOOKINGS, k);
  }

  /** Occurrences leave gaps exactly if each is over before the next one starts. */
  lemma ApartByStrides(e: Series)
    requires InOrder(e.cadence) && Occurrences(e).Some?
    ensures forall k | 0 <= k < |Occurrences(e).value| :: OnSchedule(e.cadence, Occurrences(e).value[k])
    ensures Apart(Occurrences(e).value, Length(e)) <==>
            forall k | 0 <= k < |Occurrences(e).value| - 1 :: Length(e) < StrideAt(e.cadence, Occurrences(e).value[k])
  {
    var times := Occurrences(e).value;
    forall k | 0 <= k < |times|
      ensures OnSchedule(e.cadence, times[k])
    {
      OccursOnSchedule(e, k);
    }
    forall k | 0 <= k < |times| - 1
      ensures times[k] < times[k + 1] == times[k] + StrideAt(e.cadence, times[k])
      ensures Gap(times[k], times[k + 1], Length(e)) <==> Length(e) < StrideAt(e.cadence, times[k])
    {
      NextIsAStrideAway(e, k);
      OccurrencesAreDue(e, k, k + 1);
    }
    if forall k | 0 <= k < |times| - 1 :: Length(e) < StrideAt(e.cadence, times[k]) {
      forall i, j | 0 <= i < j < |times|
        ensures Gap(times[i], times[j], Length(e))
      {
        assert Gap(times[i], times[i + 1], Length(e));
        if i + 1 < j {
          OccurrencesAreDue(e, i + 1, j);
        }
      }
    }
    if Apart(times, Length(e)) {
      forall k | 0 <= k < |times| - 1
        ensures Length(e) < StrideAt(e.cadence, times[k])
      {
        assert Gap(times[k], times[k + 1], Length(e));
      }
    }
  }

  /** A daily series of two or more leaves gaps exactly if its length is less than its cycle. */
  lemma DailyApartIff(e: Series)
    requires e.cadence.Daily? && Occurrences(e).Some? && |Occurrences(e).value| >= 2
    ensures Apart(Occurrences(e).value, Length(e)) <==> Length(e) < DAY * e.cadence.cycle
  {
    ApartByStrides(e);
    assert StrideAt(e.cadence, Occurrences(e).value[0]) == DAY * e.cadence.cycle;
  }

  lemma IndexInOrder(s: seq<int>, i: nat)
    requires Weekdays.Ascending(s) && i < |s|
    ensures Index(s, s[i]) == i
  {
  }

  /** From a listed weekday the next occurrence falls on the next one of the list, or again on the first. */
  lemma NextWeekday(c: Cadence, t: int)
    requires c.Weekly? && InOrder(c) && OnSchedule(c, t)
    ensures
      var i := Index(c.weekdays, Weekday(DayOf(t)));
      Index(c.weekdays, Weekday(DayOf(NextTime(c, t)))) == if i + 1 == |c.weekdays| then 0 else i + 1
  {
    var d, i := DayOf(t), Index(c.weekdays, Weekday(DayOf(t)));
    var n, j := Stride(c, Weekday(DayOf(t))), if i + 1 == |c.weekdays| then 0 else i + 1;
    DayShift(t, n);
    assert (n - (c.weekdays[j] - Weekday(d))) % 7 == 0;
    assert Weekday(d + n) == c.weekdays[j];
    IndexInOrder(c.weekdays, j);
  }

  /** After less than one round through the list every listed weekday has come up. */
  lemma {:induction false} WeekdayComesUp(e: Series, k: nat, w: int) returns (m: nat)
    requires e.cadence.Weekly? && InOrder(e.cadence) && Occurrences(e).Some? && w in e.cadence.weekdays
    requires k < |Occurrences(e).value| && OnSchedule(e.cadence, Occurrences(e).value[k])
    requires
      var n, i := |e.cadence.weekdays|, Index(e.cadence.weekdays, Weekday(DayOf(Occurrences(e).value[k])));
      var q := Index(e.cadence.weekdays, w);
      k + (if i <= q then q - i else n + q - i) < |Occurrences(e).value| - 1
    ensures k <= m < |Occurrences(e).value| - 1 && Weekday(DayOf(Occurrences(e).value[m])) == w
    decreases |Occurrences(e).value| - k
  {
    var times := Occurrences(e).value;
    if Weekday(DayOf(times[k])) == w {
      m := k;
    } else {
      NextIsAStrideAway(e, k);
      NextWeekday(e.cadence, times[k]);
      m := WeekdayComesUp(e, k + 1, w);
    }
  }

  /**
    A weekly series that comes to each of its weekdays more than once round leaves gaps exactly if its
    length is less than every distance from one listed weekday to the next.
   */
  lemma WeeklyApartIff(e: Series)
    requires e.cadence.Weekly? && InOrder(e.cadence)
    requires Occurrences(e).Some? && |Occurrences(e).value| > |e.cadence.weekdays|
    ensures Apart(Occurrences(e).value, Length(e)) <==>
            forall w | w in e.cadence.weekdays :: Length(e) < DAY * Stride(e.cadence, w)
  {
    var times := Occurrences(e).value;
    ApartByStrides(e);
    if forall k | 0 <= k < |times| - 1 :: Length(e) < StrideAt(e.cadence, times[k]) {
      forall w | w in e.cadence.weekdays
        ensures Length(e) < DAY * Stride(e.cadence, w)
      {
        var m := WeekdayComesUp(e, 0, w);
        assert Length(e) < StrideAt(e.cadence, times[m]);
      }
    }
  }

  lemma ADayApart(c: Cadence, t: int)
    requires InOrder(c) && OnSchedule(c, t)
    ensures StrideAt(c, t) >= DAY
  {
    StrideForward(c, DayOf(t));
  }

  /** Occurrences shorter than a day never meet. */
  lemma ShorterThanADay(e: Series)
    requires InOrder(e.cadence) && Length(e) < DAY && Occurrences(e).Some?
    ensures Apart(Occurrences(e).value, Length(e))
  {
    ApartByStrides(e);
    forall k | 0 <= k < |Occurrences(e).value| - 1
      ensures Length(e) < StrideAt(e.cadence, Occurrences(e).value[k])
    {
      ADayApart(e.cadence, Occurrences(e).value[k]);
    }
  }
}
