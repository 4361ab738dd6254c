/** When an occurrence that the precheck of a series marks as impossible is indeed not stored. */
module Refusals {
  import opened Wrappers
  import opened Calendar
  import opened Domain
  import opened Queries
  import opened Rules
  import opened Recurrence
  import opened Requests
  import opened Forecast
  import Integrity
  import Weekdays

  /** The precheck in this state marks the `i`-th occurrence as impossible. */
  predicate Marked(env: Env, s: State, actor: User, e: Series, i: nat) {
    var res := Precheck(env, s, actor, e).1;
    i < |res| && res[i] != Done
  }

  /** The creation of the series in this state reports the `i`-th occurrence as done. */
  predicate Accepted(env: Env, s: State, actor: User, e: Series, i: nat) {
    var verdicts := CreateSeries(env, s, actor, e).2;
    i < |verdicts| && verdicts[i] == Done
  }

  /** In every state, what the precheck marks as impossible is then not stored. */
  ghost predicate RefusalsStand(env: Env, actor: User, e: Series) {
    forall s, i: nat | WellNumbered(s) && Marked(env, s, actor, e, i) :: !Accepted(env, s, actor, e, i)
  }

  predicate ExemptFor(env: Env, actor: User, e: Series)
    requires env.HasSpace(e.space)
  {
    var org := env.locations[env.spaces[e.space].location].org;
    Exempt(env.SettingsOf(org), actor, org)
  }

  /** Nothing but the first occurrence could be stored, even without any bookings. */
  predicate OnlyFirstPossible(env: Env, actor: User, e: Series)
    requires env.HasSpace(e.space) && Occurrences(e).Some?
  {
    forall j | 0 < j < |Occurrences(e).value| :: !Possible(env, actor, e, Occurrences(e).value[j])
  }

  // ----- refusals that stand --------------------------------------------------------------------------

  /** Each occurrence is decided in a state that has grown from the first one. */
  lemma {:induction false} DecidedInGrownState(
      env: Env, s: State, actor: User, e: Series, id: SeriesId, times: seq<int>, i: nat) returns (s': State)
    requires env.HasSpace(e.space) && WellNumbered(s) && i < |times|
    requires i < |InsertOccurrences(env, s, actor, e, id, times).1|
    ensures WellNumbered(s') && Extends(s.bookings, s'.bookings)
    ensures InsertOccurrences(env, s, actor, e, id, times).1[i] == Decision(env, s', actor, e, times[i])
    decreases |times|
  {
    if i == 0 {
      s' := s;
    } else {
      s' := DecidedInGrownState(
        env, AfterOccurrence(env, s, actor, e, id, times[0]), actor, e, id, times[1..], i - 1);
    }
  }

  /** What is decided among more bookings is predicted among fewer ones, but for the markup. */
  lemma DecidedIsPredicted(env: Env, base: State, s: State, actor: User, e: Series, at: int)
    requires env.HasSpace(e.space) && Extends(base.bookings, s.bookings)
    requires Decision(env, s, actor, e, at) == Done
    ensures Prediction(env, base, actor, e, at, 0) == Done
  {
    var location, d := env.spaces[e.space].location, Occurrence(e, e.subject, at);
    Integrity.FreeingNeverBlocks(env, base.bookings, s.bookings, location, actor, d, None, 0);
    AdmissionCarriesOver(env, base.bookings, base.bookings, location, actor, d, "", 0);
  }

  /** The markup matters only for the number of upcoming bookings. */
  lemma OtherMarkup(env: Env, s: State, actor: User, e: Series, at: int, idx: nat, other: nat)
    requires env.HasSpace(e.space) && Prediction(env, s, actor, e, at, idx) == Done
    requires
      var settings := env.SettingsOf(env.locations[env.spaces[e.space].location].org);
      ExemptFor(env, actor, e) || |GetUpcoming(env, s.bookings, actor.id)| + other < settings.maxBookingsPerUser
    ensures Prediction(env, s, actor, e, at, other) == Done
  {
    var location, d := env.spaces[e.space].location, Occurrence(e, "", at);
    assert RequestVerdict(env, s.bookings, location, actor, d, None, idx) == Done;
    assert RequestVerdict(env, s.bookings, location, actor, d, None, other) == Done;
  }

  lemma RefusalStands(env: Env, s: State, actor: User, e: Series, i: nat)
    requires WellNumbered(s) && Marked(env, s, actor, e, i)
    requires env.HasSpace(e.space) && Occurrences(e).Some?
    requires ExemptFor(env, actor, e) || OnlyFirstPossible(env, actor, e)
    ensures !Accepted(env, s, actor, e, i)
  {
    if Accepted(env, s, actor, e, i) {
      var times, start := Occurrences(e).value, InsertSeries(s, e.(user := actor.id));
      OneVerdictEach(env, start, actor, e, s.nextSeries, times);
      var s' := DecidedInGrownState(env, start, actor, e, s.nextSeries, times, i);
      DecidedIsPossible(env, s', actor, e, times[i]);
      DecidedIsPredicted(env, s, s', actor, e, times[i]);
      if i > 0 {
        OtherMarkup(env, s, actor, e, times[i], 0, i);
      }
    }
  }

  // ----- refusals that do not ------------------------------------------------------------------------------

  /** An instant of the earlier occurrence at `t` that the one at `at` does not contain. */
  function Outside(t: int, at: int, length: nat): int {
    if t < at then t else t + length
  }

  /** Somebody else's bookings of a single moment, one inside each of the first `k` occurrences. */
  function Blockers(actor: User, e: Series, times: seq<int>, k: nat): Table
    requires k < |times| && 0 <= Length(e)
  {
    map i: nat | 0 <= i < k ::
      var t := Outside(times[i], times[k], Length(e));
      Booking("not" + actor.id, e.space, t, t, true, "", None)
  }

  function Moment(actor: User, e: Series, at: int, i: nat): Booking {
    Booking(actor.id, e.space, at + i, at + i, true, "", None)
  }

  /** `count` bookings of the actor, each of a single moment, long after everything else. */
  function Distant(actor: User, e: Series, from: nat, count: nat, at: int): Table {
    map i: nat | from <= i < from + count :: Moment(actor, e, at, i)
  }

  function Later(env: Env, e: Series, at: int): int
    requires 0 <= Length(e)
  {
    1 + (if env.now < at + Length(e) then at + Length(e) else env.now)
  }

  /** The first `k` occurrences are blocked, and `count` bookings of the actor are still to come. */
  function Trap(env: Env, actor: User, e: Series, times: seq<int>, k: nat, count: nat): State
    requires k < |times| && 0 <= Length(e)
  {
    State(Blockers(actor, e, times, k) + Distant(actor, e, k, count, Later(env, e, times[k])), map[], k + count, 0)
  }

  lemma OthersName(actor: User)
    ensures "not" + actor.id != actor.id
  {
    assert |"not" + actor.id| != |actor.id|;
  }

  lemma {:induction false} DistantCount(actor: User, e: Series, from: nat, count: nat, at: int)
    ensures |Distant(actor, e, from, count, at).Keys| == count
    decreases count
  {
    if count > 0 {
      DistantCount(actor, e, from, count - 1, at);
      assert Distant(actor, e, from, count, at).Keys ==
             Distant(actor, e, from, count - 1, at).Keys + {from + count - 1};
    } else {
      assert Distant(actor, e, from, count, at).Keys == {};
    }
  }

  lemma TrapCounts(env: Env, actor: User, e: Series, times: seq<int>, k: nat, count: nat)
    requires env.HasSpace(e.space) && k < |times| && 0 <= Length(e)
    ensures |GetUpcoming(env, Trap(env, actor, e, times, k, count).bookings, actor.id)| == count
  {
    OthersName(actor);
    var distant := Distant(actor, e, k, count, Later(env, e, times[k]));
    DistantCount(actor, e, k, count, Later(env, e, times[k]));
    assert GetUpcoming(env, Trap(env, actor, e, times, k, count).bookings, actor.id) == distant.Keys;
  }

  lemma TrapLeavesRoom(env: Env, actor: User, e: Series, times: seq<int>, k: nat, count: nat)
    requires k < |times| && 0 <= Length(e) && Weekdays.Distinct(times)
    ensures ClearOf(map[], Trap(env, actor, e, times, k, count).bookings, times[k], times[k] + Length(e))
  {
  }

  lemma TrapBlocks(env: Env, actor: User, e: Series, times: seq<int>, k: nat, count: nat, i: nat)
    requires env.HasSpace(e.space) && i < k < |times| && 0 <= Length(e)
    ensures Decision(env, Trap(env, actor, e, times, k, count), actor, e, times[i]) != Done
  {
    var rows := Trap(env, actor, e, times, k, count).bookings;
    assert i in GetConflicts(rows, e.space, times[i], times[i] + Length(e), None);
  }

  /** Refused occurrences leave no trace, so the one after them is judged in the state they met. */
  lemma {:induction false} AfterRefusals(
      env: Env, s: State, actor: User, e: Series, id: SeriesId, times: seq<int>, k: nat, j: nat)
    requires env.HasSpace(e.space) && j <= k < |times|
    requires forall i | j <= i < k :: Decision(env, s, actor, e, times[i]) != Done
    ensures
      var verdicts := InsertOccurrences(env, s, actor, e, id, times[j..]).1;
      k - j < |verdicts| && verdicts[k - j] == Decision(env, s, actor, e, times[k])
    decreases k - j
  {
    InsertOccurrencesStep(env, s, actor, e, id, times, j);
    if j < k {
      AfterRefusals(env, s, actor, e, id, times, k, j + 1);
    }
  }

  lemma DecisionInTrap(env: Env, actor: User, e: Series, times: seq<int>, k: nat, count: nat)
    requires env.HasSpace(e.space) && k < |times| && 0 <= Length(e) && Weekdays.Distinct(times)
    requires !ExemptFor(env, actor, e) && ValidSubject(e.subject) && Possible(env, actor, e, times[k])
    requires count + 1 == env.SettingsOf(env.locations[env.spaces[e.space].location].org).maxBookingsPerUser
    ensures Decision(env, Trap(env, actor, e, times, k, count), actor, e, times[k]) == Done
    ensures k > 0 ==> Prediction(env, Trap(env, actor, e, times, k, count), actor, e, times[k], k) != Done
  {
    var s := Trap(env, actor, e, times, k, count);
    TrapCounts(env, actor, e, times, k, count);
    TrapLeavesRoom(env, actor, e, times, k, count);
    assert GetUpcoming(env, EMPTY.bookings, actor.id) == {};
    OtherMarkup(env, EMPTY, actor, e, times[k], 0, count);
    PredictionCarriesOver(env, EMPTY, s, actor, e, times[k], count);
  }

  lemma PossibleNeedsRoom(env: Env, actor: User, e: Series, at: int)
    requires env.HasSpace(e.space) && Possible(env, actor, e, at) && !ExemptFor(env, actor, e)
    ensures env.SettingsOf(env.locations[env.spaces[e.space].location].org).maxBookingsPerUser > 0
  {
    var location := env.spaces[e.space].location;
    assert RequestVerdict(env, EMPTY.bookings, location, actor, Occurrence(e, "", at), None, 0) == Done;
  }

  /** If the earlier occurrences are refused and the `k`-th is not, the creation reports just that. */
  lemma AcceptedAfterRefusals(env: Env, s: State, actor: User, e: Series, k: nat)
    requires SeriesGate(env, actor, e) == Done && Occurrences(e).Some? && k < |Occurrences(e).value|
    requires
      var start, times := InsertSeries(s, e.(user := actor.id)), Occurrences(e).value;
      && (forall i | 0 <= i < k :: Decision(env, start, actor, e, times[i]) != Done)
      && Decision(env, start, actor, e, times[k]) == Done
    ensures Accepted(env, s, actor, e, k)
  {
    var start, times := InsertSeries(s, e.(user := actor.id)), Occurrences(e).value;
    AfterRefusals(env, start, actor, e, s.nextSeries, times, k, 0);
    assert times[0..] == times;
  }

  lemma RefusalDoesNotStand(env: Env, actor: User, e: Series, k: nat) returns (s: State)
    requires SeriesGate(env, actor, e) == Done && ValidSubject(e.subject) && 0 <= Length(e)
    requires Occurrences(e).Some? && 0 < k < |Occurrences(e).value|
    requires !ExemptFor(env, actor, e) && Possible(env, actor, e, Occurrences(e).value[k])
    ensures WellNumbered(s) && Marked(env, s, actor, e, k) && Accepted(env, s, actor, e, k)
  {
    var times := Occurrences(e).value;
    PossibleNeedsRoom(env, actor, e, times[k]);
    var settings := env.SettingsOf(env.locations[env.spaces[e.space].location].org);
    var count := settings.maxBookingsPerUser - 1;
    s := Trap(env, actor, e, times, k, count);
    OccurrencesDistinct(e);
    DecisionInTrap(env, actor, e, times, k, count);
    PredictedMeaning(env, s, actor, e, k);
    forall i | 0 <= i < k
      ensures Decision(env, s, actor, e, times[i]) != Done
    {
      TrapBlocks(env, actor, e, times, k, count, i);
    }
    AcceptedAfterRefusals(env, s, actor, e, k);
  }

  /**
    For a series whose bookings do not end before they start: what the precheck marks as impossible is
    never stored, in any state, exactly if the creation stores nothing at all, or the actor is exempt
    from the limit on upcoming bookings, or no occurrence but the first could be stored anyway. For the
    precheck counts every earlier occurrence as one more upcoming booking, even those that fail.
   */
  lemma RefusalsStandIff(env: Env, actor: User, e: Series)
    requires 0 <= Length(e)
    ensures RefusalsStand(env, actor, e) <==>
      || SeriesGate(env, actor, e) != Done || !ValidSubject(e.subject) || Occurrences(e) == None
      || ExemptFor(env, actor, e) || OnlyFirstPossible(env, actor, e)
  {
    if SeriesGate(env, actor, e) != Done || Occurrences(e) == None {
      assert forall s :: CreateSeries(env, s, actor, e).2 == [];
    } else if !ValidSubject(e.subject) {
      forall s, i: nat | WellNumbered(s)
        ensures !Accepted(env, s, actor, e, i)
      {
        NothingAccepted(env, s, actor, e, i);
      }
    } else if ExemptFor(env, actor, e) || OnlyFirstPossible(env, actor, e) {
      forall s, i: nat | WellNumbered(s) && Marked(env, s, actor, e, i)
        ensures !Accepted(env, s, actor, e, i)
      {
        RefusalStands(env, s, actor, e, i);
      }
    } else {
      var k :| 0 < k < |Occurrences(e).value| && Possible(env, actor, e, Occurrences(e).value[k]);
      var s := RefusalDoesNotStand(env, actor, e, k);
    }
  }

  lemma NothingAccepted(env: Env, s: State, actor: User, e: Series, i: nat)
    requires !ValidSubject(e.subject)
    ensures !Accepted(env, s, actor, e, i)
  {
    if Accepted(env, s, actor, e, i) {
      InvalidSubjectStoresNothing(
        env, InsertSeries(s, e.(user := actor.id)), actor, e, s.nextSeries, Occurrences(e).value, i);
    }
  }
}
