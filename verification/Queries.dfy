/** The queries of the booking repository, as sets of rows of the booking table. */
module Queries {
  import opened Wrappers
  import opened Domain
  import opened FiniteSets

  type Table = map<BookingId, Booking>

  /** The four-clause test for bookings that get in the way of `enter`..`leave`. */
  predicate Clashes(enter: int, leave: int, b: Booking) {
    || (b.enter <= enter <= b.leave)
    || (b.enter <= leave <= b.leave)
    || (enter <= b.enter <= leave)
    || (enter <= b.leave <= leave)
  }

  /** The three-clause test for bookings of one user in the same time range. */
  predicate InTimeRange(enter: int, leave: int, b: Booking) {
    || (enter <= b.enter < leave)
    || (enter < b.leave <= leave)
    || (b.enter <= enter && leave <= b.leave)
  }

  function GetConflicts(
      rows: Table, space: SpaceId, enter: int, leave: int, exclude: Option<BookingId>): set<BookingId> {
    set id | id in rows && Some(id) != exclude && rows[id].space == space && Clashes(enter, leave, rows[id])
  }

  function GetTimeRangeByUser(
      rows: Table, user: UserId, enter: int, leave: int, exclude: Option<BookingId>): set<BookingId> {
    set id | id in rows && Some(id) != exclude && rows[id].user == user && InTimeRange(enter, leave, rows[id])
  }

  /** Bookings of `spaces` that reach into `enter`..`leave`. */
  function GetNear(
      rows: Table, spaces: set<SpaceId>, enter: int, leave: int, exclude: Option<BookingId>): set<BookingId> {
    set id | id in rows && Some(id) != exclude && rows[id].space in spaces && Clashes(enter, leave, rows[id])
  }

  /** Bookings of a user that are not over; the joins drop rows whose space is gone. */
  function GetUpcoming(env: Env, rows: Table, user: UserId): set<BookingId> {
    set id | id in rows && env.HasSpace(rows[id].space) && rows[id].user == user && rows[id].leave >= env.now
  }

  /** Bookings running strictly before and after `t`. */
  function Active(rows: Table, ids: set<BookingId>, t: int): set<BookingId> {
    set id | id in ids && id in rows && rows[id].enter < t < rows[id].leave
  }

  const SAMPLE := 60

  function Max(a: nat, b: nat): nat {
    if a < b then b else a
  }

  /** The largest number of `ids` active at one of the instants `t`, `t + 60`, … up to `leave`. */
  function Peak(rows: Table, ids: set<BookingId>, t: int, leave: int): nat
    decreases leave - t
  {
    if t > leave then 0 else Max(|Active(rows, ids, t)|, Peak(rows, ids, t + SAMPLE, leave))
  }

  /** What `GetConcurrent` computes. */
  function GetConcurrent(
      rows: Table, spaces: set<SpaceId>, enter: int, leave: int, exclude: Option<BookingId>): nat {
    Peak(rows, GetNear(rows, spaces, enter, leave, exclude), enter, leave)
  }

  // ----- what the two tests mean ---------------------------------------------------------------

  /** The clash test is symmetric, whether or not the intervals are well formed. */
  lemma ClashSymmetric(a: Booking, b: Booking)
    ensures Clashes(a.enter, a.leave, b) <==> Clashes(b.enter, b.leave, a)
  {
  }

  /** For well-formed intervals the clash test is the overlap of closed intervals. */
  lemma ClashIsClosedOverlap(enter: int, leave: int, b: Booking)
    requires enter <= leave && b.enter <= b.leave
    ensures Clashes(enter, leave, b) <==>
            exists t {:trigger Within(t, enter, leave)} :: Within(t, enter, leave) && Within(t, b.enter, b.leave)
  {
    if Clashes(enter, leave, b) {
      var t := if enter <= b.enter then b.enter else enter;
      assert Within(t, enter, leave) && Within(t, b.enter, b.leave);
    }
  }

  predicate Within(t: int, low: int, high: int) {
    low <= t <= high
  }

  /**
    For proper intervals the three clauses are the overlap of half-open intervals; the case of a
    request that covers a whole booking needs no clause of its own.
   */
  lemma TimeRangeIsHalfOpenOverlap(enter: int, leave: int, b: Booking)
    requires enter < leave && b.enter < b.leave
    ensures InTimeRange(enter, leave, b) <==> enter < b.leave && b.enter < leave
  {
  }

  // ----- the minute sweep ----------------------------------------------------------------------

  /** Every sample counts. */
  lemma {:induction false} PeakSeesSample(rows: Table, ids: set<BookingId>, t: int, leave: int, n: nat)
    requires t + SAMPLE * n <= leave
    ensures |Active(rows, ids, t + SAMPLE * n)| <= Peak(rows, ids, t, leave)
    decreases n
  {
    if n > 0 {
      PeakSeesSample(rows, ids, t + SAMPLE, leave, n - 1);
    }
  }

  /** The result is attained at an instant of the window, unless it is zero. */
  lemma {:induction false} PeakIsAttained(rows: Table, ids: set<BookingId>, t: int, leave: int) returns (at: int)
    ensures Peak(rows, ids, t, leave) > 0 ==> t <= at <= leave && |Active(rows, ids, at)| == Peak(rows, ids, t, leave)
    decreases leave - t
  {
    at := t;
    if t <= leave && |Active(rows, ids, t)| < Peak(rows, ids, t + SAMPLE, leave) {
      at := PeakIsAttained(rows, ids, t + SAMPLE, leave);
    }
  }

  /** The bookings of `spaces`, except `exclude`, that the whole stretch from `s` to `e` belongs to. */
  function Sharing(rows: Table, spaces: set<SpaceId>, s: int, e: int, exclude: Option<BookingId>): set<BookingId> {
    set id | id in rows && Some(id) != exclude && rows[id].space in spaces && rows[id].enter <= s && e <= rows[id].leave
  }

  /** All bookings of `spaces` except `exclude`. */
  function AllOf(rows: Table, spaces: set<SpaceId>, exclude: Option<BookingId>): set<BookingId> {
    set id | id in rows && Some(id) != exclude && rows[id].space in spaces
  }

  /**
    Nearly complete: whatever bookings share with the window a stretch of more than 60 seconds,
    the sweep finds at least that many.
   */
  lemma SweepSeesLongStretch(
      rows: Table, spaces: set<SpaceId>, enter: int, leave: int, exclude: Option<BookingId>, s: int, e: int)
    requires enter <= s && e <= leave && e - s > SAMPLE
    ensures |Sharing(rows, spaces, s, e, exclude)| <= GetConcurrent(rows, spaces, enter, leave, exclude)
  {
    var n := (s - enter) / SAMPLE + 1;
    var t := enter + SAMPLE * n;
    assert s < t < e;
    var near := GetNear(rows, spaces, enter, leave, exclude);
    PeakSeesSample(rows, near, enter, leave, n);
    SubsetSize(Sharing(rows, spaces, s, e, exclude), Active(rows, near, t));
  }

  /** Sound: the result is the number of bookings running at some instant of the window, or zero. */
  lemma SweepNeverOvercounts(
      rows: Table, spaces: set<SpaceId>, enter: int, leave: int, exclude: Option<BookingId>, bound: nat)
    requires forall t | enter <= t <= leave :: |Active(rows, AllOf(rows, spaces, exclude), t)| <= bound
    ensures GetConcurrent(rows, spaces, enter, leave, exclude) <= bound
  {
    SweepNeedsNoFilter(rows, spaces, enter, leave, exclude, enter);
    var at := PeakIsAttained(rows, AllOf(rows, spaces, exclude), enter, leave);
  }

  /** The query's filter drops no booking that any sample would have counted. */
  lemma {:induction false} SweepNeedsNoFilter(
      rows: Table, spaces: set<SpaceId>, enter: int, leave: int, exclude: Option<BookingId>, t: int)
    requires enter <= t
    ensures Peak(rows, GetNear(rows, spaces, enter, leave, exclude), t, leave) ==
            Peak(rows, AllOf(rows, spaces, exclude), t, leave)
    decreases leave - t
  {
    if t <= leave {
      assert Active(rows, GetNear(rows, spaces, enter, leave, exclude), t) ==
             Active(rows, AllOf(rows, spaces, exclude), t);
      SweepNeedsNoFilter(rows, spaces, enter, leave, exclude, t + SAMPLE);
    }
  }

  /** A stretch of exactly 60 seconds can be missed. */
  lemma SweepMissesOneMinute(space: SpaceId, user: UserId)
    ensures
      var rows: Table := map[0 := Booking(user, space, 100, 160, true, "", None)];
      |Sharing(rows, {space}, 100, 160, None)| == 1 && GetConcurrent(rows, {space}, 100, 160, None) == 0
  {
    var rows: Table := map[0 := Booking(user, space, 100, 160, true, "", None)];
    assert Sharing(rows, {space}, 100, 160, None) == {0};
    var near := GetNear(rows, {space}, 100, 160, None);
    assert Active(rows, near, 100) == {};
    assert Active(rows, near, 160) == {};
    assert Peak(rows, near, 160, 160) == 0;
  }
}
