/** Booked minutes and space utilisation over a window, and why utilisation stays within 100 %. */
module Utilisation {
  import opened Wrappers
  import opened FiniteSets
  import opened Domain
  import opened Queries
  import Runs
  import Requests

  /** An inclusive range of the statistics pages. */
  datatype Window = Window(enter: int, leave: int) {
    function Length(): int {
      leave - enter
    }
  }

  predicate Reaches(b: Booking, w: Window) {
    b.enter <= w.leave && b.leave >= w.enter
  }

  /** The seconds of a booking that lie inside the window. */
  function Clipped(b: Booking, w: Window): int {
    (if b.leave < w.leave then b.leave else w.leave) - (if b.enter > w.enter then b.enter else w.enter)
  }

  function InWindow(rows: Table, spaces: set<SpaceId>, w: Window): set<BookingId> {
    set id | id in rows && rows[id].space in spaces && Reaches(rows[id], w)
  }

  /** The aggregate over the rows `ids`, in seconds. */
  ghost function SumClipped(rows: Table, ids: set<BookingId>, w: Window): int
    requires ids <= rows.Keys
    decreases |ids|
  {
    if ids == {} then 0
    else
      var id :| id in ids;
      Clipped(rows[id], w) + SumClipped(rows, ids - {id}, w)
  }

  /** `math.RoundToEven`. */
  function RoundToEven(x: real): int {
    var f := x.Floor;
    var rest := x - f as real;
    if rest < 0.5 then f
    else if rest > 0.5 then f + 1
    else if f % 2 == 0 then f else f + 1
  }

  function Minutes(seconds: int): real {
    seconds as real / 60.0
  }

  /** What `GetTotalBookedMinutesMulti` yields for one window. */
  ghost function BookedMinutes(rows: Table, spaces: set<SpaceId>, w: Window): int {
    RoundToEven(Minutes(SumClipped(rows, InWindow(rows, spaces, w), w)))
  }

  /** The hours that all spaces together should be booked for. */
  function HoursToFill(w: Window, numSpaces: nat, targetHoursPerWeek: int): real {
    w.Length() as real / 3600.0 / 24.0 * (targetHoursPerWeek as real / 7.0) * numSpaces as real
  }

  /** The minutes that all spaces together should or, without a target, could be booked for. */
  function TimeToFill(w: Window, numSpaces: nat, targetHoursPerWeek: int): real {
    if targetHoursPerWeek != 0 then HoursToFill(w, numSpaces, targetHoursPerWeek).Floor as real * 60.0
    else Minutes(w.Length()) * numSpaces as real
  }

  /** `calcLoad`; without time to fill the quotient is infinite and its conversion undefined. */
  function CalcLoad(w: Window, booked: int, numSpaces: nat, targetHoursPerWeek: int): Option<int> {
    if numSpaces == 0 || booked == 0 then Some(0)
    else
      var total := TimeToFill(w, numSpaces, targetHoursPerWeek);
      if total == 0.0 then None else Some(RoundToEven(booked as real / total * 100.0))
  }

  /** The nearest integer, and of two that are equally near the even one. */
  lemma RoundToEvenMeaning(x: real)
    ensures
      var r := RoundToEven(x);
      && -0.5 <= r as real - x <= 0.5
      && (r as real - x == 0.5 || r as real - x == -0.5 ==> r % 2 == 0)
  {
  }

  // ----- sums over sets of rows ------------------------------------------------------------------

  lemma {:induction false} SumRemove(rows: Table, ids: set<BookingId>, w: Window, id: BookingId)
    requires ids <= rows.Keys && id in ids
    ensures SumClipped(rows, ids, w) == Clipped(rows[id], w) + SumClipped(rows, ids - {id}, w)
    decreases |ids|
  {
    var o :| o in ids && SumClipped(rows, ids, w) == Clipped(rows[o], w) + SumClipped(rows, ids - {o}, w);
    if o != id {
      SumRemove(rows, ids - {o}, w, id);
      SumRemove(rows, ids - {id}, w, o);
      assert ids - {o} - {id} == ids - {id} - {o};
    }
  }

  lemma {:induction false} SumUnion(rows: Table, a: set<BookingId>, b: set<BookingId>, w: Window)
    requires a <= rows.Keys && b <= rows.Keys && a !! b
    ensures SumClipped(rows, a + b, w) == SumClipped(rows, a, w) + SumClipped(rows, b, w)
    decreases |a|
  {
    if a == {} {
      assert a + b == b;
    } else {
      var id :| id in a;
      SumRemove(rows, a, w, id);
      SumRemove(rows, a + b, w, id);
      SumUnion(rows, a - {id}, b, w);
      assert a + b - {id} == a - {id} + b;
    }
  }

  lemma {:induction false} SumSameClip(rows: Table, ids: set<BookingId>, w: Window, w': Window)
    requires ids <= rows.Keys
    requires forall id | id in ids :: Clipped(rows[id], w) == Clipped(rows[id], w')
    ensures SumClipped(rows, ids, w) == SumClipped(rows, ids, w')
    decreases |ids|
  {
    if ids != {} {
      var id :| id in ids;
      SumRemove(rows, ids, w, id);
      SumRemove(rows, ids, w', id);
      SumSameClip(rows, ids - {id}, w, w');
    }
  }

  // ----- a space cannot be booked for longer than the window ----------------------------------------

  /** Well-formed bookings that are over before the next one starts. */
  predicate Disjoint(rows: Table, ids: set<BookingId>)
    requires ids <= rows.Keys
  {
    && (forall id | id in ids :: rows[id].enter <= rows[id].leave)
    && forall i, j | i in ids && j in ids && i != j :: rows[i].leave < rows[j].enter || rows[j].leave < rows[i].enter
  }

  function EndingBefore(rows: Table, ids: set<BookingId>, t: int): set<BookingId> {
    set id | id in ids && id in rows && rows[id].leave < t
  }

  function StartingAfter(rows: Table, ids: set<BookingId>, t: int): set<BookingId> {
    set id | id in ids && id in rows && t < rows[id].enter
  }

  /** The other bookings lie on either side of `x`. */
  lemma SplitAround(rows: Table, ids: set<BookingId>, w: Window, x: BookingId)
    requires ids <= rows.Keys && Disjoint(rows, ids) && x in ids
    ensures
      var left, right := EndingBefore(rows, ids, rows[x].enter), StartingAfter(rows, ids, rows[x].leave);
      && |left| < |ids| && |right| < |ids|
      && SumClipped(rows, ids, w) == Clipped(rows[x], w) + SumClipped(rows, left, w) + SumClipped(rows, right, w)
  {
    var left, right := EndingBefore(rows, ids, rows[x].enter), StartingAfter(rows, ids, rows[x].leave);
    assert ids - {x} == left + right;
    SubsetSize(left, ids - {x});
    SubsetSize(right, ids - {x});
    SumRemove(rows, ids, w, x);
    SumUnion(rows, left, right, w);
  }

  lemma {:induction false} OneSpaceBound(rows: Table, ids: set<BookingId>, w: Window)
    requires ids <= rows.Keys && Disjoint(rows, ids)
    requires w.enter <= w.leave && forall id | id in ids :: Reaches(rows[id], w)
    ensures 0 <= SumClipped(rows, ids, w) <= w.Length()
    decreases |ids|, 0
  {
    if ids != {} {
      var x :| x in ids;
      SplitAround(rows, ids, w, x);
      LeftBound(rows, EndingBefore(rows, ids, rows[x].enter), w, rows[x].enter);
      RightBound(rows, StartingAfter(rows, ids, rows[x].leave), w, rows[x].leave);
    }
  }

  /** Bookings that are over before `cut` fill at most the part of the window before it. */
  lemma {:induction false} LeftBound(rows: Table, ids: set<BookingId>, w: Window, cut: int)
    requires ids <= rows.Keys && Disjoint(rows, ids)
    requires w.enter <= w.leave && cut <= w.leave
    requires forall id | id in ids :: Reaches(rows[id], w) && rows[id].leave < cut
    ensures 0 <= SumClipped(rows, ids, w)
    ensures SumClipped(rows, ids, w) <= if cut > w.enter then cut - w.enter else 0
    decreases |ids|, 1
  {
    if ids != {} {
      var id :| id in ids;
      var before := Window(w.enter, cut);
      SumSameClip(rows, ids, w, before);
      OneSpaceBound(rows, ids, before);
    }
  }

  lemma {:induction false} RightBound(rows: Table, ids: set<BookingId>, w: Window, cut: int)
    requires ids <= rows.Keys && Disjoint(rows, ids)
    requires w.enter <= w.leave && w.enter <= cut
    requires forall id | id in ids :: Reaches(rows[id], w) && cut < rows[id].enter
    ensures 0 <= SumClipped(rows, ids, w)
    ensures SumClipped(rows, ids, w) <= if cut < w.leave then w.leave - cut else 0
    decreases |ids|, 1
  {
    if ids != {} {
      var id :| id in ids;
      var after := Window(cut, w.leave);
      SumSameClip(rows, ids, w, after);
      OneSpaceBound(rows, ids, after);
    }
  }

  // ----- all spaces together --------------------------------------------------------------------------

  /** What every reachable state with well-formed bookings satisfies. */
  ghost predicate Orderly(rows: Table) {
    Runs.Holds(Runs.NoDoubleBooking, rows) && Runs.Holds(Runs.WellFormed, rows)
  }

  lemma OneSpaceDisjoint(rows: Table, space: SpaceId, w: Window)
    requires Orderly(rows)
    ensures Disjoint(rows, InWindow(rows, {space}, w))
  {
    var ids := InWindow(rows, {space}, w);
    forall i, j | i in ids && j in ids && i != j
      ensures rows[i].leave < rows[j].enter || rows[j].leave < rows[i].enter
    {
      assert rows[i].space == space && rows[j].space == space;
      assert !Clashes(rows[i].enter, rows[i].leave, rows[j]);
    }
  }

  lemma SumBySpace(rows: Table, spaces: set<SpaceId>, space: SpaceId, w: Window)
    requires space in spaces
    ensures SumClipped(rows, InWindow(rows, spaces, w), w) ==
            SumClipped(rows, InWindow(rows, {space}, w), w) + SumClipped(rows, InWindow(rows, spaces - {space}, w), w)
  {
    var here, there := InWindow(rows, {space}, w), InWindow(rows, spaces - {space}, w);
    assert InWindow(rows, spaces, w) == here + there;
    SumUnion(rows, here, there, w);
  }

  lemma OneMore(a: int, n: int)
    ensures a * n == a * (n - 1) + a
  {
  }

  lemma OneMoreSpace(here: int, there: int, length: int, n: nat)
    requires n > 0 && 0 <= here <= length && 0 <= there <= length * (n - 1)
    ensures 0 <= here + there <= length * n
  {
    OneMore(length, n);
  }

  lemma {:induction false} AllSpacesBound(rows: Table, spaces: set<SpaceId>, w: Window)
    requires Orderly(rows) && w.enter <= w.leave
    ensures 0 <= SumClipped(rows, InWindow(rows, spaces, w), w) <= w.Length() * |spaces|
    decreases |spaces|
  {
    if spaces == {} {
      assert InWindow(rows, spaces, w) == {};
    } else {
      var space :| space in spaces;
      SumBySpace(rows, spaces, space, w);
      OneSpaceDisjoint(rows, space, w);
      OneSpaceBound(rows, InWindow(rows, {space}, w), w);
      AllSpacesBound(rows, spaces - {space}, w);
      assert |spaces - {space}| == |spaces| - 1;
      OneMoreSpace(
        SumClipped(rows, InWindow(rows, {space}, w), w), SumClipped(rows, InWindow(rows, spaces - {space}, w), w),
        w.Length(), |spaces|);
    }
  }

  // ----- rounding ---------------------------------------------------------------------------------------

  lemma RoundMonotone(x: real, y: real)
    requires x <= y
    ensures RoundToEven(x) <= RoundToEven(y)
  {
    assert x.Floor <= y.Floor;
  }

  lemma QuotientMonotone(a: real, b: real, t: real)
    requires a <= b && t > 0.0
    ensures a / t * 100.0 <= b / t * 100.0
  {
    var d := (b - a) / t;
    assert d * t == b - a;
    assert b / t == a / t + d;
  }

  lemma QuotientAgainst(a: real, t: real)
    requires t > 0.0
    ensures a / t * 100.0 <= 100.5 <==> a * 200.0 <= 201.0 * t
  {
    var q := a / t;
    assert q * t == a;
    if q <= 1.005 {
      assert (1.005 - q) * t >= 0.0;
    } else {
      assert (q - 1.005) * t > 0.0;
    }
  }

  /**
    The minutes `t` that all spaces together offer, once rounded, exceed `t` by half a percent at
    most. A caller can check this before asking for the load.
   */
  predicate RoundsWithinHalfAPercent(t: real) {
    RoundToEven(t) as real * 200.0 <= 201.0 * t
  }

  lemma HundredMinutesRoundWell(t: real)
    requires t >= 100.0
    ensures RoundsWithinHalfAPercent(t)
  {
    assert RoundToEven(t) as real <= t + 0.5;
  }

  function OfferedMinutes(w: Window, numSpaces: nat): real {
    Minutes(w.Length()) * numSpaces as real
  }

  lemma OfferedCoversBooked(rows: Table, spaces: set<SpaceId>, w: Window)
    requires Orderly(rows) && w.enter <= w.leave
    ensures 0 <= BookedMinutes(rows, spaces, w) <= RoundToEven(OfferedMinutes(w, |spaces|))
  {
    AllSpacesBound(rows, spaces, w);
    var sum := SumClipped(rows, InWindow(rows, spaces, w), w);
    OfferedAsSeconds(w, |spaces|);
    MinutesMonotone(0, sum);
    MinutesMonotone(sum, w.Length() * |spaces|);
    RoundMonotone(Minutes(0), Minutes(sum));
    RoundMonotone(Minutes(sum), Minutes(w.Length() * |spaces|));
  }

  lemma MinutesMonotone(a: int, b: int)
    requires a <= b
    ensures Minutes(a) <= Minutes(b)
  {
  }

  lemma OfferedAsSeconds(w: Window, numSpaces: nat)
    ensures OfferedMinutes(w, numSpaces) == Minutes(w.Length() * numSpaces)
  {
    ProductAsReal(w.Length(), numSpaces);
  }

  lemma ProductAsReal(a: int, b: int)
    ensures Minutes(a) * b as real == Minutes(a * b)
  {
    assert a as real * b as real == (a * b) as real;
  }

  /** Without a target all the minutes on offer are to be filled. */
  lemma NoTargetMeansAll(w: Window, numSpaces: nat)
    ensures TimeToFill(w, numSpaces, 0) == OfferedMinutes(w, numSpaces)
  {
  }

  /** Without a target, the load of orderly bookings is between 0 and 100 if the offer rounds well. */
  lemma LoadAtMostHundred(rows: Table, spaces: set<SpaceId>, w: Window)
    requires Orderly(rows) && w.enter <= w.leave
    requires RoundsWithinHalfAPercent(OfferedMinutes(w, |spaces|))
    ensures
      var load := CalcLoad(w, BookedMinutes(rows, spaces, w), |spaces|, 0);
      load.Some? && 0 <= load.value <= 100
  {
    OfferedCoversBooked(rows, spaces, w);
    NoTargetMeansAll(w, |spaces|);
    var booked, t := BookedMinutes(rows, spaces, w), OfferedMinutes(w, |spaces|);
    if |spaces| != 0 && booked != 0 {
      if t <= 0.0 {
        RoundMonotone(t, 0.0);
      }
      QuotientMonotone(0.0, booked as real, t);
      QuotientMonotone(booked as real, RoundToEven(t) as real, t);
      QuotientAgainst(RoundToEven(t) as real, t);
      RoundMonotone(0.0, booked as real / t * 100.0);
      RoundMonotone(booked as real / t * 100.0, 100.5);
    }
  }

  // ----- the condition is exact -----------------------------------------------------------------------------

  /** One booking for the whole window in each of `spaces`, numbered from zero. */
  predicate FullyBooked(rows: Table, spaces: set<SpaceId>, w: Window) {
    && (forall id | id in rows :: id < |spaces| && rows[id].space in spaces)
    && (forall id | id in rows :: rows[id].enter == w.enter && rows[id].leave == w.leave)
  }

  lemma AddKeepsOrderly(rest: Table, spaces: set<SpaceId>, space: SpaceId, w: Window, id: BookingId, b: Booking)
    requires w.enter <= w.leave && space in spaces && id == |spaces| - 1
    requires b.space == space && b.enter == w.enter && b.leave == w.leave
    requires Orderly(rest) && FullyBooked(rest, spaces - {space}, w)
    ensures id !in rest && Orderly(rest[id := b]) && FullyBooked(rest[id := b], spaces, w)
  {
  }

  lemma AddToSum(rest: Table, w: Window, id: BookingId, b: Booking)
    requires id !in rest
    ensures SumClipped(rest[id := b], rest[id := b].Keys, w) == Clipped(b, w) + SumClipped(rest, rest.Keys, w)
  {
    var rows := rest[id := b];
    SumRemove(rows, rows.Keys, w, id);
    assert rows.Keys - {id} == rest.Keys;
    SumSameRows(rows, rest, rest.Keys, w);
  }

  lemma EmptyHouse(rows: Table, w: Window)
    requires rows == map[]
    ensures Orderly(rows) && FullyBooked(rows, {}, w) && SumClipped(rows, rows.Keys, w) == 0
  {
  }

  ghost predicate IsFullHouse(rows: Table, spaces: set<SpaceId>, w: Window, n: nat) {
    && n == |spaces|
    && Orderly(rows) && FullyBooked(rows, spaces, w)
    && SumClipped(rows, rows.Keys, w) == w.Length() * n
  }

  lemma AddGuest(rest: Table, spaces: set<SpaceId>, space: SpaceId, w: Window, n: nat) returns (rows: Table)
    requires w.enter <= w.leave && space in spaces && n > 0
    requires IsFullHouse(rest, spaces - {space}, w, n - 1)
    ensures IsFullHouse(rows, spaces, w, n)
  {
    var b := Booking("", space, w.enter, w.leave, true, "", None);
    AddKeepsOrderly(rest, spaces, space, w, n - 1, b);
    AddToSum(rest, w, n - 1, b);
    OneMore(w.Length(), n);
    rows := rest[n - 1 := b];
  }

  lemma {:induction false} FullHouse(spaces: set<SpaceId>, w: Window, n: nat) returns (rows: Table)
    requires w.enter <= w.leave && n == |spaces|
    ensures IsFullHouse(rows, spaces, w, n)
    decreases n
  {
    if n == 0 {
      rows := map[];
      EmptyHouse(rows, w);
    } else {
      var space :| space in spaces;
      var rest := FullHouse(spaces - {space}, w, n - 1);
      rows := AddGuest(rest, spaces, space, w, n);
    }
  }

  lemma {:induction false} SumSameRows(rows: Table, rows': Table, ids: set<BookingId>, w: Window)
    requires ids <= rows.Keys && ids <= rows'.Keys && forall id | id in ids :: rows[id] == rows'[id]
    ensures SumClipped(rows, ids, w) == SumClipped(rows', ids, w)
    decreases |ids|
  {
    if ids != {} {
      var id :| id in ids;
      SumRemove(rows, ids, w, id);
      SumRemove(rows', ids, w, id);
      SumSameRows(rows, rows', ids - {id}, w);
    }
  }

  ghost predicate NeverOverloaded(spaces: set<SpaceId>, w: Window) {
    forall rows: Table | Orderly(rows) :: LoadWithinBounds(rows, spaces, w)
  }

  ghost predicate LoadWithinBounds(rows: Table, spaces: set<SpaceId>, w: Window) {
    var load := CalcLoad(w, BookedMinutes(rows, spaces, w), |spaces|, 0);
    load.Some? && 0 <= load.value <= 100
  }

  lemma OverloadedQuotient(t: real)
    requires t > 0.0 && !RoundsWithinHalfAPercent(t)
    ensures RoundToEven(t) != 0 && RoundToEven(RoundToEven(t) as real / t * 100.0) > 100
  {
    QuotientAgainst(RoundToEven(t) as real, t);
  }

  lemma FullHouseBooked(rows: Table, spaces: set<SpaceId>, w: Window)
    requires w.enter <= w.leave && FullyBooked(rows, spaces, w)
    requires SumClipped(rows, rows.Keys, w) == w.Length() * |spaces|
    ensures BookedMinutes(rows, spaces, w) == RoundToEven(OfferedMinutes(w, |spaces|))
  {
    OfferedAsSeconds(w, |spaces|);
    AllInWindow(rows, spaces, w);
  }

  lemma AllInWindow(rows: Table, spaces: set<SpaceId>, w: Window)
    requires w.enter <= w.leave && FullyBooked(rows, spaces, w)
    ensures InWindow(rows, spaces, w) == rows.Keys
  {
  }

  lemma OfferedPositive(w: Window, numSpaces: nat)
    requires w.enter < w.leave && numSpaces > 0
    ensures OfferedMinutes(w, numSpaces) > 0.0
  {
  }

  lemma FullHouseOverloads(spaces: set<SpaceId>, w: Window)
    requires w.enter < w.leave && spaces != {}
    requires !RoundsWithinHalfAPercent(OfferedMinutes(w, |spaces|))
    ensures !NeverOverloaded(spaces, w)
  {
    var rows := FullHouse(spaces, w, |spaces|);
    FullHouseBooked(rows, spaces, w);
    NoTargetMeansAll(w, |spaces|);
    OfferedPositive(w, |spaces|);
    OverloadedQuotient(OfferedMinutes(w, |spaces|));
    assert !LoadWithinBounds(rows, spaces, w);
  }

  /**
    No orderly bookings can push the load above 100, exactly if the minutes on offer round well;
    100 minutes or more always do.
   */
  lemma NeverOverloadedIff(spaces: set<SpaceId>, w: Window)
    requires w.enter < w.leave && spaces != {}
    ensures NeverOverloaded(spaces, w) <==> RoundsWithinHalfAPercent(OfferedMinutes(w, |spaces|))
    ensures OfferedMinutes(w, |spaces|) >= 100.0 ==> NeverOverloaded(spaces, w)
  {
    if OfferedMinutes(w, |spaces|) >= 100.0 {
      HundredMinutesRoundWell(OfferedMinutes(w, |spaces|));
    }
    if RoundsWithinHalfAPercent(OfferedMinutes(w, |spaces|)) {
      forall rows: Table | Orderly(rows)
        ensures LoadWithinBounds(rows, spaces, w)
      {
        LoadAtMostHundred(rows, spaces, w);
      }
    } else {
      FullHouseOverloads(spaces, w);
    }
  }

  /** The load of a window that is booked from end to end in every space. */
  function FullLoad(w: Window, numSpaces: nat, target: int): int
    requires TimeToFill(w, numSpaces, target) > 0.0
  {
    RoundToEven(RoundToEven(OfferedMinutes(w, numSpaces)) as real / TimeToFill(w, numSpaces, target) * 100.0)
  }

  /** Whatever the target, no orderly bookings give a higher load than that. */
  lemma LoadAtMostFull(rows: Table, spaces: set<SpaceId>, w: Window, target: int)
    requires Orderly(rows) && w.enter <= w.leave
    requires spaces != {} && TimeToFill(w, |spaces|, target) > 0.0
    ensures
      var load := CalcLoad(w, BookedMinutes(rows, spaces, w), |spaces|, target);
      load.Some? && 0 <= load.value <= FullLoad(w, |spaces|, target)
  {
    OfferedCoversBooked(rows, spaces, w);
    var booked, full := BookedMinutes(rows, spaces, w), RoundToEven(OfferedMinutes(w, |spaces|));
    var total := TimeToFill(w, |spaces|, target);
    QuotientMonotone(0.0, booked as real, total);
    QuotientMonotone(booked as real, full as real, total);
    RoundMonotone(0.0, booked as real / total * 100.0);
    RoundMonotone(booked as real / total * 100.0, full as real / total * 100.0);
  }

  /** And some orderly bookings give just that load. */
  lemma FullLoadIsReached(spaces: set<SpaceId>, w: Window, target: int) returns (rows: Table)
    requires w.enter <= w.leave && spaces != {} && TimeToFill(w, |spaces|, target) > 0.0
    ensures Orderly(rows)
    ensures CalcLoad(w, BookedMinutes(rows, spaces, w), |spaces|, target) == Some(FullLoad(w, |spaces|, target))
  {
    rows := FullHouse(spaces, w, |spaces|);
    FullHouseBooked(rows, spaces, w);
    var booked := BookedMinutes(rows, spaces, w);
    if booked == 0 {
      var total := TimeToFill(w, |spaces|, target);
      assert booked as real / total * 100.0 == 0.0;
    }
  }

  // ----- what a target means ---------------------------------------------------------------------------

  /** The hours that `n` spaces are to be booked for in a window, at `h` hours a week. */
  function TargetHours(w: Window, n: nat, h: int): real {
    (w.Length() * h * n) as real / 604800.0
  }

  lemma TargetHoursMeaning(w: Window, n: nat, h: int)
    ensures HoursToFill(w, n, h) == TargetHours(w, n, h)
  {
    var length, hours := w.Length() as real, h as real;
    assert length / 3600.0 / 24.0 * (hours / 7.0) == length * hours / 604800.0;
    assert (w.Length() * h * n) as real == length * hours * n as real;
    assert length * hours / 604800.0 * n as real == length * hours * n as real / 604800.0;
  }

  lemma TargetInMinutes(w: Window, n: nat, h: int)
    requires h != 0
    ensures TimeToFill(w, n, h) == TargetHours(w, n, h).Floor as real * 60.0
  {
    TargetHoursMeaning(w, n, h);
  }

  lemma WholeWeeks(w: Window, k: nat, n: nat, h: int)
    requires w.Length() == 604800 * k
    ensures TargetHours(w, n, h) == (k * h * n) as real
  {
    assert w.Length() * h * n == 604800 * (k * h * n);
    assert (604800 * (k * h * n)) as real == 604800.0 * (k * h * n) as real;
  }

  lemma HundredOfItself(x: real)
    requires x > 0.0
    ensures x / x * 100.0 == 100.0
  {
  }

  /** Over whole weeks, bookings of just the target hours of each week in each space are a load of 100. */
  lemma OnTargetIsHundred(w: Window, k: nat, n: nat, h: nat)
    requires w.Length() == 604800 * k && k * n > 0 && h > 0
    ensures CalcLoad(w, h * k * n * 60, n, h) == Some(100)
  {
    WholeWeeks(w, k, n, h);
    TargetInMinutes(w, n, h);
    var hours := h * k * n;
    assert hours == k * h * n && hours == h * (k * n);
    PositiveProduct(h, k * n);
    assert TimeToFill(w, n, h) == (hours * 60) as real;
    HundredOfItself((hours * 60) as real);
  }

  lemma PositiveProduct(a: nat, b: nat)
    requires a > 0 && b > 0
    ensures a * b > 0
  {
  }

  lemma LargerDivisor(a: real, t: real, u: real)
    requires 0.0 <= a && 0.0 < t <= u
    ensures a / u * 100.0 <= a / t * 100.0
  {
    var q := a / u;
    assert q * u == a && q >= 0.0;
    assert q * t <= q * u;
    QuotientMonotone(q * t, a, t);
    assert q * t / t == q;
  }

  /**
    For any window and target, the load is at least the percentage of the target hours, rounded, and at
    most that of the target hours less one: the target is cut to full hours first.
   */
  lemma LoadAgainstTarget(w: Window, booked: nat, n: nat, h: nat)
    requires n > 0 && booked > 0 && h > 0 && TargetHours(w, n, h) >= 1.0
    ensures
      var load, target := CalcLoad(w, booked, n, h), TargetHours(w, n, h);
      && load.Some?
      && RoundToEven(booked as real / (target * 60.0) * 100.0) <= load.value
      && (target > 1.0 ==> load.value <= RoundToEven(booked as real / ((target - 1.0) * 60.0) * 100.0))
  {
    var target, full := TargetHours(w, n, h), TargetHours(w, n, h).Floor as real;
    TargetInMinutes(w, n, h);
    assert target - 1.0 < full <= target && full >= 1.0;
    LargerDivisor(booked as real, full * 60.0, target * 60.0);
    RoundMonotone(booked as real / (target * 60.0) * 100.0, booked as real / (full * 60.0) * 100.0);
    if target > 1.0 {
      LargerDivisor(booked as real, (target - 1.0) * 60.0, full * 60.0);
      RoundMonotone(booked as real / (full * 60.0) * 100.0, booked as real / ((target - 1.0) * 60.0) * 100.0);
    }
  }

  /** With a target of less than an hour in all there is no load to speak of. */
  lemma NoFullHourNoLoad(w: Window, booked: nat, n: nat, h: nat)
    requires n > 0 && booked > 0 && h > 0 && w.Length() >= 0
    ensures CalcLoad(w, booked, n, h) == None <==> TargetHours(w, n, h) < 1.0
  {
    TargetInMinutes(w, n, h);
    assert TargetHours(w, n, h) >= 0.0 by {
      assert w.Length() * h >= 0 && w.Length() * h * n >= 0;
    }
  }

  /** Reachable states in which durations are checked by the hour are orderly. */
  lemma ReachableStatesOrderly(calls: seq<Runs.Call>)
    requires Runs.RunCovered(Runs.WellFormed, Requests.EMPTY, calls)
    ensures Orderly(Runs.Run(Requests.EMPTY, calls).bookings)
  {
    Runs.EmptyHolds(Runs.WellFormed);
    Runs.RunKeeps(Runs.WellFormed, Requests.EMPTY, calls);
    Runs.EmptyHolds(Runs.NoDoubleBooking);
    Runs.AlwaysCovered(Requests.EMPTY, calls);
    Runs.RunKeeps(Runs.NoDoubleBooking, Requests.EMPTY, calls);
  }
}
