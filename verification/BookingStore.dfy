/** The two booking tables as an object whose rows the handlers change in place. */
module BookingStore {
  import opened Wrappers
  import opened FiniteSets
  import opened Domain
  import opened Queries
  import opened Requests
  import opened Recurrence

  predicate OrderedByEnter(rows: Table, ids: seq<BookingId>)
    requires forall i | 0 <= i < |ids| :: ids[i] in rows
  {
    forall i, j | 0 <= i < j < |ids| :: rows[ids[i]].enter <= rows[ids[j]].enter
  }

  function Members(ids: seq<BookingId>): set<BookingId> {
    set id | id in ids
  }

  predicate NoRepeats(ids: seq<BookingId>) {
    forall i, j | 0 <= i < j < |ids| :: ids[i] != ids[j]
  }

  lemma {:induction false} EarliestExists(rows: Table, ids: set<BookingId>) returns (first: BookingId)
    requires ids != {} && ids <= rows.Keys
    ensures first in ids && forall o | o in ids :: rows[first].enter <= rows[o].enter
    decreases ids
  {
    first :| first in ids;
    if ids != {first} {
      var next := EarliestExists(rows, ids - {first});
      if rows[next].enter < rows[first].enter {
        first := next;
      }
    }
  }

  lemma {:induction false} SoonestOverExists(rows: Table, ids: set<BookingId>) returns (first: BookingId)
    requires ids != {} && ids <= rows.Keys
    ensures first in ids && forall o | o in ids :: rows[first].leave <= rows[o].leave
    decreases ids
  {
    first :| first in ids;
    if ids != {first} {
      var next := SoonestOverExists(rows, ids - {first});
      if rows[next].leave < rows[first].leave {
        first := next;
      }
    }
  }

  class Store {
    var bookings: Table
    var series: map<SeriesId, Series>
    var nextBooking: BookingId
    var nextSeries: SeriesId

    function Snapshot(): State
      reads this
    {
      State(bookings, series, nextBooking, nextSeries)
    }

    constructor ()
      ensures Snapshot() == EMPTY
    {
      bookings, series, nextBooking, nextSeries := map[], map[], 0, 0;
    }

    method Create(b: Booking) returns (id: BookingId)
      modifies this
      ensures Snapshot() == InsertBooking(old(Snapshot()), b) && id == old(nextBooking)
    {
      id := nextBooking;
      bookings := bookings[id := b];
      nextBooking := nextBooking + 1;
    }

    method Update(id: BookingId, b: Booking)
      modifies this`bookings
      ensures bookings == if id in old(bookings) then old(bookings)[id := b] else old(bookings)
    {
      if id in bookings {
        bookings := bookings[id := b];
      }
    }

    /** Also drops the series when its last booking goes. */
    method Delete(id: BookingId)
      requires id in bookings
      modifies this
      ensures Snapshot() == RemoveBooking(old(Snapshot()), id)
    {
      var recurring := bookings[id].series;
      bookings := bookings - {id};
      if recurring.Some? {
        var others := set o | o in bookings && bookings[o].series == recurring;
        if |others| == 0 {
          assert forall o | o in bookings && bookings[o].series == recurring :: o in others;
          series := series - {recurring.value};
        } else {
          var o :| o in others;
          assert bookings[o].series == recurring;
        }
      }
    }

    method CreateSeries(e: Series) returns (id: SeriesId)
      modifies this
      ensures Snapshot() == InsertSeries(old(Snapshot()), e) && id == old(nextSeries)
    {
      id := nextSeries;
      series := series[id := e];
      nextSeries := nextSeries + 1;
    }

    /** Future bookings go, past ones are detached, and so the series. */
    method DeleteSeries(id: SeriesId, now: int)
      modifies this
      ensures Snapshot() == RemoveSeries(old(Snapshot()), id, now)
    {
      bookings := map o | o in bookings && !(bookings[o].series == Some(id) && bookings[o].enter > now) :: bookings[o];
      bookings := map o | o in bookings ::
        if bookings[o].series == Some(id) then bookings[o].(series := None) else bookings[o];
      series := series - {id};
    }

    /** The inner query of the clean-up: the `batch` of them that ended first. */
    method SelectOldest(ids: set<BookingId>, batch: nat) returns (victims: set<BookingId>)
      requires ids <= bookings.Keys
      ensures victims <= ids && |victims| <= batch
      ensures forall o | o in ids - victims ::
                |victims| == batch && forall id | id in victims :: bookings[id].leave <= bookings[o].leave
    {
      victims := {};
      var rest := ids;
      while rest != {} && |victims| < batch
        invariant |victims| <= batch && victims + rest == ids && victims !! rest
        invariant forall id, o | id in victims && o in rest :: bookings[id].leave <= bookings[o].leave
        decreases rest
      {
        ghost var least := SoonestOverExists(bookings, rest);
        var next :| next in rest && forall o | o in rest :: bookings[next].leave <= bookings[o].leave;
        victims, rest := victims + {next}, rest - {next};
      }
    }

    /** Removes the oldest of the bookings that may go, and then the series left without bookings. */
    method PurgeOldBookings(env: Env, batch: nat) returns (victims: set<BookingId>)
      modifies this
      ensures PurgeChoice(env, old(Snapshot()), victims, batch)
      ensures Snapshot() == PurgeBookings(old(Snapshot()), victims)
    {
      var candidates := set id | id in bookings && Purgeable(env, bookings[id]);
      victims := SelectOldest(candidates, batch);
      if victims == {} {
        return;
      }
      bookings := bookings - victims;
      series := map r | r in series && (exists id | id in bookings :: bookings[id].series == Some(r)) :: series[r];
    }

    /** A query result: the rows found, by the time they start. */
    method SelectOrdered(ids: set<BookingId>) returns (found: seq<BookingId>)
      requires ids <= bookings.Keys
      ensures Members(found) == ids && NoRepeats(found)
      ensures forall i | 0 <= i < |found| :: found[i] in bookings
      ensures OrderedByEnter(bookings, found)
    {
      found := [];
      var rest := ids;
      while rest != {}
        invariant Members(found) + rest == ids && Members(found) !! rest && NoRepeats(found)
        invariant forall i | 0 <= i < |found| :: found[i] in ids && found[i] !in rest
        invariant OrderedByEnter(bookings, found)
        invariant forall i, o | 0 <= i < |found| && o in rest :: bookings[found[i]].enter <= bookings[o].enter
        decreases rest
      {
        ghost var least := EarliestExists(bookings, rest);
        var first :| first in rest && forall o | o in rest :: bookings[first].enter <= bookings[o].enter;
        assert first !in Members(found);
        assert Members(found + [first]) == Members(found) + {first};
        found := found + [first];
        rest := rest - {first};
      }
    }

    /** The inner counting loop of the sweep. */
    method NumActive(found: seq<BookingId>, t: int) returns (count: nat)
      requires NoRepeats(found) && forall i | 0 <= i < |found| :: found[i] in bookings
      ensures count == |Active(bookings, Members(found), t)|
    {
      count := 0;
      ghost var counted := {};
      for i := 0 to |found|
        invariant count == |counted|
        invariant counted == Active(bookings, Members(found[..i]), t)
      {
        assert found[..i + 1] == found[..i] + [found[i]];
        assert found[i] !in found[..i];
        var b := bookings[found[i]];
        if b.enter < t && b.leave > t {
          count := count + 1;
          counted := counted + {found[i]};
        }
      }
      assert found[..|found|] == found;
    }

    /** The minute sweep over the bookings near the window. */
    method GetConcurrent(spaces: set<SpaceId>, enter: int, leave: int, exclude: Option<BookingId>) returns (max: nat)
      ensures max == Queries.GetConcurrent(bookings, spaces, enter, leave, exclude)
    {
      ghost var near := GetNear(bookings, spaces, enter, leave, exclude);
      var found := SelectOrdered(GetNear(bookings, spaces, enter, leave, exclude));
      max := 0;
      var timestamp := enter;
      while timestamp <= leave
        invariant Max(max, Peak(bookings, near, timestamp, leave)) == Peak(bookings, near, enter, leave)
        decreases leave - timestamp
      {
        var numActive := NumActive(found, timestamp);
        if numActive > max {
          max := numActive;
        }
        timestamp := timestamp + SAMPLE;
      }
    }
  }
}
