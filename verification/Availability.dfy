/** Which spaces of a location are free in a time range, computed for all of them in one pass. */
module Availability {
  import opened Wrappers
  import opened FiniteSets
  import opened Domain
  import opened Queries
  import opened BookingStore
  import opened Rules

  /** The entry of one space, filled in while the overlapping bookings are read. */
  class SpaceAvailability {
    const id: SpaceId
    var available: bool
    var bookings: seq<BookingId>

    constructor (id: SpaceId)
      ensures this.id == id && available && bookings == []
    {
      this.id := id;
      available := true;
      bookings := [];
    }
  }

  /** The two-sided test of the one-pass query. */
  predicate Overlaps(enter: int, leave: int, b: Booking) {
    b.enter <= leave && b.leave >= enter
  }

  function OverlappingIn(rows: Table, spaces: set<SpaceId>, enter: int, leave: int): set<BookingId> {
    set id | id in rows && rows[id].space in spaces && Overlaps(enter, leave, rows[id])
  }

  predicate NoSpaceTwice(listed: seq<SpaceId>) {
    forall i, j | 0 <= i < j < |listed| :: listed[i] != listed[j]
  }

  function SpaceSet(listed: seq<SpaceId>): set<SpaceId> {
    set s | s in listed
  }

  /** Those of `found` that are in `space`, in the same order. */
  function InSpace(rows: Table, found: seq<BookingId>, space: SpaceId): seq<BookingId> {
    if found == [] then []
    else
      var last := found[|found| - 1];
      InSpace(rows, found[..|found| - 1], space) + if last in rows && rows[last].space == space then [last] else []
  }

  lemma {:induction false} InSpaceMembers(rows: Table, found: seq<BookingId>, space: SpaceId)
    requires forall i | 0 <= i < |found| :: found[i] in rows
    ensures forall id :: id in InSpace(rows, found, space) <==> id in found && rows[id].space == space
    decreases |found|
  {
    if found != [] {
      var front, last := found[..|found| - 1], found[|found| - 1];
      InSpaceMembers(rows, front, space);
      assert found == front + [last];
    }
  }

  /** Where an entry of the selection came from. */
  lemma {:induction false} InSpaceOrigin(rows: Table, found: seq<BookingId>, space: SpaceId, i: nat, j: nat)
    returns (k: nat, l: nat)
    requires i < j < |InSpace(rows, found, space)|
    ensures k < l < |found| && found[k] == InSpace(rows, found, space)[i] && found[l] == InSpace(rows, found, space)[j]
    decreases |found|
  {
    var front, last := found[..|found| - 1], found[|found| - 1];
    if j < |InSpace(rows, front, space)| {
      k, l := InSpaceOrigin(rows, front, space, i, j);
    } else {
      l := |found| - 1;
      k := InSpacePlace(rows, front, space, i);
    }
  }

  lemma {:induction false} InSpacePlace(rows: Table, found: seq<BookingId>, space: SpaceId, i: nat) returns (k: nat)
    requires i < |InSpace(rows, found, space)|
    ensures k < |found| && found[k] == InSpace(rows, found, space)[i]
    decreases |found|
  {
    var front := found[..|found| - 1];
    if i < |InSpace(rows, front, space)| {
      k := InSpacePlace(rows, front, space, i);
    } else {
      k := |found| - 1;
    }
  }

  /** The selection inherits the order, and repeats nothing. */
  lemma InSpaceOrdered(rows: Table, found: seq<BookingId>, space: SpaceId)
    requires forall i | 0 <= i < |found| :: found[i] in rows
    requires NoRepeats(found) && OrderedByEnter(rows, found)
    ensures forall i | 0 <= i < |InSpace(rows, found, space)| :: InSpace(rows, found, space)[i] in rows
    ensures NoRepeats(InSpace(rows, found, space)) && OrderedByEnter(rows, InSpace(rows, found, space))
  {
    var here := InSpace(rows, found, space);
    forall i | 0 <= i < |here|
      ensures here[i] in rows
    {
      var k := InSpacePlace(rows, found, space, i);
    }
    forall i, j | 0 <= i < j < |here|
      ensures here[i] != here[j] && rows[here[i]].enter <= rows[here[j]].enter
    {
      var k, l := InSpaceOrigin(rows, found, space, i, j);
    }
  }

  /** What is reported about `space`: exactly its own overlapping bookings, by the time they start. */
  predicate Reports(rows: Table, entry: seq<BookingId>, space: SpaceId, enter: int, leave: int) {
    && Members(entry) == OverlappingIn(rows, {space}, enter, leave)
    && NoRepeats(entry)
    && (forall i | 0 <= i < |entry| :: entry[i] in rows)
    && OrderedByEnter(rows, entry)
  }

  /** One entry per space, each still free, and where to find it. */
  method NewEntries(listed: seq<SpaceId>)
    returns (result: seq<SpaceAvailability>, bySpaceID: map<SpaceId, SpaceAvailability>)
    requires NoSpaceTwice(listed)
    ensures |result| == |listed| && fresh(result)
    ensures forall k | 0 <= k < |result| :: result[k].id == listed[k] && result[k].available && result[k].bookings == []
    ensures forall k, l | 0 <= k < l < |result| :: result[k] != result[l]
    ensures bySpaceID.Keys == SpaceSet(listed)
    ensures forall k | 0 <= k < |listed| :: bySpaceID[listed[k]] == result[k]
  {
    result := [];
    bySpaceID := map[];
    for i := 0 to |listed|
      invariant |result| == i && fresh(result)
      invariant forall k | 0 <= k < i :: result[k].id == listed[k] && result[k].available && result[k].bookings == []
      invariant forall k, l | 0 <= k < l < i :: result[k] != result[l]
      invariant bySpaceID.Keys == SpaceSet(listed[..i])
      invariant forall k | 0 <= k < i :: listed[k] in bySpaceID && bySpaceID[listed[k]] == result[k]
    {
      assert listed[..i + 1] == listed[..i] + [listed[i]];
      var e := new SpaceAvailability(listed[i]);
      bySpaceID := bySpaceID[listed[i] := e];
      result := result + [e];
    }
    assert listed[..|listed|] == listed;
  }

  predicate Proper(rows: Table) {
    forall id | id in rows :: rows[id].enter <= rows[id].leave
  }

  /** For proper rows and windows the two tests agree, so a space is free exactly if nothing conflicts. */
  lemma FreeIffNoConflict(rows: Table, space: SpaceId, enter: int, leave: int)
    requires enter <= leave && Proper(rows)
    ensures OverlappingIn(rows, {space}, enter, leave) == GetConflicts(rows, space, enter, leave, None)
  {
  }

  /**
    What is shown agrees with what is enforced: whoever asks for the space at that time and passes
    the rules is admitted exactly if the space was shown as free.
   */
  ghost predicate AgreesWithAdmission(rows: Table, space: SpaceId, enter: int, leave: int, available: bool) {
    forall env: Env, location: LocationId, actor: User, subject: string |
      && location in env.locations
      && Check(env, rows, location, actor, Draft(space, subject, enter, leave), None, 0) == Done ::
      available <==> Admission(env, rows, location, actor, Draft(space, subject, enter, leave), None, 0) == Done
  }

  lemma ShownFreeIffAdmitted(rows: Table, space: SpaceId, enter: int, leave: int)
    requires enter <= leave && Proper(rows)
    ensures AgreesWithAdmission(rows, space, enter, leave, OverlappingIn(rows, {space}, enter, leave) == {})
  {
    FreeIffNoConflict(rows, space, enter, leave);
  }

  /** `listed` is the result of the query for the location's spaces, sorted by name. */
  method GetAllInTime(store: Store, listed: seq<SpaceId>, enter: int, leave: int)
    returns (result: seq<SpaceAvailability>)
    requires NoSpaceTwice(listed)
    ensures |result| == |listed| && fresh(result)
    ensures forall i | 0 <= i < |result| ::
      && result[i].id == listed[i]
      && Reports(store.bookings, result[i].bookings, listed[i], enter, leave)
      && result[i].available == (OverlappingIn(store.bookings, {listed[i]}, enter, leave) == {})
    ensures Proper(store.bookings) && enter <= leave ==>
              forall i | 0 <= i < |result| ::
                AgreesWithAdmission(store.bookings, listed[i], enter, leave, result[i].available)
  {
    var bySpaceID;
    result, bySpaceID := NewEntries(listed);
    var found := store.SelectOrdered(OverlappingIn(store.bookings, SpaceSet(listed), enter, leave));
    for k := 0 to |found|
      invariant forall i | 0 <= i < |listed| ::
        && result[i].bookings == InSpace(store.bookings, found[..k], listed[i])
        && result[i].available == (result[i].bookings == [])
    {
      assert found[..k + 1][..k] == found[..k];
      assert found[k] in Members(found);
      var space := store.bookings[found[k]].space;
      if space in bySpaceID {
        var e := bySpaceID[space];
        e.available := false;
        e.bookings := e.bookings + [found[k]];
      }
    }
    assert found[..|found|] == found;
    forall i | 0 <= i < |result|
      ensures Reports(store.bookings, result[i].bookings, listed[i], enter, leave)
      ensures result[i].bookings == [] <==> OverlappingIn(store.bookings, {listed[i]}, enter, leave) == {}
    {
      ReportIsComplete(store.bookings, found, listed, i, enter, leave);
    }
    if Proper(store.bookings) && enter <= leave {
      forall i | 0 <= i < |result|
        ensures AgreesWithAdmission(store.bookings, listed[i], enter, leave, result[i].available)
      {
        ShownFreeIffAdmitted(store.bookings, listed[i], enter, leave);
      }
    }
  }

  lemma ReportIsComplete(
      rows: Table, found: seq<BookingId>, listed: seq<SpaceId>, i: nat, enter: int, leave: int)
    requires i < |listed| && Members(found) == OverlappingIn(rows, SpaceSet(listed), enter, leave)
    requires forall k | 0 <= k < |found| :: found[k] in rows
    requires NoRepeats(found) && OrderedByEnter(rows, found)
    ensures
      var here := InSpace(rows, found, listed[i]);
      && Reports(rows, here, listed[i], enter, leave)
      && (here == [] <==> OverlappingIn(rows, {listed[i]}, enter, leave) == {})
  {
    var here := InSpace(rows, found, listed[i]);
    InSpaceMembers(rows, found, listed[i]);
    InSpaceOrdered(rows, found, listed[i]);
    OverlappingHere(rows, found, here, listed, i, enter, leave);
    if here != [] {
      assert here[0] in Members(here);
    }
  }

  lemma OverlappingHere(
      rows: Table, found: seq<BookingId>, here: seq<BookingId>, listed: seq<SpaceId>, i: nat, enter: int, leave: int)
    requires i < |listed| && Members(found) == OverlappingIn(rows, SpaceSet(listed), enter, leave)
    requires forall id | id in found :: id in rows
    requires forall id :: id in here <==> id in found && rows[id].space == listed[i]
    ensures Members(here) == OverlappingIn(rows, {listed[i]}, enter, leave)
  {
    assert forall id :: id in found <==> id in Members(found);
  }

  function ConflictFree(rows: Table, listed: seq<SpaceId>, enter: int, leave: int): set<SpaceId> {
    set s | s in listed && GetConflicts(rows, s, enter, leave, None) == {}
  }

  /** The counting loop over the entries of a location. */
  method CountAvailable(spaces: seq<SpaceAvailability>, ghost listed: seq<SpaceId>, ghost free: set<SpaceId>)
    returns (count: nat)
    requires NoSpaceTwice(listed) && |spaces| == |listed| && free <= SpaceSet(listed)
    requires forall i | 0 <= i < |spaces| :: spaces[i].available <==> listed[i] in free
    ensures count == |free|
  {
    count := 0;
    for i := 0 to |spaces|
      invariant count == |free * SpaceSet(listed[..i])|
    {
      SelectionNext(free, listed, i);
      if spaces[i].available {
        count := count + 1;
      }
    }
    assert listed[..|listed|] == listed;
    assert free * SpaceSet(listed) == free;
  }

  function FreeSpaces(rows: Table, listed: seq<SpaceId>, enter: int, leave: int): set<SpaceId> {
    set s | s in listed && OverlappingIn(rows, {s}, enter, leave) == {}
  }

  /** The free count of a location; for proper rows and windows, the number of its spaces without a conflict. */
  method GetFreeCount(store: Store, listed: seq<SpaceId>, enter: int, leave: int) returns (count: nat)
    requires NoSpaceTwice(listed)
    ensures count == |FreeSpaces(store.bookings, listed, enter, leave)|
    ensures Proper(store.bookings) && enter <= leave ==> count == |ConflictFree(store.bookings, listed, enter, leave)|
  {
    var spaces := GetAllInTime(store, listed, enter, leave);
    count := CountAvailable(spaces, listed, FreeSpaces(store.bookings, listed, enter, leave));
    if Proper(store.bookings) && enter <= leave {
      forall s | s in listed
        ensures s in FreeSpaces(store.bookings, listed, enter, leave) <==>
                s in ConflictFree(store.bookings, listed, enter, leave)
      {
        FreeIffNoConflict(store.bookings, s, enter, leave);
      }
      assert FreeSpaces(store.bookings, listed, enter, leave) == ConflictFree(store.bookings, listed, enter, leave);
    }
  }

  /** The free counts of all locations of an organisation; `listed` holds the spaces of each. */
  method GetFreeCountMap(
      store: Store, locations: seq<LocationId>, listed: map<LocationId, seq<SpaceId>>, enter: int, leave: int)
    returns (res: map<LocationId, nat>)
    requires forall l | l in locations :: l in listed && NoSpaceTwice(listed[l])
    ensures res.Keys == set l | l in locations
    ensures forall l | l in locations :: res[l] == |FreeSpaces(store.bookings, listed[l], enter, leave)|
    ensures Proper(store.bookings) && enter <= leave ==>
              forall l | l in locations :: res[l] == |ConflictFree(store.bookings, listed[l], enter, leave)|
  {
    res := map[];
    for i := 0 to |locations|
      invariant res.Keys == set l | l in locations[..i]
      invariant forall l | l in res :: l in listed && res[l] == |FreeSpaces(store.bookings, listed[l], enter, leave)|
      invariant Proper(store.bookings) && enter <= leave ==>
                  forall l | l in res :: res[l] == |ConflictFree(store.bookings, listed[l], enter, leave)|
    {
      assert locations[..i + 1] == locations[..i] + [locations[i]];
      var count := GetFreeCount(store, listed[locations[i]], enter, leave);
      res := res[locations[i] := count];
    }
    assert locations[..|locations|] == locations;
  }

  lemma SelectionNext(target: set<SpaceId>, listed: seq<SpaceId>, i: nat)
    requires NoSpaceTwice(listed) && i < |listed|
    ensures listed[i] !in target * SpaceSet(listed[..i])
    ensures target * SpaceSet(listed[..i + 1]) ==
            target * SpaceSet(listed[..i]) + if listed[i] in target then {listed[i]} else {}
  {
    assert listed[..i + 1] == listed[..i] + [listed[i]];
  }
}
