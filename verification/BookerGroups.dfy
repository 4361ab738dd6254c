/** Who may book a space: lists of groups, how they are changed, and how they are consulted. */
module BookerGroups {
  import opened Domain
  import opened Rules
  import opened FiniteSets

  /** The nested loops of the admission rules. */
  method IsAllowedBooker(bookers: seq<GroupId>, groups: seq<GroupId>) returns (ok: bool)
    ensures ok == MayBook(bookers, groups)
  {
    if |bookers| == 0 {
      return true;
    }
    ok := false;
    for i := 0 to |bookers|
      invariant ok <==> exists g :: g in bookers[..i] && g in groups
    {
      var j := 0;
      while j < |groups|
        invariant 0 <= j <= |groups|
        invariant bookers[i] !in groups[..j]
        invariant ok <==> exists g :: g in bookers[..i] && g in groups
      {
        if groups[j] == bookers[i] {
          ok := true;
          assert bookers[i] in groups;
          break;
        }
        assert groups[..j + 1] == groups[..j] + [groups[j]];
        j := j + 1;
      }
      assert groups[..|groups|] == groups;
      assert bookers[..i + 1] == bookers[..i] + [bookers[i]];
      assert j < |groups| <==> bookers[i] in groups;
    }
    assert bookers[..|bookers|] == bookers;
  }

  datatype Assignment = Assignment(space: SpaceId, group: GroupId)

  function GroupsOf(space: SpaceId, rows: seq<Assignment>): seq<GroupId> {
    if rows == [] then []
    else (if rows[0].space == space then [rows[0].group] else []) + GroupsOf(space, rows[1..])
  }

  lemma {:induction false} GroupsOfMeaning(space: SpaceId, rows: seq<Assignment>)
    ensures forall g :: g in GroupsOf(space, rows) <==> Assignment(space, g) in rows
  {
    if rows != [] {
      GroupsOfMeaning(space, rows[1..]);
      assert rows == [rows[0]] + rows[1..];
    }
  }

  /** The space router's own check, over the assignments of several spaces, agrees with the rules. */
  method IsUserAllowedToBookSpace(space: SpaceId, rows: seq<Assignment>, groups: seq<GroupId>) returns (ok: bool)
    ensures ok == MayBook(GroupsOf(space, rows), groups)
  {
    var restricted := false;
    for i := 0 to |rows|
      invariant restricted == (GroupsOf(space, rows[..i]) != [])
      invariant forall g | g in groups :: g !in GroupsOf(space, rows[..i])
    {
      GroupsOfNext(space, rows, i);
      if rows[i].space == space {
        restricted := true;
        for j := 0 to |groups|
          invariant rows[i].group !in groups[..j]
        {
          if rows[i].group == groups[j] {
            GroupsOfMember(space, rows, i);
            assert groups[j] in groups;
            return true;
          }
        }
        assert groups[..|groups|] == groups;
      }
    }
    assert rows[..|rows|] == rows;
    ok := !restricted;
  }

  lemma {:induction false} GroupsOfNext(space: SpaceId, rows: seq<Assignment>, i: nat)
    requires i < |rows|
    ensures GroupsOf(space, rows[..i + 1]) ==
            GroupsOf(space, rows[..i]) + if rows[i].space == space then [rows[i].group] else []
    decreases i
  {
    if i > 0 {
      GroupsOfNext(space, rows[1..], i - 1);
      assert rows[..i + 1][1..] == rows[1..][..i];
      assert rows[..i][1..] == rows[1..][..i - 1];
    }
  }

  lemma {:induction false} GroupsOfMember(space: SpaceId, rows: seq<Assignment>, i: nat)
    requires i < |rows| && rows[i].space == space
    ensures rows[i].group in GroupsOf(space, rows)
    decreases i
  {
    if i > 0 {
      GroupsOfMember(space, rows[1..], i - 1);
    }
  }

  // ----- changing the list -------------------------------------------------------------------------

  predicate Distinct(s: seq<GroupId>) {
    forall i, j | 0 <= i < j < |s| :: s[i] != s[j]
  }

  function SetOf(ids: seq<GroupId>): set<GroupId> {
    set g | g in ids
  }

  /** Those of `ids` that are not in `existing`, in their order. */
  function Missing(ids: seq<GroupId>, existing: set<GroupId>): seq<GroupId> {
    if ids == [] then []
    else (if ids[0] in existing then [] else [ids[0]]) + Missing(ids[1..], existing)
  }

  lemma {:induction false} MissingNext(ids: seq<GroupId>, existing: set<GroupId>, i: nat)
    requires i < |ids|
    ensures Missing(ids[..i + 1], existing) ==
            Missing(ids[..i], existing) + if ids[i] in existing then [] else [ids[i]]
    decreases i
  {
    if i > 0 {
      MissingNext(ids[1..], existing, i - 1);
      assert ids[..i + 1][1..] == ids[1..][..i];
      assert ids[..i][1..] == ids[1..][..i - 1];
    }
  }

  lemma {:induction false} MissingMembers(ids: seq<GroupId>, existing: set<GroupId>)
    ensures forall g :: g in Missing(ids, existing) <==> g in ids && g !in existing
  {
    if ids != [] {
      MissingMembers(ids[1..], existing);
      assert ids == [ids[0]] + ids[1..];
    }
  }

  /** One table of groups per space; approvers and allowed bookers are both kept this way. */
  class GroupTable {
    var rows: set<Assignment>

    constructor ()
      ensures rows == {}
    {
      rows := {};
    }

    function GroupsFor(space: SpaceId): set<GroupId>
      reads this
    {
      set a | a in rows && a.space == space :: a.group
    }

    method GetGroupIDs(space: SpaceId) returns (ids: seq<GroupId>)
      ensures Distinct(ids) && SetOf(ids) == GroupsFor(space)
    {
      ids := [];
      var rest := GroupsFor(space);
      while rest != {}
        invariant Distinct(ids) && SetOf(ids) + rest == GroupsFor(space) && SetOf(ids) !! rest
        decreases rest
      {
        var g :| g in rest;
        assert g !in SetOf(ids);
        ids := ids + [g];
        rest := rest - {g};
      }
    }

    /** The insert of several rows fails as a whole if the primary key is violated. */
    method Add(space: SpaceId, ids: seq<GroupId>) returns (ok: bool)
      modifies this
      ensures ok <==> Distinct(ids) && forall g | g in ids :: g !in old(GroupsFor(space))
      ensures rows == if ok then old(rows) + set g | g in ids :: Assignment(space, g) else old(rows)
    {
      ok := Distinct(ids) && forall g | g in ids :: g !in GroupsFor(space);
      if ok {
        rows := rows + set g | g in ids :: Assignment(space, g);
      }
    }

    method Remove(space: SpaceId, ids: seq<GroupId>)
      modifies this
      ensures rows == old(rows) - set g | g in ids :: Assignment(space, g)
    {
      rows := rows - set g | g in ids :: Assignment(space, g);
    }

    /**
      Makes the groups of `space` those of the request. It fails, changing nothing, exactly if the
      request repeats a group that the space does not have yet.
     */
    method Apply(space: SpaceId, requested: seq<GroupId>) returns (ok: bool)
      modifies this
      ensures ok <==> Distinct(Missing(requested, old(GroupsFor(space))))
      ensures ok ==> GroupsFor(space) == SetOf(requested)
      ensures ok ==> forall a: Assignment | a.space != space :: a in rows <==> a in old(rows)
      ensures !ok ==> rows == old(rows)
    {
      var existing := GetGroupIDs(space);
      ghost var had := GroupsFor(space);
      var removes: seq<GroupId> := [];
      for i := 0 to |existing|
        invariant rows == old(rows)
        invariant removes == Missing(existing[..i], SetOf(requested))
      {
        MissingNext(existing, SetOf(requested), i);
        if existing[i] !in requested {
          removes := removes + [existing[i]];
        }
      }
      var adds: seq<GroupId> := [];
      for i := 0 to |requested|
        invariant rows == old(rows)
        invariant adds == Missing(requested[..i], had)
      {
        MissingNext(requested, had, i);
        assert requested[i] in existing <==> requested[i] in had;
        if requested[i] !in existing {
          adds := adds + [requested[i]];
        }
      }
      assert existing[..|existing|] == existing && requested[..|requested|] == requested;
      MissingMembers(existing, SetOf(requested));
      MissingMembers(requested, had);
      ok := Add(space, adds);
      if !ok {
        return;
      }
      Remove(space, removes);
      forall g
        ensures g in GroupsFor(space) <==> g in requested
      {
        assert Assignment(space, g) in old(rows) <==> g in had;
        assert g in had <==> g in existing;
        assert Assignment(space, g) in rows <==> g in GroupsFor(space);
      }
    }
  }
}
