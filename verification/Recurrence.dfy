/** The expansion of a recurring booking into the times at which it takes place. */
module Recurrence {
  import opened Wrappers
  import opened Calendar
  import opened Domain
  import opened FiniteSets
  import Weekdays

  const MAX_RECURRING_BOOKINGS := 365

  datatype CadenceDetails =
    | Daily(cycle: int)
    | Weekly(cycle: int, weekdays: seq<int>)

  /** What the request validator lets through; it does not ask for sorted weekdays. */
  type Cadence = c: CadenceDetails | c.cycle >= 1 && (c.Weekly? ==> Weekdays.AllWeekdays(c.weekdays)) witness Daily(1)

  datatype Series = Series(
    user: UserId, space: SpaceId, enter: int, leave: int, subject: string, cadence: Cadence, end: int)

  predicate OnListedDay(weekdays: seq<int>, t: int) {
    Weekday(DayOf(t)) in weekdays
  }

  predicate OnSchedule(c: Cadence, t: int) {
    c.Weekly? ==> OnListedDay(c.weekdays, t)
  }

  /** `slices.Index`. */
  function Index(s: seq<int>, x: int): (i: int)
    requires x in s
    ensures 0 <= i < |s| && s[i] == x && x !in s[..i]
  {
    if s[0] == x then 0 else
      var i := Index(s[1..], x);
      assert s[..i + 1] == [s[0]] + s[1..][..i];
      i + 1
  }

  /** The days that `getNextBookingTime` moves on from a weekday of the list. */
  function Stride(c: Cadence, weekday: int): int
    requires c.Weekly? ==> weekday in c.weekdays
  {
    match c
    case Daily(cycle) => cycle
    case Weekly(cycle, weekdays) =>
      var idx := Index(weekdays, weekday);
      if idx == |weekdays| - 1 then 7 - weekdays[idx] + weekdays[0] + 7 * (cycle - 1)
      else weekdays[idx + 1] - weekdays[idx]
  }

  function NextTime(c: Cadence, t: int): (next: int)
    requires OnSchedule(c, t)
    ensures OnSchedule(c, next)
  {
    var n := Stride(c, Weekday(DayOf(t)));
    StrideStaysOnList(c, t);
    t + DAY * n
  }

  lemma DayShift(t: int, n: int)
    ensures DayOf(t + DAY * n) == DayOf(t) + n
  {
  }

  lemma StrideStaysOnList(c: Cadence, t: int)
    requires OnSchedule(c, t)
    ensures OnSchedule(c, t + DAY * Stride(c, Weekday(DayOf(t))))
  {
    if c.Weekly? {
      var d := DayOf(t);
      var n := Stride(c, Weekday(d));
      DayShift(t, n);
      var idx := Index(c.weekdays, Weekday(d));
      var target := if idx == |c.weekdays| - 1 then c.weekdays[0] else c.weekdays[idx + 1];
      assert (n - (target - Weekday(d))) % 7 == 0;
      assert Weekday(d + n) == target;
    }
  }

  /** The first day from `t` on that is on the list, looking no further than a week. */
  function FirstListed(weekdays: seq<int>, t: int, tries: nat): int
    decreases tries
  {
    if OnListedDay(weekdays, t) || tries == 0 then t else FirstListed(weekdays, t + DAY, tries - 1)
  }

  /** Where the expansion starts. */
  function First(e: Series): int {
    if e.cadence.Weekly? then FirstListed(e.cadence.weekdays, e.enter, 7) else e.enter
  }

  /** The loop from `t` on, with room for that many more occurrences. */
  function Walk(c: Cadence, end: int, t: int, room: nat): Option<seq<int>>
    requires OnSchedule(c, t)
    decreases room, t
  {
    if t >= end then Some([])
    else if room == 0 then None
    else
      match Walk(c, end, NextTime(c, t), room - 1)
      case None => None
      case Some(rest) => Some([t] + rest)
  }

  /** What `CreateBookings` yields: the starts of the occurrences, or an error if there are too many. */
  function Occurrences(e: Series): Option<seq<int>> {
    if e.cadence.Weekly? && e.cadence.weekdays == [] then Some([])
    else
      FirstIsListed(e);
      Walk(e.cadence, e.end, First(e), MAX_RECURRING_BOOKINGS)
  }

  lemma OneDayCloser(day: int, w: int)
    requires 0 <= w <= 6 && w != Weekday(day)
    ensures (w - Weekday(day + 1)) % 7 == (w - Weekday(day)) % 7 - 1
  {
  }

  lemma {:induction false} FirstListedIsLeast(weekdays: seq<int>, t: int, w: int, tries: nat) returns (k: nat)
    requires w in weekdays && 0 <= w <= 6
    requires tries >= (w - Weekday(DayOf(t))) % 7
    ensures FirstListed(weekdays, t, tries) == t + DAY * k && OnListedDay(weekdays, t + DAY * k)
    ensures forall m | 0 <= m < k :: !OnListedDay(weekdays, t + DAY * m)
    decreases tries
  {
    k := 0;
    if !OnListedDay(weekdays, t) {
      DayShift(t, 1);
      OneDayCloser(DayOf(t), w);
      var rest := FirstListedIsLeast(weekdays, t + DAY, w, tries - 1);
      k := rest + 1;
      forall m | 0 <= m < k
        ensures !OnListedDay(weekdays, t + DAY * m)
      {
        assert m > 0 ==> t + DAY * m == t + DAY + DAY * (m - 1);
      }
    }
  }

  lemma FirstIsListed(e: Series)
    requires e.cadence.Weekly? ==> e.cadence.weekdays != []
    ensures OnSchedule(e.cadence, First(e))
  {
    if e.cadence.Weekly? {
      var k := FirstListedIsLeast(e.cadence.weekdays, e.enter, e.cadence.weekdays[0], 7);
    }
  }

  /** The loop that moves the start of a weekly series to a listed weekday. */
  method FindStart(weekdays: seq<int>, enter: int) returns (cur: int)
    requires weekdays != [] && Weekdays.AllWeekdays(weekdays)
    ensures cur == FirstListed(weekdays, enter, 7)
  {
    ghost var k := FirstListedIsLeast(weekdays, enter, weekdays[0], 7);
    cur := enter;
    ghost var tries: nat := 7;
    while !OnListedDay(weekdays, cur)
      invariant FirstListed(weekdays, cur, tries) == FirstListed(weekdays, enter, 7)
      decreases tries
    {
      cur := cur + DAY;
      tries := tries - 1;
    }
  }

  method CreateBookings(e: Series) returns (res: Option<seq<int>>)
    ensures res == Occurrences(e)
  {
    var times: seq<int> := [];
    var cur := e.enter;
    if e.cadence.Weekly? {
      if |e.cadence.weekdays| == 0 {
        return Some(times);
      }
      cur := FindStart(e.cadence.weekdays, e.enter);
    }
    FirstIsListed(e);
    PrependNothing(Occurrences(e));
    while cur < e.end
      invariant |times| <= MAX_RECURRING_BOOKINGS
      invariant OnSchedule(e.cadence, cur)
      invariant Occurrences(e) == Prepend(times, Walk(e.cadence, e.end, cur, MAX_RECURRING_BOOKINGS - |times|))
      decreases MAX_RECURRING_BOOKINGS - |times|
    {
      if |times| >= MAX_RECURRING_BOOKINGS {
        return None;
      }
      WalkStep(e.cadence, e.end, cur, MAX_RECURRING_BOOKINGS - |times|, times);
      times := times + [cur];
      cur := NextTime(e.cadence, cur);
    }
    assert times + [] == times;
    res := Some(times);
  }

  function Prepend(s: seq<int>, rest: Option<seq<int>>): Option<seq<int>> {
    match rest
    case None => None
    case Some(r) => Some(s + r)
  }

  lemma PrependNothing(rest: Option<seq<int>>)
    ensures Prepend([], rest) == rest
  {
    if rest.Some? {
      assert [] + rest.value == rest.value;
    }
  }

  lemma PrependTwice(s: seq<int>, t: int, rest: Option<seq<int>>)
    ensures Prepend(s + [t], rest) == Prepend(s, Prepend([t], rest))
  {
    if rest.Some? {
      assert s + [t] + rest.value == s + ([t] + rest.value);
    }
  }

  lemma WalkStep(c: Cadence, end: int, t: int, room: nat, times: seq<int>)
    requires OnSchedule(c, t) && t < end && room > 0
    ensures Prepend(times, Walk(c, end, t, room)) == Prepend(times + [t], Walk(c, end, NextTime(c, t), room - 1))
  {
    PrependTwice(times, t, Walk(c, end, NextTime(c, t), room - 1));
  }

  // ----- a series comes to no time twice -----------------------------------------------------------------

  lemma {:induction false} WalkWhateverRoom(c: Cadence, end: int, t: int, room: nat, other: nat)
    requires OnSchedule(c, t) && Walk(c, end, t, room).Some? && Walk(c, end, t, other).Some?
    ensures Walk(c, end, t, room) == Walk(c, end, t, other)
    decreases room
  {
    if t < end {
      WalkWhateverRoom(c, end, NextTime(c, t), room - 1, other - 1);
    }
  }

  lemma FromTheFirst(ts: seq<int>)
    ensures ts[0..] == ts
  {
  }

  lemma FromLaterOn(t: int, rest: seq<int>, k: nat)
    requires 0 < k <= |rest|
    ensures ([t] + rest)[k] == rest[k - 1] && ([t] + rest)[k..] == rest[k - 1..]
  {
  }

  /** The rest of a walk is a walk. */
  lemma {:induction false} WalkFrom(c: Cadence, end: int, t: int, room: nat, k: nat)
    requires OnSchedule(c, t) && Walk(c, end, t, room).Some? && k < |Walk(c, end, t, room).value|
    ensures k <= room
    ensures
      var ts := Walk(c, end, t, room).value;
      && OnSchedule(c, ts[k])
      && Walk(c, end, ts[k], room - k) == Some(ts[k..])
    decreases k
  {
    if k == 0 {
      FromTheFirst(Walk(c, end, t, room).value);
    } else {
      WalkFrom(c, end, NextTime(c, t), room - 1, k - 1);
      FromLaterOn(t, Walk(c, end, NextTime(c, t), room - 1).value, k);
    }
  }

  lemma WalkDistinct(c: Cadence, end: int, t: int, room: nat, i: nat, j: nat)
    requires OnSchedule(c, t) && Walk(c, end, t, room).Some? && i < j < |Walk(c, end, t, room).value|
    ensures Walk(c, end, t, room).value[i] != Walk(c, end, t, room).value[j]
  {
    var ts := Walk(c, end, t, room).value;
    WalkFrom(c, end, t, room, i);
    WalkFrom(c, end, t, room, j);
    if ts[i] == ts[j] {
      WalkWhateverRoom(c, end, ts[i], room - i, room - j);
    }
  }

  /** A list on which the steps go round in a circle would be walked for ever, and so is refused. */
  lemma OccurrencesDistinct(e: Series)
    requires Occurrences(e).Some?
    ensures Weekdays.Distinct(Occurrences(e).value)
  {
    var ts := Occurrences(e).value;
    forall i, j | 0 <= i < j < |ts|
      ensures ts[i] != ts[j]
    {
      FirstIsListed(e);
      WalkDistinct(e.cadence, e.end, First(e), MAX_RECURRING_BOOKINGS, i, j);
    }
  }

  // ----- what the expansion means -------------------------------------------------------------

  /**
    The times at which a series is due, counted from its first one: every `cycle` days, or on the
    listed weekdays of every `cycle`-th week, weeks beginning on Sunday.
   */
  predicate Due(c: Cadence, first: int, t: int) {
    && t >= first
    && (t - first) % DAY == 0
    && match c
       case Daily(cycle) => (DayOf(t) - DayOf(first)) % cycle == 0
       case Weekly(cycle, weekdays) =>
         OnListedDay(weekdays, t) && (Week(DayOf(t)) - Week(DayOf(first))) % cycle == 0
  }

  function DueTimes(c: Cadence, first: int, from: int, end: int): set<int> {
    set t | from <= t < end && Due(c, first, t)
  }

  /** The list of weekdays, if there is one, has at least one entry and is in strict order. */
  predicate InOrder(c: Cadence) {
    c.Weekly? ==> c.weekdays != [] && Weekdays.Ascending(c.weekdays)
  }

  lemma NextMultiple(a: int, b: int, m: int)
    requires m >= 1 && a % m == 0 && b % m == 0 && a < b
    ensures b >= a + m
  {
    var qa, qb := a / m, b / m;
    assert a == m * qa && b == m * qb;
    if qb <= qa {
      MulOrder(m, qb, qa);
    }
    MulOrder(m, qa + 1, qb);
  }

  lemma MulOrder(m: int, x: int, y: int)
    requires m >= 1
    ensures x <= y ==> m * x <= m * y
  {
  }

  lemma MultiplePlus(a: int, m: int)
    requires m >= 1 && a % m == 0
    ensures (a + m) % m == 0
  {
    var q := a / m;
    assert a + m == m * (q + 1);
    MultipleMod(m, q + 1);
  }

  lemma MultipleMod(m: int, q: int)
    requires m >= 1
    ensures (m * q) % m == 0
  {
    var r := (m * q) % m;
    var k := (m * q) / m;
    assert m * q == m * k + r;
    assert r == m * (q - k);
    if r != 0 {
      if q - k <= 0 {
        MulOrder(m, q - k, 0);
      } else {
        MulOrder(m, 1, q - k);
      }
    }
  }

  /** Any later listed day, in the same week or in one that counts, is at least a stride away. */
  lemma ListedDayIsAStrideAway(c: Cadence, day: int, later: int)
    requires c.Weekly? && InOrder(c)
    requires day < later && Weekday(day) in c.weekdays && Weekday(later) in c.weekdays
    requires Week(later) > Week(day) ==> Week(later) >= Week(day) + c.cycle
    ensures later - day >= Stride(c, Weekday(day))
  {
    var w, x := Weekday(day), Weekday(later);
    var idx, j := Index(c.weekdays, w), Index(c.weekdays, x);
    assert day + 4 == 7 * Week(day) + w && later + 4 == 7 * Week(later) + x;
    assert c.weekdays[0] <= x <= c.weekdays[|c.weekdays| - 1];
    if j <= idx {
      assert x <= w;
    } else {
      assert c.weekdays[idx + 1] <= x;
    }
  }

  lemma StrideForward(c: Cadence, day: int)
    requires InOrder(c) && (c.Weekly? ==> Weekday(day) in c.weekdays)
    ensures Stride(c, Weekday(day)) >= 1
    ensures c.Weekly? ==> Week(day + Stride(c, Weekday(day))) in {Week(day), Week(day) + c.cycle}
  {
  }

  lemma SameRemainder(t: int, n: int)
    ensures (t + DAY * n) % DAY == t % DAY
  {
  }

  lemma NextIsDue(c: Cadence, first: int, t: int)
    requires InOrder(c) && OnSchedule(c, t) && Due(c, first, t)
    ensures t < NextTime(c, t) && Due(c, first, NextTime(c, t))
  {
    var day := DayOf(t);
    var n := Stride(c, Weekday(day));
    StrideForward(c, day);
    DayShift(t, n);
    assert (NextTime(c, t) - first) % DAY == 0 by {
      SameRemainder(t - first, n);
    }
    match c {
      case Daily(cycle) => MultiplePlus(day - DayOf(first), cycle);
      case Weekly(cycle, _) => WeekStillCounts(c, DayOf(first), day);
    }
  }

  lemma WeekStillCounts(c: Cadence, firstDay: int, day: int)
    requires c.Weekly? && InOrder(c) && Weekday(day) in c.weekdays
    requires (Week(day) - Week(firstDay)) % c.cycle == 0
    ensures (Week(day + Stride(c, Weekday(day))) - Week(firstDay)) % c.cycle == 0
  {
    StrideForward(c, day);
    MultiplePlus(Week(day) - Week(firstDay), c.cycle);
  }

  lemma SameTimeOfDay(first: int, t: int, u: int)
    requires (t - first) % DAY == 0 && (u - first) % DAY == 0
    ensures u == t + DAY * (DayOf(u) - DayOf(t))
  {
    var m, n := (t - first) / DAY, (u - first) / DAY;
    DayShift(first, m);
    DayShift(first, n);
  }

  /** Nothing is due between a due time and the next one. */
  lemma NextIsLeast(c: Cadence, first: int, t: int, u: int)
    requires InOrder(c) && OnSchedule(c, t) && Due(c, first, t)
    requires t < u && Due(c, first, u)
    ensures NextTime(c, t) <= u
  {
    var day, later := DayOf(t), DayOf(u);
    SameTimeOfDay(first, t, u);
    assert later - day >= Stride(c, Weekday(day)) by {
      match c {
        case Daily(cycle) => NextMultiple(day - DayOf(first), later - DayOf(first), cycle);
        case Weekly(cycle, _) => NextWeekThatCounts(c, first, day, later);
      }
    }
  }

  lemma NextWeekThatCounts(c: Cadence, first: int, day: int, later: int)
    requires c.Weekly? && InOrder(c) && day < later
    requires Weekday(day) in c.weekdays && Weekday(later) in c.weekdays
    requires (Week(day) - Week(DayOf(first))) % c.cycle == 0 && (Week(later) - Week(DayOf(first))) % c.cycle == 0
    ensures later - day >= Stride(c, Weekday(day))
  {
    if Week(later) > Week(day) {
      NextMultiple(Week(day) - Week(DayOf(first)), Week(later) - Week(DayOf(first)), c.cycle);
    }
    ListedDayIsAStrideAway(c, day, later);
  }

  lemma DueTimesSplit(c: Cadence, first: int, t: int, end: int)
    requires InOrder(c) && OnSchedule(c, t) && Due(c, first, t) && t < end
    ensures t < NextTime(c, t) && Due(c, first, NextTime(c, t))
    ensures DueTimes(c, first, t, end) == {t} + DueTimes(c, first, NextTime(c, t), end)
    ensures |DueTimes(c, first, t, end)| == 1 + |DueTimes(c, first, NextTime(c, t), end)|
  {
    NextIsDue(c, first, t);
    forall u | t < u && Due(c, first, u)
      ensures NextTime(c, t) <= u
    {
      NextIsLeast(c, first, t, u);
    }
  }

  /** The loop from `t` on collects exactly what is due, in order, or has no room for it. */
  ghost predicate Collects(c: Cadence, first: int, end: int, t: int, room: nat)
    requires OnSchedule(c, t)
  {
    match Walk(c, end, t, room)
    case None => |DueTimes(c, first, t, end)| > room
    case Some(ts) =>
      && |DueTimes(c, first, t, end)| <= room
      && Weekdays.Ascending(ts) && (ts != [] ==> ts[0] == t)
      && (set u | u in ts) == DueTimes(c, first, t, end)
  }

  lemma CollectsOneMore(c: Cadence, first: int, end: int, t: int, room: nat)
    requires InOrder(c) && OnSchedule(c, t) && Due(c, first, t) && t < end && room > 0
    requires Collects(c, first, end, NextTime(c, t), room - 1)
    ensures Collects(c, first, end, t, room)
  {
    DueTimesSplit(c, first, t, end);
    match Walk(c, end, NextTime(c, t), room - 1) {
      case None => assert Walk(c, end, t, room) == None;
      case Some(ts) =>
        assert Walk(c, end, t, room) == Some([t] + ts);
        ConsAscending(t, ts);
    }
  }

  /** From a due time on, the loop collects exactly what is due, in order, or runs out of room. */
  lemma {:induction false} WalkCollectsDueTimes(c: Cadence, first: int, end: int, t: int, room: nat)
    requires InOrder(c) && OnSchedule(c, t) && Due(c, first, t)
    ensures Collects(c, first, end, t, room)
    decreases room
  {
    if t >= end {
      assert DueTimes(c, first, t, end) == {};
    } else if room == 0 {
      DueTimesSplit(c, first, t, end);
    } else {
      NextIsDue(c, first, t);
      WalkCollectsDueTimes(c, first, end, NextTime(c, t), room - 1);
      CollectsOneMore(c, first, end, t, room);
    }
  }

  lemma ConsAscending(t: int, ts: seq<int>)
    requires Weekdays.Ascending(ts) && (ts != [] ==> t < ts[0])
    ensures Weekdays.Ascending([t] + ts)
    ensures (set u | u in [t] + ts) == {t} + set u | u in ts
  {
  }

  /** The expansion yields the due times in order, each once, or fails if there are more than 365. */
  ghost predicate Exact(e: Series) {
    var due := DueTimes(e.cadence, First(e), First(e), e.end);
    match Occurrences(e)
    case None => |due| > 365
    case Some(ts) =>
      |due| <= 365 && Weekdays.Ascending(ts) && (set t | t in ts) == due
  }

  lemma ExpansionIsExact(e: Series)
    requires InOrder(e.cadence)
    ensures Exact(e)
  {
    FirstIsListed(e);
    var first := First(e);
    assert Due(e.cadence, first, first) by {
      MultipleMod(e.cadence.cycle, 0);
    }
    WalkCollectsDueTimes(e.cadence, first, e.end, first, MAX_RECURRING_BOOKINGS);
  }

  /** The first occurrence is the first listed day from the requested start on, at the same time of day. */
  lemma StartsOnFirstListedDay(e: Series)
    requires e.cadence.Weekly? && e.cadence.weekdays != []
    ensures e.enter <= First(e) && (First(e) - e.enter) % DAY == 0 && OnListedDay(e.cadence.weekdays, First(e))
    ensures forall t | e.enter <= t < First(e) && (t - e.enter) % DAY == 0 :: !OnListedDay(e.cadence.weekdays, t)
  {
    var weekdays := e.cadence.weekdays;
    var k := FirstListedIsLeast(weekdays, e.enter, weekdays[0], 7);
    forall t | e.enter <= t < First(e) && (t - e.enter) % DAY == 0
      ensures !OnListedDay(weekdays, t)
    {
      var m := (t - e.enter) / DAY;
      assert t == e.enter + DAY * m;
    }
  }

  /** All series with this list of weekdays are expanded exactly. */
  ghost predicate ExactForList(weekdays: seq<int>)
    requires Weekdays.AllWeekdays(weekdays)
  {
    forall e: Series | e.cadence.Weekly? && e.cadence.weekdays == weekdays :: Exact(e)
  }

  /** A list that is not in strict order has a first place where it fails to rise. */
  lemma FirstDrop(s: seq<int>) returns (i: nat)
    requires !Weekdays.Ascending(s)
    ensures i + 1 < |s| && s[i + 1] <= s[i] && Weekdays.Ascending(s[..i + 1])
  {
    i := 0;
    if s[0] < s[1] {
      Weekdays.AscendingFromHead(s);
      var j := FirstDrop(s[1..]);
      i := j + 1;
      assert s[..i + 1][1..] == s[1..][..j + 1];
      Weekdays.AscendingFromHead(s[..i + 1]);
    }
  }

  /** A series of one moment, on a weekday after which the list does not rise. */
  function ShortSeries(weekdays: seq<int>, day: int): Series
    requires Weekdays.AllWeekdays(weekdays)
  {
    Series("", "", DAY * day, DAY * day, "", Weekly(1, weekdays), DAY * day + 1)
  }

  lemma UnorderedListFails(weekdays: seq<int>) returns (e: Series)
    requires Weekdays.AllWeekdays(weekdays) && weekdays != [] && !Weekdays.Ascending(weekdays)
    ensures e.cadence == Weekly(1, weekdays) && !Exact(e)
  {
    var i := FirstDrop(weekdays);
    var day := Weekdays.DayWithin(0, weekdays[i]);
    e := ShortSeries(weekdays, day);
    var t := e.enter;
    assert First(e) == t;
    var idx := Index(weekdays, weekdays[i]);
    assert idx == i by {
      assert idx <= i;
      assert weekdays[..i + 1][idx] == weekdays[..i + 1][i];
    }
    var next := NextTime(e.cadence, t);
    assert next <= t;
    var due := DueTimes(e.cadence, t, t, e.end);
    SubsetSize(due, {t});
    if Occurrences(e).Some? {
      var ts := Occurrences(e).value;
      assert Walk(e.cadence, e.end, next, MAX_RECURRING_BOOKINGS - 1).Some?;
      assert ts[0] == t && ts[1] == next;
    }
  }

  /**
    The request validator accepts lists in any order, but the expansion is right for all series
    with a given list exactly if that list is in strict order.
   */
  lemma ExactIffInOrder(weekdays: seq<int>)
    requires Weekdays.AllWeekdays(weekdays) && weekdays != []
    ensures ExactForList(weekdays) <==> Weekdays.Ascending(weekdays)
  {
    if Weekdays.Ascending(weekdays) {
      forall e: Series | e.cadence.Weekly? && e.cadence.weekdays == weekdays
        ensures Exact(e)
      {
        ExpansionIsExact(e);
      }
    } else {
      var e := UnorderedListFails(weekdays);
      assert !Exact(e);
    }
  }
}
