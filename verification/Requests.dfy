/**
  What each booking request does to the two tables, as a function of the state. The handlers in
  `BookingRouter` and `SeriesRouter` are proved to do exactly this.
 */
module Requests {
  import opened Wrappers
  import opened GoArithmetic
  import opened Calendar
  import opened Domain
  import opened Queries
  import opened Rules
  import opened Recurrence

  /** Database ids are drawn from counters: a new row never takes the id of an older one. */
  datatype State = State(
    bookings: Table,
    series: map<SeriesId, Series>,
    nextBooking: BookingId,
    nextSeries: SeriesId)

  const EMPTY := State(map[], map[], 0, 0)

  predicate WellNumbered(s: State) {
    forall id | id in s.bookings :: id < s.nextBooking
  }

  // ----- rows ---------------------------------------------------------------------------------

  function InsertBooking(s: State, b: Booking): State {
    s.(bookings := s.bookings[s.nextBooking := b], nextBooking := s.nextBooking + 1)
  }

  /** Removes a booking, and its series once that has no booking left. */
  function RemoveBooking(s: State, id: BookingId): State
    requires id in s.bookings
  {
    var rest := s.bookings - {id};
    match s.bookings[id].series
    case None => s.(bookings := rest)
    case Some(r) =>
      s.(bookings := rest,
         series := if exists o | o in rest :: rest[o].series == Some(r) then s.series else s.series - {r})
  }

  /** Removes the bookings of a series that start after `now`, detaches the others, drops the series. */
  function RemoveSeries(s: State, r: SeriesId, now: int): State {
    var kept := map id | id in s.bookings && !(s.bookings[id].series == Some(r) && s.bookings[id].enter > now) ::
                  if s.bookings[id].series == Some(r) then s.bookings[id].(series := None) else s.bookings[id];
    s.(bookings := kept, series := s.series - {r})
  }

  /** Bookings that the retention rule lets go, never one that ended within the last 30 days. */
  predicate Purgeable(env: Env, b: Booking) {
    env.HasSpace(b.space) &&
    var settings := env.SettingsOf(env.locations[env.spaces[b.space].location].org);
    settings.retentionEnabled && settings.retentionDays.Some? &&
    b.leave < DayOf(env.now) * DAY - settings.retentionDays.value * DAY &&
    b.leave < DayOf(env.now) * DAY - 30 * DAY
  }

  /** `victims` is one way to pick the oldest purgeable bookings, `batch` of them at most. */
  predicate PurgeChoice(env: Env, s: State, victims: set<BookingId>, batch: nat) {
    && victims <= s.bookings.Keys
    && |victims| <= batch
    && (forall id | id in victims :: Purgeable(env, s.bookings[id]))
    && (forall o | o in s.bookings && o !in victims && Purgeable(env, s.bookings[o]) ::
          |victims| == batch && forall id | id in victims :: s.bookings[id].leave <= s.bookings[o].leave)
  }

  function PurgeBookings(s: State, victims: set<BookingId>): State {
    var rest := s.bookings - victims;
    if victims == {} then s
    else s.(bookings := rest,
            series := map r | r in s.series && (exists id | id in rest :: rest[id].series == Some(r)) :: s.series[r])
  }

  // ----- single bookings ------------------------------------------------------------------------

  datatype BookingRequest = BookingRequest(
    space: SpaceId, subject: string, enter: int, leave: int, userEmail: string)
  {
    function ToDraft(): Draft {
      Draft(space, subject, enter, leave)
    }
  }

  predicate RequiresApproval(settings: Settings, space: Space) {
    settings.featureGroups && space.approvers != []
  }

  /** The user an administrator books for, when the lookup succeeds. */
  function BookForUser(env: Env, actor: User, email: string): Option<UserId> {
    if CanSpaceAdminOrg(actor, actor.org) && (actor.org, email) in env.bookFor then
      Some(env.bookFor[(actor.org, email)])
    else None
  }

  /** Whom a new booking belongs to, or why it is turned down. */
  function OwnerOfNew(env: Env, actor: User, org: OrgId, email: string): (Outcome, UserId) {
    if email == "" || email == actor.email then (Done, actor.id)
    else if !CanSpaceAdminOrg(actor, org) then (Forbidden, "")
    else
      match BookForUser(env, actor, email)
      case None => (InternalError, "")
      case Some(u) => (Done, u)
  }

  /** Whom a changed booking belongs to, or why the change is turned down. */
  function OwnerOfChanged(env: Env, actor: User, org: OrgId, email: string, owner: UserId): (Outcome, UserId) {
    if email == "" then (Done, owner)
    else if !CanSpaceAdminOrg(actor, org) then (Forbidden, "")
    else if email == actor.email then (Done, actor.id)
    else
      match BookForUser(env, actor, email)
      case None => (InternalError, "")
      case Some(u) => (Done, u)
  }

  /** The checks of `create` that come before the admission rules. */
  function CreateGate(env: Env, actor: User, m: BookingRequest): Outcome {
    if !env.HasSpace(m.space) then BadRequest
    else
      var space := env.spaces[m.space];
      var loc := env.locations[space.location];
      if SubjectMissing(env.SettingsOf(loc.org), space, m.subject) then Refused(SubjectRequired)
      else if !CanAccessOrg(actor, loc.org) then Forbidden
      else if (!loc.enabled || !space.enabled) && !CanSpaceAdminOrg(actor, loc.org) then BadRequest
      else OwnerOfNew(env, actor, loc.org, m.userEmail).0
  }

  function Create(env: Env, s: State, actor: User, m: BookingRequest): (State, Outcome) {
    var gate := CreateGate(env, actor, m);
    if gate != Done then (s, gate)
    else
      var space := env.spaces[m.space];
      var org := env.locations[space.location].org;
      var verdict := Admission(env, s.bookings, space.location, actor, m.ToDraft(), None, 0);
      if verdict != Done then (s, verdict)
      else
        var approved := !RequiresApproval(env.SettingsOf(org), space);
        var owner := OwnerOfNew(env, actor, org, m.userEmail).1;
        (InsertBooking(s, Booking(owner, m.space, m.enter, m.leave, approved, m.subject, None)), Done)
  }

  /** `GetOne` joins the space and its location. */
  predicate Found(env: Env, s: State, id: BookingId) {
    id in s.bookings && env.HasSpace(s.bookings[id].space)
  }

  /** The checks of `update` that come before the admission rules. */
  function UpdateGate(env: Env, s: State, actor: User, id: BookingId, m: BookingRequest): Outcome {
    if !Found(env, s, id) then NotFound
    else if !env.HasSpace(m.space) then BadRequest
    else
      var org := env.locations[env.spaces[m.space].location].org;
      if s.bookings[id].user != actor.id && !CanSpaceAdminOrg(actor, org) then Forbidden
      else OwnerOfChanged(env, actor, org, m.userEmail, s.bookings[id].user).0
  }

  /** A changed booking keeps its approval and leaves its series. */
  function Update(env: Env, s: State, actor: User, id: BookingId, m: BookingRequest): (State, Outcome) {
    var gate := UpdateGate(env, s, actor, id, m);
    if gate != Done then (s, gate)
    else
      var location := env.spaces[m.space].location;
      var was := s.bookings[id];
      var owner := OwnerOfChanged(env, actor, env.locations[location].org, m.userEmail, was.user).1;
      var verdict := Admission(env, s.bookings, location, actor, m.ToDraft(), Some(id), 0);
      if verdict == Refused(SlotConflict) then (s, AlreadyExists)
      else if verdict != Done then (s, verdict)
      else
        var b := Booking(owner, m.space, m.enter, m.leave, was.approved, m.subject, None);
        (s.(bookings := s.bookings[id := b]), Done)
  }

  predicate MayApprove(space: Space, actor: User) {
    space.approvers == [] || exists g :: g in actor.groups && g in space.approvers
  }

  /** Approves a pending booking or, if declined, removes it. */
  function Approve(env: Env, s: State, actor: User, id: BookingId, accept: bool): (State, Outcome) {
    if !CanSpaceAdminOrg(actor, actor.org) then (s, Forbidden)
    else if !Found(env, s, id) then (s, NotFound)
    else if !MayApprove(env.spaces[s.bookings[id].space], actor) then (s, Forbidden)
    else if s.bookings[id].leave < env.now - DAY then (s, BadRequest)
    else if s.bookings[id].approved then (s, Done)
    else if !accept then (RemoveBooking(s, id), Done)
    else (s.(bookings := s.bookings[id := s.bookings[id].(approved := true)]), Done)
  }

  /** A setting that cannot be read is taken for a refusal. */
  predicate MayStillDelete(env: Env, actor: User, b: Booking)
    requires env.HasSpace(b.space)
  {
    var loc := env.locations[env.spaces[b.space].location];
    var settings := env.SettingsOf(loc.org);
    || Exempt(settings, actor, loc.org)
    || (settings.noAdminRestrictions.Some? && settings.enableMaxHoursBeforeDelete.Some? &&
        (|| !settings.enableMaxHoursBeforeDelete.value
         || settings.maxHoursBeforeDelete == Some(0)
         || (settings.maxHoursBeforeDelete.Some? &&
             Quot(b.enter - loc.utcOffset - env.now, HOUR) >= settings.maxHoursBeforeDelete.value)))
  }

  function Delete(env: Env, s: State, actor: User, id: BookingId): (State, Outcome) {
    if !Found(env, s, id) then (s, NotFound)
    else
      var b := s.bookings[id];
      var org := env.locations[env.spaces[b.space].location].org;
      if !CanAccessOrg(actor, org) then (s, Forbidden)
      else if b.user != actor.id && !CanSpaceAdminOrg(actor, org) then (s, Forbidden)
      else if b.leave < DayOf(env.now) * DAY then (s, BadRequest)
      else if !MayStillDelete(env, actor, b) then (s, Refused(MaxHoursBeforeDelete))
      else (RemoveBooking(s, id), Done)
  }

  // ----- series ---------------------------------------------------------------------------------

  /** The checks that the precheck of a series makes before it looks at the occurrences. */
  function PrecheckGate(env: Env, actor: User, e: Series): Outcome {
    if !env.HasSpace(e.space) then BadRequest
    else if !CanAccessOrg(actor, env.locations[env.spaces[e.space].location].org) then Forbidden
    else if !env.SettingsOf(actor.org).featureRecurring then PaymentRequired
    else Done
  }

  /** The checks that the creation of a series makes before it stores anything. */
  function SeriesGate(env: Env, actor: User, e: Series): Outcome {
    if !env.HasSpace(e.space) then BadRequest
    else
      var space := env.spaces[e.space];
      var loc := env.locations[space.location];
      var settings := env.SettingsOf(loc.org);
      if !loc.enabled || !space.enabled then BadRequest
      else if !settings.allowRecurring then BadRequest
      else if SubjectMissing(settings, space, e.subject) then Refused(SubjectRequired)
      else if !CanAccessOrg(actor, loc.org) then Forbidden
      else if !env.SettingsOf(actor.org).featureRecurring then PaymentRequired
      else Done
  }

  function Occurrence(e: Series, subject: string, at: int): Draft {
    Draft(e.space, subject, at, at + (e.leave - e.enter))
  }

  /** What the precheck predicts for an occurrence: no subject, and as many bookings more as came before. */
  function Prediction(env: Env, s: State, actor: User, e: Series, at: int, idx: nat): Outcome
    requires env.HasSpace(e.space)
  {
    Admission(env, s.bookings, env.spaces[e.space].location, actor, Occurrence(e, "", at), None, idx)
  }

  /** The precheck of a series: nothing is stored. */
  function Precheck(env: Env, s: State, actor: User, e: Series): (Outcome, seq<Outcome>) {
    var gate := PrecheckGate(env, actor, e);
    if gate != Done then (gate, [])
    else
      match Occurrences(e)
      case None => (BadRequest, [])
      case Some(times) => (Done, Predictions(env, s, actor, e, times))
  }

  function Predictions(env: Env, s: State, actor: User, e: Series, times: seq<int>): (r: seq<Outcome>)
    requires env.HasSpace(e.space)
    ensures |r| == |times|
  {
    seq(|times|, i requires 0 <= i < |times| => Prediction(env, s, actor, e, times[i], i))
  }

  /** What the creation of a series decides about an occurrence. */
  function Decision(env: Env, s: State, actor: User, e: Series, at: int): Outcome
    requires env.HasSpace(e.space)
  {
    Admission(env, s.bookings, env.spaces[e.space].location, actor, Occurrence(e, e.subject, at), None, 0)
  }

  function OccurrenceRow(env: Env, actor: User, e: Series, id: SeriesId, at: int): Booking
    requires env.HasSpace(e.space)
  {
    var space := env.spaces[e.space];
    var approved := !RequiresApproval(env.SettingsOf(env.locations[space.location].org), space);
    Booking(actor.id, e.space, at, at + (e.leave - e.enter), approved, e.subject, Some(id))
  }

  /** One occurrence after the other, each judged with the earlier ones already stored. */
  function InsertOccurrences(
      env: Env, s: State, actor: User, e: Series, id: SeriesId, times: seq<int>): (State, seq<Outcome>)
    requires env.HasSpace(e.space)
    decreases |times|
  {
    if times == [] then (s, [])
    else
      var verdict := Decision(env, s, actor, e, times[0]);
      var s' := if verdict == Done then InsertBooking(s, OccurrenceRow(env, actor, e, id, times[0])) else s;
      var (s'', verdicts) := InsertOccurrences(env, s', actor, e, id, times[1..]);
      (s'', [verdict] + verdicts)
  }

  function InsertSeries(s: State, e: Series): State {
    s.(series := s.series[s.nextSeries := e], nextSeries := s.nextSeries + 1)
  }

  /** The row of the series is stored first and stays even if it has too many occurrences. */
  function CreateSeries(env: Env, s: State, actor: User, e: Series): (State, Outcome, seq<Outcome>) {
    var gate := SeriesGate(env, actor, e);
    if gate != Done then (s, gate, [])
    else
      match Occurrences(e)
      case None => (InsertSeries(s, e.(user := actor.id)), BadRequest, [])
      case Some(times) =>
        var start := InsertSeries(s, e.(user := actor.id));
        var (s', verdicts) := InsertOccurrences(env, start, actor, e, s.nextSeries, times);
        (s', Done, verdicts)
  }

  /** The owner of a series is kept beside it. */
  function DeleteSeries(env: Env, s: State, actor: User, id: SeriesId): (State, Outcome) {
    if id !in s.series then (s, NotFound)
    else
      var e := s.series[id];
      if !env.HasSpace(e.space) then (s, BadRequest)
      else
        var loc := env.locations[env.spaces[e.space].location];
        if !CanAccessOrg(actor, loc.org) then (s, Forbidden)
        else if e.user != actor.id && !CanSpaceAdminOrg(actor, loc.org) then (s, Forbidden)
        else (RemoveSeries(s, id, env.now + loc.utcOffset), Done)
  }
}
