/** The handlers for single bookings, proved to do what `Requests` says. */
module BookingRouter {
  import opened Wrappers
  import opened GoArithmetic
  import opened Calendar
  import opened Domain
  import opened Queries
  import opened Rules
  import opened Requests
  import opened BookingStore
  import BookerGroups
  import DailyBasis
  import Weekdays

  method IsValidBookingRequest(
      store: Store, env: Env, location: LocationId, actor: User, d: Draft, exclude: Option<BookingId>, markup: nat)
    returns (verdict: Outcome)
    requires location in env.locations
    ensures verdict == RequestVerdict(env, store.bookings, location, actor, d, exclude, markup)
  {
    var loc := env.locations[location];
    var settings := env.SettingsOf(loc.org);
    var exempt := Exempt(settings, actor, loc.org);
    if !ValidSubject(d.subject) {
      return Refused(InvalidSubject);
    }
    var okDuration := DailyBasis.IsValidBookingDuration(
      DailyBasis.CIVIL, DailyBasis.CIVIL_STEPS, DayOf(d.enter), d.leave - d.enter, exempt,
      settings.BooksByDay(), settings.maxDurationHours);
    if !okDuration {
      return Refused(InvalidDuration);
    }
    var advance := AdvanceVerdict(settings, exempt, env.now, loc.utcOffset, d);
    if advance != Done {
      return advance;
    }
    if !UserHasRoom(settings, exempt, store.bookings, actor, d, exclude) {
      return Refused(MaxConcurrentForUser);
    }
    if !LongEnough(settings, exempt, d) {
      return Refused(MinDuration);
    }
    if exclude == None {
      if !FewEnoughUpcoming(env, settings, exempt, store.bookings, actor, markup) {
        return Refused(TooManyUpcoming);
      }
    }
    if d.space == "" {
      return Done;
    }
    var spaceBookers := if d.space in env.spaces then env.spaces[d.space].allowedBookers else [];
    var allowed := BookerGroups.IsAllowedBooker(spaceBookers, actor.groups);
    if !allowed {
      return Refused(NotAllowedBooker);
    }
    allowed := BookerGroups.IsAllowedBooker(loc.allowedBookers, actor.groups);
    if !allowed {
      return Refused(NotAllowedBooker);
    }
    verdict := Done;
  }

  method IsValidConcurrent(
      store: Store, env: Env, location: LocationId, d: Draft, exclude: Option<BookingId>) returns (ok: bool)
    requires location in env.locations
    ensures ok == LocationHasRoom(env, store.bookings, location, d, exclude)
  {
    if env.locations[location].maxConcurrent == 0 {
      return true;
    }
    var bookings := store.GetConcurrent(env.SpacesOf(location), d.enter, d.leave, exclude);
    ok := !(bookings >= env.locations[location].maxConcurrent);
  }

  method CheckBookingCreateUpdate(
      store: Store, env: Env, location: LocationId, actor: User, d: Draft, exclude: Option<BookingId>, markup: nat)
    returns (verdict: Outcome)
    requires location in env.locations
    ensures verdict == Check(env, store.bookings, location, actor, d, exclude, markup)
  {
    verdict := IsValidBookingRequest(store, env, location, actor, d, exclude, markup);
    if verdict != Done {
      return;
    }
    var ok := IsValidConcurrent(store, env, location, d, exclude);
    if !ok {
      return Refused(LocationMaxConcurrent);
    }
    var loc := env.locations[location];
    ok := Weekdays.IsLocationWeekdayBookable(
      loc.bookableDays, Exempt(env.SettingsOf(loc.org), actor, loc.org), d.enter, d.leave);
    if !ok {
      return Refused(InvalidWeekday);
    }
  }

  method CreateBooking(store: Store, env: Env, actor: User, m: BookingRequest) returns (outcome: Outcome)
    modifies store
    ensures (store.Snapshot(), outcome) == Create(env, old(store.Snapshot()), actor, m)
  {
    if !env.HasSpace(m.space) {
      return BadRequest;
    }
    var space := env.spaces[m.space];
    var loc := env.locations[space.location];
    if SubjectMissing(env.SettingsOf(loc.org), space, m.subject) {
      return Refused(SubjectRequired);
    }
    if !CanAccessOrg(actor, loc.org) {
      return Forbidden;
    }
    if (!loc.enabled || !space.enabled) && !CanSpaceAdminOrg(actor, loc.org) {
      return BadRequest;
    }
    var owner := actor.id;
    if m.userEmail != "" && m.userEmail != actor.email {
      if !CanSpaceAdminOrg(actor, loc.org) {
        return Forbidden;
      }
      match BookForUser(env, actor, m.userEmail) {
        case None => return InternalError;
        case Some(u) => owner := u;
      }
    }
    var verdict := CheckBookingCreateUpdate(store, env, space.location, actor, m.ToDraft(), None, 0);
    if verdict != Done {
      return verdict;
    }
    if GetConflicts(store.bookings, m.space, m.enter, m.leave, None) != {} {
      return Refused(SlotConflict);
    }
    var approved := !RequiresApproval(env.SettingsOf(loc.org), space);
    var id := store.Create(Booking(owner, m.space, m.enter, m.leave, approved, m.subject, None));
    outcome := Done;
  }

  method UpdateBooking(store: Store, env: Env, actor: User, id: BookingId, m: BookingRequest) returns (outcome: Outcome)
    modifies store
    ensures (store.Snapshot(), outcome) == Update(env, old(store.Snapshot()), actor, id, m)
  {
    if !Found(env, store.Snapshot(), id) {
      return NotFound;
    }
    var e := store.bookings[id];
    if !env.HasSpace(m.space) {
      return BadRequest;
    }
    var location := env.spaces[m.space].location;
    var org := env.locations[location].org;
    if e.user != actor.id && !CanSpaceAdminOrg(actor, org) {
      return Forbidden;
    }
    var owner := e.user;
    if m.userEmail != "" {
      if !CanSpaceAdminOrg(actor, org) {
        return Forbidden;
      }
      if m.userEmail == actor.email {
        owner := actor.id;
      } else {
        match BookForUser(env, actor, m.userEmail) {
          case None => return InternalError;
          case Some(u) => owner := u;
        }
      }
    }
    var verdict := CheckBookingCreateUpdate(store, env, location, actor, m.ToDraft(), Some(id), 0);
    if verdict != Done {
      CheckIsNoConflict(env, store.bookings, location, actor, m.ToDraft(), Some(id), 0);
      return verdict;
    }
    if GetConflicts(store.bookings, m.space, m.enter, m.leave, Some(id)) != {} {
      return AlreadyExists;
    }
    store.Update(id, Booking(owner, m.space, m.enter, m.leave, e.approved, m.subject, None));
    outcome := Done;
  }

  /** A conflict is reported only after all the rules have passed. */
  lemma CheckIsNoConflict(
      env: Env, rows: Table, location: LocationId, actor: User, d: Draft, exclude: Option<BookingId>, markup: nat)
    requires location in env.locations
    ensures Check(env, rows, location, actor, d, exclude, markup) != Refused(SlotConflict)
  {
    var loc := env.locations[location];
    var settings := env.SettingsOf(loc.org);
    var exempt := Exempt(settings, actor, loc.org);
    assert AdvanceVerdict(settings, exempt, env.now, loc.utcOffset, d) != Refused(SlotConflict);
  }

  method ApproveBooking(store: Store, env: Env, actor: User, id: BookingId, accept: bool) returns (outcome: Outcome)
    modifies store
    ensures (store.Snapshot(), outcome) == Approve(env, old(store.Snapshot()), actor, id, accept)
  {
    if !CanSpaceAdminOrg(actor, actor.org) {
      return Forbidden;
    }
    if !Found(env, store.Snapshot(), id) {
      return NotFound;
    }
    var e := store.bookings[id];
    if !MayApprove(env.spaces[e.space], actor) {
      return Forbidden;
    }
    if e.leave < env.now - DAY {
      return BadRequest;
    }
    if e.approved {
      return Done;
    }
    if !accept {
      store.Delete(id);
      return Done;
    }
    store.Update(id, e.(approved := true));
    outcome := Done;
  }

  method DeleteBooking(store: Store, env: Env, actor: User, id: BookingId) returns (outcome: Outcome)
    modifies store
    ensures (store.Snapshot(), outcome) == Delete(env, old(store.Snapshot()), actor, id)
  {
    if !Found(env, store.Snapshot(), id) {
      return NotFound;
    }
    var e := store.bookings[id];
    var org := env.locations[env.spaces[e.space].location].org;
    if !CanAccessOrg(actor, org) {
      return Forbidden;
    }
    if e.user != actor.id && !CanSpaceAdminOrg(actor, org) {
      return Forbidden;
    }
    if e.leave < DayOf(env.now) * DAY {
      return BadRequest;
    }
    if !MayStillDelete(env, actor, e) {
      return Refused(MaxHoursBeforeDelete);
    }
    store.Delete(id);
    outcome := Done;
  }
}
