/**
  Exactly when each request succeeds, in terms of the rows, the settings and the clock it meets, and what
  a refusal tells. Nothing here goes by the names of the checks that the handlers make.
 */
module Guards {
  import opened Wrappers
  import opened GoArithmetic
  import opened Calendar
  import opened Domain
  import opened Queries
  import opened Rules
  import opened Recurrence
  import opened Requests
  import opened Runs
  import DailyBasis
  import Weekdays

  // ----- who may do what --------------------------------------------------------------------------------

  predicate Belongs(user: User, org: OrgId) {
    user.org == org || user.role >= 90
  }

  predicate Administers(user: User, org: OrgId) {
    (user.org == org && user.role >= 10) || user.role >= 90
  }

  function OrgOf(env: Env, space: SpaceId): OrgId
    requires env.HasSpace(space)
  {
    env.locations[env.spaces[space].location].org
  }

  function TermsOf(env: Env, space: SpaceId): Settings
    requires env.HasSpace(space)
  {
    env.SettingsOf(OrgOf(env, space))
  }

  predicate InUse(env: Env, space: SpaceId)
    requires env.HasSpace(space)
  {
    env.spaces[space].enabled && env.locations[env.spaces[space].location].enabled
  }

  predicate SubjectGiven(env: Env, space: SpaceId, subject: string)
    requires env.HasSpace(space)
  {
    TermsOf(env, space).subjectDisabled || !env.spaces[space].requireSubject || |Weekdays.TrimSpace(subject)| >= 3
  }

  // ----- the rules ------------------------------------------------------------------------------------------

  /** The administrators of the organisation, if it frees them from the restrictions. */
  predicate Free(env: Env, location: LocationId, actor: User)
    requires location in env.locations
  {
    var org := env.locations[location].org;
    env.SettingsOf(org).noAdminRestrictions == Some(true) && Administers(actor, org)
  }

  predicate SubjectFits(subject: string) {
    |subject| != 1 && |subject| != 2 &&
    forall i | 2 <= i < |subject| && subject[i] == '@' :: subject[i - 1] != '@' || subject[i - 2] != '@'
  }

  ghost predicate DurationFits(terms: Settings, duration: int) {
    if terms.dailyBasis == Some(true) then
      exists days {:trigger DailyBasis.AboutDays(days, duration)} ::
        DailyBasis.AboutDays(days, duration) && days <= DailyBasis.DaysAllowed(terms.maxDurationHours)
    else 0 <= duration < terms.maxDurationHours * 3600 + 60
  }

  /** The first instant that can still be booked. */
  function Opening(terms: Settings, now: int): int {
    now - now % 86400 - if terms.dailyBasis == Some(true) then 43200 else 0
  }

  /** So many full hours at least; a negative number of hours still allows the hour that has begun. */
  predicate FullHours(seconds: int, hours: int) {
    if hours > 0 then seconds >= hours * 3600 else seconds > (hours - 1) * 3600
  }

  predicate MinimumFits(terms: Settings, duration: int) {
    || terms.minDurationHours == Some(0)
    || (&& terms.minDurationHours.Some? && terms.dailyBasis.Some?
        && var hours, lasting := terms.minDurationHours.value, duration + if terms.dailyBasis.value then 0 else 1;
           FullHours(lasting, hours))
  }

  predicate GroupsAllow(allowed: seq<GroupId>, groups: seq<GroupId>) {
    allowed == [] || (set g | g in allowed && g in groups) != {}
  }

  /** What must hold for a booking whatever other bookings there are. */
  ghost predicate FitsAnyway(env: Env, location: LocationId, actor: User, d: Draft)
    requires location in env.locations
  {
    var loc := env.locations[location];
    var terms, free := env.SettingsOf(loc.org), Free(env, location, actor);
    var opening := Opening(terms, env.now);
    && SubjectFits(d.subject)
    && (free || DurationFits(terms, d.leave - d.enter))
    && opening <= d.leave - loc.utcOffset && opening <= d.enter - loc.utcOffset
    && (free || d.enter - loc.utcOffset < opening + (terms.maxDaysInAdvance + 1) * 86400)
    && (free || MinimumFits(terms, d.leave - d.enter))
    && (d.space == "" || GroupsAllow(loc.allowedBookers, actor.groups))
    && (d.space == "" || d.space !in env.spaces || GroupsAllow(env.spaces[d.space].allowedBookers, actor.groups))
    && (loc.bookableDays == "" || free || forall day | DayOf(d.enter) <= day <= DayOf(d.leave - 1) ::
          Weekday(day) in Weekdays.AllowedDays(loc.bookableDays))
  }

  /** The bookings of a user, in spaces that are still there, that end now or later. */
  function StillToCome(env: Env, rows: Table, user: UserId): set<BookingId> {
    set id | id in rows && rows[id].user == user && env.HasSpace(rows[id].space) && env.now <= rows[id].leave
  }

  lemma StillToComeIff(env: Env, rows: Table, user: UserId)
    ensures StillToCome(env, rows, user) == GetUpcoming(env, rows, user)
  {
  }

  /** What must hold with regard to other bookings. */
  ghost predicate FitsAmong(
      env: Env, rows: Table, location: LocationId, actor: User, d: Draft, exclude: Option<BookingId>, markup: nat)
    requires location in env.locations
  {
    var loc := env.locations[location];
    var terms, free := env.SettingsOf(loc.org), Free(env, location, actor);
    && (free || terms.maxConcurrentPerUser == 0 ||
        |GetTimeRangeByUser(rows, actor.id, d.enter, d.leave, exclude)| < terms.maxConcurrentPerUser)
    && (free || exclude.Some? || |StillToCome(env, rows, actor.id)| + markup < terms.maxBookingsPerUser)
    && (loc.maxConcurrent == 0 ||
        GetConcurrent(rows, env.SpacesOf(location), d.enter, d.leave, exclude) < loc.maxConcurrent)
  }

  lemma SubjectFitsIff(subject: string)
    ensures ValidSubject(subject) <==> SubjectFits(subject)
  {
    if i :| 2 <= i < |subject| && subject[i] == '@' && subject[i - 1] == '@' && subject[i - 2] == '@' {
      var j := i - 2;
      assert subject[j] == '@' && subject[j + 1] == '@' && subject[j + 2] == '@';
    }
  }

  lemma DurationFitsIff(terms: Settings, d: Draft)
    ensures ValidDuration(terms, false, d) <==> DurationFits(terms, d.leave - d.enter)
  {
    if terms.BooksByDay() {
      DailyBasis.CivilDaysAcceptedIff(DayOf(d.enter), d.leave - d.enter, terms.maxDurationHours);
    } else {
      HourlyMeaning(terms, d);
    }
  }

  lemma MinimumFitsIff(terms: Settings, d: Draft)
    ensures LongEnough(terms, false, d) <==> MinimumFits(terms, d.leave - d.enter)
  {
    if terms.minDurationHours.Some? {
      FullHoursAtLeast(d.leave + (if terms.BooksByDay() then 0 else 1) - d.enter, terms.minDurationHours.value);
    }
  }

  lemma OnTimeIff(terms: Settings, free: bool, now: int, utcOffset: int, d: Draft)
    ensures AdvanceVerdict(terms, free, now, utcOffset, d) == Done <==>
      var opening := Opening(terms, now);
      && opening <= d.leave - utcOffset && opening <= d.enter - utcOffset
      && (free || d.enter - utcOffset < opening + (terms.maxDaysInAdvance + 1) * 86400)
  {
    assert DayOf(now) * DAY == now - now % 86400;
  }

  lemma GroupsAllowIff(allowed: seq<GroupId>, groups: seq<GroupId>)
    ensures MayBook(allowed, groups) <==> GroupsAllow(allowed, groups)
  {
    var shared := set g | g in allowed && g in groups;
    if g :| g in allowed && g in groups {
      assert g in shared;
    }
    if shared != {} {
      var g :| g in shared;
    }
  }

  /** A booking passes the rules exactly if it fits anyway and among the others. */
  lemma RulesPassIff(
      env: Env, rows: Table, location: LocationId, actor: User, d: Draft, exclude: Option<BookingId>, markup: nat)
    requires location in env.locations
    ensures Check(env, rows, location, actor, d, exclude, markup) == Done <==>
      FitsAnyway(env, location, actor, d) && FitsAmong(env, rows, location, actor, d, exclude, markup)
  {
    var loc := env.locations[location];
    var terms, free := env.SettingsOf(loc.org), Free(env, location, actor);
    assert free == Exempt(terms, actor, loc.org);
    StillToComeIff(env, rows, actor.id);
    SubjectFitsIff(d.subject);
    DurationFitsIff(terms, d);
    MinimumFitsIff(terms, d);
    OnTimeIff(terms, free, env.now, loc.utcOffset, d);
    GroupsAllowIff(loc.allowedBookers, actor.groups);
    if d.space in env.spaces {
      GroupsAllowIff(env.spaces[d.space].allowedBookers, actor.groups);
    }
    assert Weekdays.Bookable(loc.bookableDays, free, d.enter, d.leave) <==>
      (loc.bookableDays == "" || free || forall day | DayOf(d.enter) <= day <= DayOf(d.leave - 1) ::
         Weekday(day) in Weekdays.AllowedDays(loc.bookableDays));
  }

  /** It is admitted if in addition no other booking of the space satisfies the four-clause test. */
  ghost predicate NothingInTheWay(rows: Table, d: Draft, exclude: Option<BookingId>) {
    forall id | id in rows && Some(id) != exclude && rows[id].space == d.space :: !Clashes(d.enter, d.leave, rows[id])
  }

  lemma AdmittedIff(
      env: Env, rows: Table, location: LocationId, actor: User, d: Draft, exclude: Option<BookingId>, markup: nat)
    requires location in env.locations
    ensures Admission(env, rows, location, actor, d, exclude, markup) == Done <==>
      && FitsAnyway(env, location, actor, d)
      && FitsAmong(env, rows, location, actor, d, exclude, markup)
      && NothingInTheWay(rows, d, exclude)
  {
    RulesPassIff(env, rows, location, actor, d, exclude, markup);
    if !NothingInTheWay(rows, d, exclude) {
      var id :| id in rows && Some(id) != exclude && rows[id].space == d.space && Clashes(d.enter, d.leave, rows[id]);
      assert id in GetConflicts(rows, d.space, d.enter, d.leave, exclude);
    }
  }

  /** The reason that a refusal names is one that applies. */
  ghost predicate ReasonApplies(
      env: Env, rows: Table, location: LocationId, actor: User, d: Draft, exclude: Option<BookingId>, markup: nat,
      reason: Refusal)
    requires location in env.locations
  {
    var loc := env.locations[location];
    var terms, free := env.SettingsOf(loc.org), Free(env, location, actor);
    match reason
    case InvalidSubject => !SubjectFits(d.subject)
    case InvalidDuration => !free && !DurationFits(terms, d.leave - d.enter)
    case InPast =>
      d.leave - loc.utcOffset < Opening(terms, env.now) || d.enter - loc.utcOffset < Opening(terms, env.now)
    case TooManyDaysInAdvance =>
      !free && d.enter - loc.utcOffset >= Opening(terms, env.now) + (terms.maxDaysInAdvance + 1) * 86400
    case MaxConcurrentForUser =>
      !free && |GetTimeRangeByUser(rows, actor.id, d.enter, d.leave, exclude)| >= terms.maxConcurrentPerUser
    case MinDuration => !free && !MinimumFits(terms, d.leave - d.enter)
    case TooManyUpcoming =>
      !free && exclude == None && |StillToCome(env, rows, actor.id)| + markup >= terms.maxBookingsPerUser
    case NotAllowedBooker =>
      || !GroupsAllow(loc.allowedBookers, actor.groups)
      || (d.space in env.spaces && !GroupsAllow(env.spaces[d.space].allowedBookers, actor.groups))
    case LocationMaxConcurrent =>
      GetConcurrent(rows, env.SpacesOf(location), d.enter, d.leave, exclude) >= loc.maxConcurrent > 0
    case InvalidWeekday =>
      !free && exists day :: DayOf(d.enter) <= day <= DayOf(d.leave - 1) &&
                             Weekday(day) !in Weekdays.AllowedDays(loc.bookableDays)
    case SlotConflict => !NothingInTheWay(rows, d, exclude)
    case _ => false
  }

  lemma RequestRefusal(
      env: Env, rows: Table, location: LocationId, actor: User, d: Draft, exclude: Option<BookingId>, markup: nat)
    requires location in env.locations
    ensures
      var verdict := RequestVerdict(env, rows, location, actor, d, exclude, markup);
      verdict == Done ||
      (verdict.Refused? && ReasonApplies(env, rows, location, actor, d, exclude, markup, verdict.reason))
  {
    var loc := env.locations[location];
    var terms, free := env.SettingsOf(loc.org), Free(env, location, actor);
    assert free == Exempt(terms, actor, loc.org);
    StillToComeIff(env, rows, actor.id);
    SubjectFitsIff(d.subject);
    DurationFitsIff(terms, d);
    MinimumFitsIff(terms, d);
    LateOrEarly(terms, free, env.now, loc.utcOffset, d);
    GroupsAllowIff(loc.allowedBookers, actor.groups);
    if d.space in env.spaces {
      GroupsAllowIff(env.spaces[d.space].allowedBookers, actor.groups);
    }
  }

  lemma RefusalNamesItsReason(
      env: Env, rows: Table, location: LocationId, actor: User, d: Draft, exclude: Option<BookingId>, markup: nat)
    requires location in env.locations
    ensures
      var verdict := Admission(env, rows, location, actor, d, exclude, markup);
      verdict == Done ||
      (verdict.Refused? && ReasonApplies(env, rows, location, actor, d, exclude, markup, verdict.reason))
  {
    RequestRefusal(env, rows, location, actor, d, exclude, markup);
    if RequestVerdict(env, rows, location, actor, d, exclude, markup) == Done {
      assert Free(env, location, actor) ==
             Exempt(env.SettingsOf(env.locations[location].org), actor, env.locations[location].org);
      if id :| id in GetConflicts(rows, d.space, d.enter, d.leave, exclude) {
        assert Clashes(d.enter, d.leave, rows[id]);
      }
    }
  }

  lemma LateOrEarly(terms: Settings, free: bool, now: int, utcOffset: int, d: Draft)
    ensures
      match AdvanceVerdict(terms, free, now, utcOffset, d)
      case Done => true
      case Refused(InPast) => d.leave - utcOffset < Opening(terms, now) || d.enter - utcOffset < Opening(terms, now)
      case Refused(TooManyDaysInAdvance) =>
        !free && d.enter - utcOffset >= Opening(terms, now) + (terms.maxDaysInAdvance + 1) * 86400
      case _ => false
  {
    assert DayOf(now) * DAY == now - now % 86400;
  }

  // ----- bookings -------------------------------------------------------------------------------------------

  /** The user whom `actor` can make a booking for under that address, if there is one. */
  ghost predicate OwnerFound(env: Env, actor: User, org: OrgId, email: string, owner: UserId) {
    if email == "" || email == actor.email then owner == actor.id
    else
      && Administers(actor, org) && Administers(actor, actor.org)
      && (actor.org, email) in env.bookFor && env.bookFor[(actor.org, email)] == owner
  }

  /**
    A booking is created exactly if its space is there and in use (or the actor administers it), the actor
    belongs to the organisation, a required subject is given, it is clear whom the booking is for, and the
    booking is admitted.
   */
  lemma CreateDoneIff(env: Env, s: State, actor: User, m: BookingRequest)
    ensures Create(env, s, actor, m).1 == Done <==>
      && env.HasSpace(m.space)
      && Belongs(actor, OrgOf(env, m.space))
      && (InUse(env, m.space) || Administers(actor, OrgOf(env, m.space)))
      && SubjectGiven(env, m.space, m.subject)
      && (exists owner :: OwnerFound(env, actor, OrgOf(env, m.space), m.userEmail, owner))
      && FitsAnyway(env, env.spaces[m.space].location, actor, m.ToDraft())
      && FitsAmong(env, s.bookings, env.spaces[m.space].location, actor, m.ToDraft(), None, 0)
      && NothingInTheWay(s.bookings, m.ToDraft(), None)
  {
    if env.HasSpace(m.space) {
      var org := OrgOf(env, m.space);
      AdmittedIff(env, s.bookings, env.spaces[m.space].location, actor, m.ToDraft(), None, 0);
      var (found, owner) := OwnerOfNew(env, actor, org, m.userEmail);
      assert found == Done <==> OwnerFound(env, actor, org, m.userEmail, owner);
      assert forall u | OwnerFound(env, actor, org, m.userEmail, u) :: found == Done && u == owner;
    }
  }

  /** The user that a changed booking of `was` belongs to. */
  ghost predicate NewOwnerFound(env: Env, actor: User, org: OrgId, email: string, was: UserId, owner: UserId) {
    if email == "" then owner == was
    else if email == actor.email then Administers(actor, org) && owner == actor.id
    else OwnerFound(env, actor, org, email, owner)
  }

  /** What a change must bring along besides being admitted. */
  ghost predicate ChangePermitted(env: Env, s: State, actor: User, id: BookingId, m: BookingRequest) {
    && id in s.bookings && env.HasSpace(s.bookings[id].space)
    && env.HasSpace(m.space)
    && (s.bookings[id].user == actor.id || Administers(actor, OrgOf(env, m.space)))
    && (exists owner :: NewOwnerFound(env, actor, OrgOf(env, m.space), m.userEmail, s.bookings[id].user, owner))
    && FitsAnyway(env, env.spaces[m.space].location, actor, m.ToDraft())
    && FitsAmong(env, s.bookings, env.spaces[m.space].location, actor, m.ToDraft(), Some(id), 0)
  }

  /** A change goes through exactly if it is permitted and nothing is in the way; then, not otherwise, that is told. */
  lemma UpdateDoneIff(env: Env, s: State, actor: User, id: BookingId, m: BookingRequest)
    ensures Update(env, s, actor, id, m).1 == Done <==>
      ChangePermitted(env, s, actor, id, m) && NothingInTheWay(s.bookings, m.ToDraft(), Some(id))
    ensures Update(env, s, actor, id, m).1 == AlreadyExists <==>
      ChangePermitted(env, s, actor, id, m) && !NothingInTheWay(s.bookings, m.ToDraft(), Some(id))
  {
    if id in s.bookings && env.HasSpace(s.bookings[id].space) && env.HasSpace(m.space) {
      var org, was, location := OrgOf(env, m.space), s.bookings[id].user, env.spaces[m.space].location;
      AdmittedIff(env, s.bookings, location, actor, m.ToDraft(), Some(id), 0);
      RulesPassIff(env, s.bookings, location, actor, m.ToDraft(), Some(id), 0);
      RefusalNamesItsReason(env, s.bookings, location, actor, m.ToDraft(), Some(id), 0);
      var (found, owner) := OwnerOfChanged(env, actor, org, m.userEmail, was);
      assert found == Done <==> NewOwnerFound(env, actor, org, m.userEmail, was, owner);
      assert forall u | NewOwnerFound(env, actor, org, m.userEmail, was, u) :: found == Done && u == owner;
      ConflictOnlyAfterRules(env, s.bookings, location, actor, m.ToDraft(), Some(id), 0);
    }
  }

  lemma ConflictOnlyAfterRules(
      env: Env, rows: Table, location: LocationId, actor: User, d: Draft, exclude: Option<BookingId>, markup: nat)
    requires location in env.locations
    ensures Admission(env, rows, location, actor, d, exclude, markup) == Refused(SlotConflict) ==>
      Check(env, rows, location, actor, d, exclude, markup) == Done
  {
    var loc := env.locations[location];
    LateOrEarly(env.SettingsOf(loc.org), Exempt(env.SettingsOf(loc.org), actor, loc.org), env.now, loc.utcOffset, d);
  }

  /**
    A decision about a pending booking is taken exactly by an administrator who is in one of the groups
    that approve for its space, if there are any, and at the latest a day after the booking.
   */
  lemma ApproveDoneIff(env: Env, s: State, actor: User, id: BookingId, accept: bool)
    ensures Approve(env, s, actor, id, accept).1 == Done <==>
      && Administers(actor, actor.org)
      && id in s.bookings && env.HasSpace(s.bookings[id].space)
      && GroupsAllow(env.spaces[s.bookings[id].space].approvers, actor.groups)
      && s.bookings[id].leave >= env.now - 86400
  {
    if id in s.bookings && env.HasSpace(s.bookings[id].space) {
      GroupsAllowIff(env.spaces[s.bookings[id].space].approvers, actor.groups);
    }
  }

  /** No limit on late deletions applies, or the booking starts late enough. */
  ghost predicate EarlyEnough(env: Env, actor: User, b: Booking)
    requires env.HasSpace(b.space)
  {
    var terms, offset := TermsOf(env, b.space), env.locations[env.spaces[b.space].location].utcOffset;
    var ahead := b.enter - offset - env.now;
    || (terms.noAdminRestrictions == Some(true) && Administers(actor, OrgOf(env, b.space)))
    || (&& terms.noAdminRestrictions.Some?
        && (|| terms.enableMaxHoursBeforeDelete == Some(false)
            || (&& terms.enableMaxHoursBeforeDelete == Some(true) && terms.maxHoursBeforeDelete.Some?
                && var hours := terms.maxHoursBeforeDelete.value;
                   hours == 0 || FullHours(ahead, hours))))
  }

  lemma EarlyEnoughIff(env: Env, actor: User, b: Booking)
    requires env.HasSpace(b.space)
    ensures MayStillDelete(env, actor, b) <==> EarlyEnough(env, actor, b)
  {
    var terms, offset := TermsOf(env, b.space), env.locations[env.spaces[b.space].location].utcOffset;
    assert Exempt(terms, actor, OrgOf(env, b.space)) <==>
           terms.noAdminRestrictions == Some(true) && Administers(actor, OrgOf(env, b.space));
    match terms.enableMaxHoursBeforeDelete {
      case None =>
      case Some(enabled) =>
        assert !enabled <==> terms.enableMaxHoursBeforeDelete == Some(false);
        match terms.maxHoursBeforeDelete {
          case None =>
          case Some(hours) =>
            assert hours == 0 <==> terms.maxHoursBeforeDelete == Some(0);
            FullHoursAtLeast(b.enter - offset - env.now, hours);
        }
    }
  }

  /** Go counts full hours toward zero. */
  lemma FullHoursAtLeast(seconds: int, hours: int)
    ensures Quot(seconds, HOUR) >= hours <==> FullHours(seconds, hours)
  {
  }

  /**
    A booking is deleted exactly by its owner or an administrator of the organisation, both belonging to
    it, if it was not over before today and starts late enough.
   */
  lemma DeleteDoneIff(env: Env, s: State, actor: User, id: BookingId)
    ensures Delete(env, s, actor, id).1 == Done <==>
      && id in s.bookings && env.HasSpace(s.bookings[id].space)
      && var b := s.bookings[id];
         && Belongs(actor, OrgOf(env, b.space))
         && (b.user == actor.id || Administers(actor, OrgOf(env, b.space)))
         && b.leave >= env.now - env.now % 86400
         && EarlyEnough(env, actor, b)
  {
    assert DayOf(env.now) * DAY == env.now - env.now % 86400;
    if id in s.bookings && env.HasSpace(s.bookings[id].space) {
      EarlyEnoughIff(env, actor, s.bookings[id]);
    }
  }

  /**
    An organisation without settings takes no booking, and lets none be deleted; and a required subject is
    asked for before anything else is looked at.
   */
  lemma WithoutSettings(env: Env, s: State, actor: User, m: BookingRequest, id: BookingId)
    requires env.HasSpace(m.space) && OrgOf(env, m.space) !in env.settings
    ensures Create(env, s, actor, m).1 != Done
    ensures id in s.bookings && env.HasSpace(s.bookings[id].space)
            && OrgOf(env, s.bookings[id].space) !in env.settings ==>
              Delete(env, s, actor, id).1 != Done
    ensures env.spaces[m.space].requireSubject && |Weekdays.TrimSpace(m.subject)| < 3 ==>
              Create(env, s, actor, m).1 == Refused(SubjectRequired)
  {
    CreateDoneIff(env, s, actor, m);
    DeleteDoneIff(env, s, actor, id);
  }

  // ----- series -----------------------------------------------------------------------------------------------

  /**
    A series is created exactly if its space is there and in use, the organisation allows recurring
    bookings, a required subject is given, the actor belongs to it and has the feature, and there are not
    too many occurrences.
   */
  lemma CreateSeriesDoneIff(env: Env, s: State, actor: User, e: Series)
    ensures CreateSeries(env, s, actor, e).1 == Done <==>
      && env.HasSpace(e.space)
      && InUse(env, e.space)
      && TermsOf(env, e.space).allowRecurring
      && SubjectGiven(env, e.space, e.subject)
      && Belongs(actor, OrgOf(env, e.space))
      && env.SettingsOf(actor.org).featureRecurring
      && Occurrences(e).Some?
  {
  }

  /** The precheck answers with less: neither use, nor permission, nor the subject matter. */
  lemma PrecheckDoneIff(env: Env, s: State, actor: User, e: Series)
    ensures Precheck(env, s, actor, e).0 == Done <==>
      && env.HasSpace(e.space)
      && Belongs(actor, OrgOf(env, e.space))
      && env.SettingsOf(actor.org).featureRecurring
      && Occurrences(e).Some?
  {
  }

  /** The precheck marks an occurrence as possible exactly if it fits, with that many more bookings to come. */
  lemma PrecheckMarksIff(env: Env, s: State, actor: User, e: Series, i: nat)
    requires Precheck(env, s, actor, e).0 == Done && i < |Precheck(env, s, actor, e).1|
    ensures |Precheck(env, s, actor, e).1| == |Occurrences(e).value|
    ensures
      var t := Occurrences(e).value[i];
      var d := Draft(e.space, "", t, t + e.leave - e.enter);
      Precheck(env, s, actor, e).1[i] == Done <==>
        && FitsAnyway(env, env.spaces[e.space].location, actor, d)
        && FitsAmong(env, s.bookings, env.spaces[e.space].location, actor, d, None, i)
        && NothingInTheWay(s.bookings, d, None)
  {
    var t := Occurrences(e).value[i];
    var d := Draft(e.space, "", t, t + e.leave - e.enter);
    assert Occurrence(e, "", t) == d;
    AdmittedIff(env, s.bookings, env.spaces[e.space].location, actor, d, None, i);
  }

  /** A series is deleted exactly by its owner or an administrator, both belonging to the organisation. */
  lemma DeleteSeriesDoneIff(env: Env, s: State, actor: User, id: SeriesId)
    ensures DeleteSeries(env, s, actor, id).1 == Done <==>
      && id in s.series && env.HasSpace(s.series[id].space)
      && Belongs(actor, OrgOf(env, s.series[id].space))
      && (s.series[id].user == actor.id || Administers(actor, OrgOf(env, s.series[id].space)))
  {
  }
}
