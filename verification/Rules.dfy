/** The admission rules that every new or changed booking has to pass. */
module Rules {
  import opened Wrappers
  import opened GoArithmetic
  import opened Calendar
  import opened Domain
  import opened Queries
  import Weekdays
  import DailyBasis

  const HOUR := 3600

  /** A request for a booking; `space` is empty when only a location is asked about. */
  datatype Draft = Draft(space: SpaceId, subject: string, enter: int, leave: int)

  /** Characters stand for bytes here. */
  predicate ValidSubject(s: string) {
    (|s| == 0 || |s| >= 3) && !exists i | 0 <= i < |s| - 2 :: s[i] == '@' && s[i + 1] == '@' && s[i + 2] == '@'
  }

  predicate SubjectMissing(settings: Settings, space: Space, subject: string) {
    !settings.subjectDisabled && space.requireSubject && |Weekdays.TrimSpace(subject)| < 3
  }

  predicate ValidDuration(settings: Settings, exempt: bool, d: Draft) {
    DailyBasis.DurationAllowed(
      DailyBasis.CIVIL, DailyBasis.CIVIL_STEPS, DayOf(d.enter), d.leave - d.enter, exempt,
      settings.BooksByDay(), settings.maxDurationHours)
  }

  /** `enter` and `leave` are compared with the clock as instants, hence shifted by the offset. */
  function AdvanceVerdict(settings: Settings, exempt: bool, now: int, utcOffset: int, d: Draft): Outcome {
    var today := DayOf(now) * DAY - if settings.BooksByDay() then 12 * HOUR else 0;
    var advanceDays := (d.enter - utcOffset - today) / DAY;
    if d.leave - utcOffset < today then Refused(InPast)
    else if advanceDays >= 0 && exempt then Done
    else if advanceDays < 0 then Refused(InPast)
    else if advanceDays > settings.maxDaysInAdvance then Refused(TooManyDaysInAdvance)
    else Done
  }

  predicate UserHasRoom(
      settings: Settings, exempt: bool, rows: Table, actor: User, d: Draft, exclude: Option<BookingId>) {
    || exempt
    || settings.maxConcurrentPerUser == 0
    || |GetTimeRangeByUser(rows, actor.id, d.enter, d.leave, exclude)| < settings.maxConcurrentPerUser
  }

  /** Without a minimum on record nothing is long enough. */
  predicate LongEnough(settings: Settings, exempt: bool, d: Draft) {
    || exempt
    || settings.minDurationHours == Some(0)
    || (&& settings.minDurationHours.Some? && settings.dailyBasis.Some?
        && Quot(d.leave + (if settings.BooksByDay() then 0 else 1) - d.enter, HOUR) >= settings.minDurationHours.value)
  }

  predicate FewEnoughUpcoming(
      env: Env, settings: Settings, exempt: bool, rows: Table, actor: User, markup: nat) {
    exempt || |GetUpcoming(env, rows, actor.id)| + markup < settings.maxBookingsPerUser
  }

  /** An empty list of booker groups restricts nobody. */
  predicate MayBook(bookers: seq<GroupId>, groups: seq<GroupId>) {
    bookers == [] || exists g :: g in bookers && g in groups
  }

  predicate LocationHasRoom(env: Env, rows: Table, location: LocationId, d: Draft, exclude: Option<BookingId>)
    requires location in env.locations
  {
    || env.locations[location].maxConcurrent == 0
    || GetConcurrent(rows, env.SpacesOf(location), d.enter, d.leave, exclude) < env.locations[location].maxConcurrent
  }

  /** `isValidBookingRequest`: the rules of the organisation, in the order in which they are tried. */
  function RequestVerdict(
      env: Env, rows: Table, location: LocationId, actor: User, d: Draft, exclude: Option<BookingId>, markup: nat)
    : Outcome
    requires location in env.locations
  {
    var loc := env.locations[location];
    var settings := env.SettingsOf(loc.org);
    var exempt := Exempt(settings, actor, loc.org);
    var advance := AdvanceVerdict(settings, exempt, env.now, loc.utcOffset, d);
    if !ValidSubject(d.subject) then Refused(InvalidSubject)
    else if !ValidDuration(settings, exempt, d) then Refused(InvalidDuration)
    else if advance != Done then advance
    else if !UserHasRoom(settings, exempt, rows, actor, d, exclude) then Refused(MaxConcurrentForUser)
    else if !LongEnough(settings, exempt, d) then Refused(MinDuration)
    else if exclude == None && !FewEnoughUpcoming(env, settings, exempt, rows, actor, markup) then
      Refused(TooManyUpcoming)
    else if d.space == "" then Done
    else if d.space in env.spaces && !MayBook(env.spaces[d.space].allowedBookers, actor.groups) then
      Refused(NotAllowedBooker)
    else if !MayBook(loc.allowedBookers, actor.groups) then Refused(NotAllowedBooker)
    else Done
  }

  /** `checkBookingCreateUpdate`: those rules, the location's cap, and its bookable weekdays. */
  function Check(
      env: Env, rows: Table, location: LocationId, actor: User, d: Draft, exclude: Option<BookingId>, markup: nat)
    : Outcome
    requires location in env.locations
  {
    var loc := env.locations[location];
    var request := RequestVerdict(env, rows, location, actor, d, exclude, markup);
    if request != Done then request
    else if !LocationHasRoom(env, rows, location, d, exclude) then Refused(LocationMaxConcurrent)
    else if !Weekdays.Bookable(loc.bookableDays, Exempt(env.SettingsOf(loc.org), actor, loc.org), d.enter, d.leave) then
      Refused(InvalidWeekday)
    else Done
  }

  /** The rules, and no other booking in the way. */
  function Admission(
      env: Env, rows: Table, location: LocationId, actor: User, d: Draft, exclude: Option<BookingId>, markup: nat)
    : Outcome
    requires location in env.locations
  {
    var verdict := Check(env, rows, location, actor, d, exclude, markup);
    if verdict != Done then verdict
    else if GetConflicts(rows, d.space, d.enter, d.leave, exclude) != {} then Refused(SlotConflict)
    else Done
  }

  // ----- what the rules on time say --------------------------------------------------------------

  /** By the hour a booking may last up to the maximum, and not a full minute longer. */
  lemma HourlyMeaning(settings: Settings, d: Draft)
    requires !settings.BooksByDay()
    ensures ValidDuration(settings, false, d) <==> 0 <= d.leave - d.enter < settings.maxDurationHours * 3600 + 60
  {
    DailyBasis.HourlyAcceptedIff(
      DailyBasis.CIVIL, DailyBasis.CIVIL_STEPS, DayOf(d.enter), d.leave - d.enter, settings.maxDurationHours);
  }

  /** The minimum is one of full hours; by the hour one second may be missing. */
  lemma MinimumMeaning(settings: Settings, d: Draft)
    requires settings.dailyBasis.Some? && settings.minDurationHours.Some? && settings.minDurationHours.value >= 0
    ensures LongEnough(settings, false, d) <==>
      || settings.minDurationHours.value == 0
      || d.leave - d.enter >= settings.minDurationHours.value * 3600 - if settings.dailyBasis.value then 0 else 1
  {
  }

  /**
    Without exemption a booking has to start between this morning (or noon of yesterday, when
    booking by the day) and the end of the last day that may be booked, and must not be over.
   */
  lemma AdvanceIsAWindow(settings: Settings, now: int, utcOffset: int, d: Draft)
    requires d.enter <= d.leave
    ensures
      var opens := DayOf(now) * DAY - if settings.BooksByDay() then 12 * HOUR else 0;
      AdvanceVerdict(settings, false, now, utcOffset, d) == Done <==>
        opens <= d.enter - utcOffset < opens + (settings.maxDaysInAdvance + 1) * DAY
  {
  }

  /** An exemption lifts the limit on days in advance, but not the ban on the past. */
  lemma AdvanceWhenExempt(settings: Settings, now: int, utcOffset: int, d: Draft)
    requires d.enter <= d.leave
    ensures
      var opens := DayOf(now) * DAY - if settings.BooksByDay() then 12 * HOUR else 0;
      AdvanceVerdict(settings, true, now, utcOffset, d) == Done <==> opens <= d.enter - utcOffset
  {
  }
}
