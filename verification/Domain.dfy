/** The entities that requests read and write, and the answers that handlers give. */
module Domain {
  import opened Wrappers

  type UserId = string
  type OrgId = string
  type SpaceId = string
  type LocationId = string
  type GroupId = string
  type BookingId = nat
  type SeriesId = nat

  const ROLE_SPACE_ADMIN := 10
  const ROLE_SUPER_ADMIN := 90

  datatype User = User(id: UserId, org: OrgId, email: string, role: int, groups: seq<GroupId>)

  datatype Space = Space(
    location: LocationId,
    enabled: bool,
    requireSubject: bool,
    allowedBookers: seq<GroupId>,
    approvers: seq<GroupId>)

  /** `utcOffset` is the fixed distance, in seconds, of the location's wall clock from UTC. */
  datatype Location = Location(
    org: OrgId,
    enabled: bool,
    maxConcurrent: nat,
    bookableDays: string,
    utcOffset: int,
    allowedBookers: seq<GroupId>)

  /**
    The settings of an organisation. `None` stands for a missing row where some caller takes the
    failing read for a refusal; all other missing rows read as zero, or as not set.
   */
  datatype Settings = Settings(
    noAdminRestrictions: Option<bool>,
    dailyBasis: Option<bool>,
    maxDurationHours: int,
    minDurationHours: Option<int>,
    maxDaysInAdvance: int,
    maxBookingsPerUser: int,
    maxConcurrentPerUser: int,
    subjectDisabled: bool,
    allowRecurring: bool,
    featureRecurring: bool,
    featureGroups: bool,
    enableMaxHoursBeforeDelete: Option<bool>,
    maxHoursBeforeDelete: Option<int>,
    retentionEnabled: bool,
    retentionDays: Option<int>)
  {
    predicate BooksByDay() {
      dailyBasis == Some(true)
    }
  }

  /** What the settings read as when the organisation has none. */
  const NO_SETTINGS :=
    Settings(None, None, 0, None, 0, 0, 0, false, false, false, false, None, None, false, None)

  /**
    Everything a request sees besides the booking tables. `bookFor` is the answer of the lookup
    (or creation) of the user a space administrator books for.
   */
  datatype Env = Env(
    now: int,
    spaces: map<SpaceId, Space>,
    locations: map<LocationId, Location>,
    settings: map<OrgId, Settings>,
    bookFor: map<(OrgId, string), UserId>)
  {
    function SettingsOf(org: OrgId): Settings {
      if org in settings then settings[org] else NO_SETTINGS
    }

    predicate HasSpace(space: SpaceId) {
      space in spaces && spaces[space].location in locations
    }

    function SpacesOf(location: LocationId): set<SpaceId> {
      set s | s in spaces && spaces[s].location == location
    }
  }

  datatype Booking = Booking(
    user: UserId,
    space: SpaceId,
    enter: int,
    leave: int,
    approved: bool,
    subject: string,
    series: Option<SeriesId>)

  datatype Refusal =
    | InvalidSubject
    | InvalidDuration
    | InPast
    | TooManyDaysInAdvance
    | MaxConcurrentForUser
    | MinDuration
    | TooManyUpcoming
    | NotAllowedBooker
    | LocationMaxConcurrent
    | InvalidWeekday
    | SlotConflict
    | SubjectRequired
    | MaxHoursBeforeDelete

  datatype Outcome =
    | Done
    | NotFound
    | BadRequest
    | Forbidden
    | PaymentRequired
    | AlreadyExists
    | InternalError
    | Refused(reason: Refusal)

  predicate CanAccessOrg(user: User, org: OrgId) {
    user.org == org || user.role >= ROLE_SUPER_ADMIN
  }

  predicate CanSpaceAdminOrg(user: User, org: OrgId) {
    (user.org == org && user.role >= ROLE_SPACE_ADMIN) || user.role >= ROLE_SUPER_ADMIN
  }

  /** An administrator whom the organisation frees from the booking restrictions. */
  predicate Exempt(settings: Settings, user: User, org: OrgId) {
    settings.noAdminRestrictions == Some(true) && CanSpaceAdminOrg(user, org)
  }
}
