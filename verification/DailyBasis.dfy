/**
  The duration rule. When an organisation books by the day, the length of a booking is compared
  with the limit after correcting for days that a daylight-saving change makes longer or shorter.
 */
module DailyBasis {
  import opened GoArithmetic

  const HOUR := 3600

  type Hours = h: int | 1 <= h witness 24

  type Seconds = n: int | 1 <= n witness 86400

  /** The whole-hour length of each calendar day. */
  type DayLengths = int -> Hours

  /** The seconds from the time of day at which a booking starts to the same time of the next day. */
  type DaySteps = int -> Seconds

  /** A clock that never changes. */
  const CIVIL: DayLengths := _ => 24
  const CIVIL_STEPS: DaySteps := _ => 86400

  /** For a booking that starts at midnight a step is as long as the day. */
  function FromMidnight(lengths: DayLengths): DaySteps {
    day => lengths(day) * HOUR
  }

  /** Rounding to the nearest minute, halves away from zero (`math.Round`). */
  function RoundToMinutes(seconds: int): int {
    if seconds >= 0 then (seconds + 30) / 60 else -((-seconds + 30) / 60)
  }

  /** The hours a booking of that many seconds counts for. */
  function CountedHours(seconds: int): int {
    Quot(RoundToMinutes(seconds), 60)
  }

  /** `getHoursOnDate`: from 00:00:00 to 23:59:59, rounded. */
  function HoursOnDate(lengths: DayLengths, day: int): (h: int)
    ensures h == lengths(day)
  {
    CountedHours(lengths(day) * HOUR - 1)
  }

  /** The limit brought up to a multiple of 24. */
  function RoundedLimit(maxHours: int): int {
    if Rem(maxHours, 24) != 0 then maxHours + (24 - Rem(maxHours, 24)) else maxHours
  }

  /**
    The correction collected by the loop from the state in which it looks at `day`, `elapsed`
    seconds after the start of the booking.
   */
  function Correction(lengths: DayLengths, steps: DaySteps, day: int, elapsed: int, duration: int): int
    decreases duration - elapsed
  {
    if elapsed >= duration then 0
    else lengths(day) - 24 + Correction(lengths, steps, day + 1, elapsed + steps(day), duration)
  }

  predicate DailyAllowed(lengths: DayLengths, steps: DaySteps, day: int, duration: int, maxHours: int) {
    var correction := Correction(lengths, steps, day, 0, duration);
    var hours := CountedHours(duration);
    Rem(hours - correction, 24) == 0 && hours <= RoundedLimit(maxHours) + correction
  }

  /** Bookings by the hour: whole minutes between zero and the limit. */
  predicate HourlyAllowed(duration: int, maxHours: int) {
    0 <= duration / 60 <= maxHours * 60
  }

  predicate DurationAllowed(
      lengths: DayLengths, steps: DaySteps, day: int, duration: int, exempt: bool, dailyBasis: bool, maxHours: int) {
    exempt ||
    if dailyBasis then DailyAllowed(lengths, steps, day, duration, maxHours)
    else HourlyAllowed(duration, maxHours)
  }

  /** By the hour, without exemption, a booking may last up to the maximum, and not a full minute longer. */
  lemma HourlyAcceptedIff(lengths: DayLengths, steps: DaySteps, day: int, duration: int, maxHours: int)
    ensures DurationAllowed(lengths, steps, day, duration, false, false, maxHours) <==>
            0 <= duration < maxHours * 3600 + 60
  {
  }

  method IsValidBookingDuration(
      lengths: DayLengths, steps: DaySteps, day: int, duration: int, exempt: bool, dailyBasis: bool, maxHours: int)
    returns (ok: bool)
    ensures ok == DurationAllowed(lengths, steps, day, duration, exempt, dailyBasis, maxHours)
    ensures exempt ==> ok
    ensures !exempt && !dailyBasis ==> (ok <==> 0 <= duration < maxHours * 3600 + 60)
  {
    if exempt {
      return true;
    }
    var maxDurationHours := maxHours;
    if dailyBasis && Rem(maxDurationHours, 24) != 0 {
      maxDurationHours := maxDurationHours + (24 - Rem(maxDurationHours, 24));
    }
    if dailyBasis {
      var correction := 0;
      var now, elapsed := day, 0;
      while elapsed < duration
        invariant correction + Correction(lengths, steps, now, elapsed, duration) ==
                  Correction(lengths, steps, day, 0, duration)
        decreases duration - elapsed
      {
        var hoursOnDate := HoursOnDate(lengths, now);
        elapsed := elapsed + steps(now);
        now := now + 1;
        correction := correction + (hoursOnDate - 24);
      }
      var durationNotRounded := CountedHours(duration);
      return Rem(durationNotRounded - correction, 24) == 0 && durationNotRounded <= maxDurationHours + correction;
    }
    var minutes := duration / 60;
    ok := !(minutes < 0 || minutes > maxDurationHours * 60);
  }

  // ----- whole days ---------------------------------------------------------------------------

  /** Hours from local midnight of `day` to local midnight `count` days later. */
  function Span(lengths: DayLengths, day: int, count: nat): nat
    decreases count
  {
    if count == 0 then 0 else lengths(day) + Span(lengths, day + 1, count - 1)
  }

  /** The least number of days that holds so many hours (zero or less: none). */
  function CeilDays(hours: int): int {
    -((-hours) / 24)
  }

  /**
    The limit in days, rounded up; for a negative one that is no multiple of 24, Go's remainder goes
    one day further.
   */
  function DaysAllowed(maxHours: int): int {
    CeilDays(maxHours) + if maxHours < 0 && maxHours % 24 != 0 then 1 else 0
  }

  lemma {:induction false} CorrectionOfWholeDays(
      lengths: DayLengths, day: int, elapsed: int, count: nat, duration: int)
    requires duration == elapsed + Span(lengths, day, count) * HOUR ||
             (count > 0 && duration == elapsed + Span(lengths, day, count) * HOUR - 1)
    ensures Correction(lengths, FromMidnight(lengths), day, elapsed, duration) == Span(lengths, day, count) - 24 * count
    decreases count
  {
    if count > 0 {
      var next := elapsed + lengths(day) * HOUR;
      if count == 1 {
        assert Span(lengths, day + 1, 0) == 0;
        assert Correction(lengths, FromMidnight(lengths), day + 1, next, duration) == 0;
      } else {
        CorrectionOfWholeDays(lengths, day + 1, next, count - 1, duration);
      }
    }
  }

  lemma CountedWholeHours(hours: nat)
    ensures CountedHours(hours * HOUR) == hours
    ensures hours > 0 ==> CountedHours(hours * HOUR - 1) == hours
  {
  }

  /**
    Daylight saving cancels out. Whatever the lengths of the days, a booking of `count` whole days,
    ending at midnight or one second before, is accepted exactly if `count` does not exceed the
    limit in days, rounded up.
   */
  lemma WholeDaysAcceptedIff(lengths: DayLengths, day: int, count: nat, toTheSecond: bool, maxHours: int)
    requires count > 0
    ensures
      var duration := Span(lengths, day, count) * HOUR - if toTheSecond then 0 else 1;
      DurationAllowed(lengths, FromMidnight(lengths), day, duration, false, true, maxHours) <==>
        count <= DaysAllowed(maxHours)
  {
    var span := Span(lengths, day, count);
    var duration := span * HOUR - if toTheSecond then 0 else 1;
    CorrectionOfWholeDays(lengths, day, 0, count, duration);
    CountedWholeHours(span);
    assert CountedHours(duration) - Correction(lengths, FromMidnight(lengths), day, 0, duration) == 24 * count;
    RoundedLimitMeaning(maxHours);
  }

  lemma RoundedLimitMeaning(maxHours: int)
    ensures RoundedLimit(maxHours) ==
            24 * DaysAllowed(maxHours)
  {
  }

  // ----- bookings by the day that do not last whole days --------------------------------------------------

  /** Half a minute short of `days` days up to an hour, less half a minute, more; or the same before zero. */
  predicate AboutDays(days: int, duration: int) {
    if days > 0 then 86400 * days - 30 <= duration < 86400 * days + 3570
    else if days == 0 then -3570 < duration < 3570
    else 86400 * days - 3570 < duration <= 86400 * days + 30
  }

  lemma CountedWholeDays(days: int, duration: int)
    ensures CountedHours(duration) == 24 * days <==> AboutDays(days, duration)
  {
  }

  lemma {:induction false} NoCorrectionInCivilTime(day: int, elapsed: int, duration: int)
    ensures Correction(CIVIL, CIVIL_STEPS, day, elapsed, duration) == 0
    decreases duration - elapsed
  {
    if elapsed < duration {
      NoCorrectionInCivilTime(day + 1, elapsed + CIVIL_STEPS(day), duration);
    }
  }

  /**
    On a clock that never changes, booking by the day, a duration is accepted exactly if it is about
    that of a number of days within the limit, rounded up; everything else is refused.
   */
  lemma CivilDaysAcceptedIff(day: int, duration: int, maxHours: int)
    ensures DurationAllowed(CIVIL, CIVIL_STEPS, day, duration, false, true, maxHours) <==>
            exists days {:trigger AboutDays(days, duration)} ::
              AboutDays(days, duration) && days <= DaysAllowed(maxHours)
  {
    NoCorrectionInCivilTime(day, 0, duration);
    RoundedLimitMeaning(maxHours);
    var hours := CountedHours(duration);
    if DurationAllowed(CIVIL, CIVIL_STEPS, day, duration, false, true, maxHours) {
      WholeQuotient(hours);
      CountedWholeDays(hours / 24, duration);
      assert AboutDays(hours / 24, duration);
    }
    forall days | AboutDays(days, duration)
      ensures hours == 24 * days && Rem(hours, 24) == 0
    {
      CountedWholeDays(days, duration);
      WholeQuotient(hours);
    }
  }

  lemma WholeQuotient(hours: int)
    ensures Rem(hours, 24) == 0 <==> hours % 24 == 0
    ensures hours % 24 == 0 ==> hours == 24 * (hours / 24)
  {
  }

  /** The correction counts every day that has begun. */
  lemma {:induction false} CorrectionOfDaysBegun(
      lengths: DayLengths, day: int, elapsed: int, count: nat, duration: int)
    requires count > 0
    requires elapsed + Span(lengths, day, count - 1) * HOUR < duration <= elapsed + Span(lengths, day, count) * HOUR
    ensures Correction(lengths, FromMidnight(lengths), day, elapsed, duration) == Span(lengths, day, count) - 24 * count
    decreases count
  {
    var next := elapsed + lengths(day) * HOUR;
    if count == 1 {
      assert Span(lengths, day + 1, 0) == 0;
      assert Correction(lengths, FromMidnight(lengths), day + 1, next, duration) == 0;
    } else {
      CorrectionOfDaysBegun(lengths, day + 1, next, count - 1, duration);
    }
  }

  /**
    Whatever the lengths of the days, a booking from midnight into the `count`-th day is accepted exactly
    if its hours fall short of those of the days begun by a multiple of 24, and with that many days less
    it is within the limit: everything else is refused.
   */
  lemma FromMidnightAcceptedIff(lengths: DayLengths, day: int, count: nat, duration: int, maxHours: int)
    requires count > 0
    requires Span(lengths, day, count - 1) * HOUR < duration <= Span(lengths, day, count) * HOUR
    ensures DurationAllowed(lengths, FromMidnight(lengths), day, duration, false, true, maxHours) <==>
            var short := Span(lengths, day, count) - CountedHours(duration);
            short % 24 == 0 && count - short / 24 <= DaysAllowed(maxHours)
  {
    CorrectionOfDaysBegun(lengths, day, 0, count, duration);
    RoundedLimitMeaning(maxHours);
    var short := Span(lengths, day, count) - CountedHours(duration);
    WholeQuotient(24 * count - short);
    WholeQuotient(short);
  }
}
