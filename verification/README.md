# Seatsurfing booking engine: a verified model

This project models the booking engine of the Seatsurfing server and proves what its design relies
on: that bookings never collide, that caps hold, that a series falls on the right days, that what is
shown agrees with what is enforced, and that the small state machines around it (sessions, one-time
passwords, the settings cache, plugin routes) keep their promises. Most results are about every run
of requests, not about one call.

Times are whole seconds on one wall clock per location, with a fixed distance from UTC. Tables are
maps from ids to rows; ids come from counters, so a new row never takes the id of an older one. SQL
conditions are predicates over rows, and requests run one after the other.

| file | contents |
|---|---|
| `Foundations.dfy`, `Domain.dfy` | shared vocabulary: Go's division, calendar days, users, spaces, locations, settings, bookings |
| `Queries.dfy` | the conflict, time-range and concurrency queries, and the minute sweep |
| `Rules.dfy`, `DailyBasis.dfy`, `Weekdays.dfy` | the admission rules, the duration rule with its daylight-saving correction, the bookable weekdays as text and as a rule |
| `Recurrence.dfy` | the expansion of a series into its occurrences |
| `Requests.dfy` | what each request does to the tables, as functions of the state |
| `BookingStore.dfy`, `BookingRouter.dfy`, `SeriesRouter.dfy` | the tables as an object and the handlers that change it, proved against `Requests.dfy` |
| `Runs.dfy` | invariants of all runs |
| `Sites.dfy`, `Limits.dfy`, `Upcoming.dfy` | how far the caps and limits reach, with the runs that show it |
| `Guards.dfy` | exactly when each request succeeds, and what a refusal tells |
| `Effects.dfy`, `Histories.dfy` | what each request changes and leaves alone, and what requests and runs can bring about |
| `Integrity.dfy`, `Rights.dfy` | how bookings and series stay consistent, what one request undoes of another, who can change whose bookings |
| `Forecast.dfy`, `Refusals.dfy` | when the precheck of a series can be relied upon, and when its refusals can |
| `Utilisation.dfy`, `Availability.dfy` | the statistics and the overview of free spaces |
| `BookerGroups.dfy` | groups allowed to book a space |
| `Sessions.dfy`, `Tokens.dfy`, `Totp.dfy`, `SettingsCache.dfy` | sessions and refresh tokens, one-time passwords, the settings cache |
| `PluginRoutes.dfy`, `PathTemplates.dfy`, `PathOwners.dfy` | the prefixes of plugins in the router, what they match as templates, and how many mounts a path can belong to |

Where the code differs from what its comments or interface suggest, the model follows the code:

- The request validator accepts weekday lists in any order, but the expansion of a weekly series is
  right for all series with a list exactly if the list is strictly ascending
  (`Recurrence.ExactIffInOrder`).
- The precheck of a series makes fewer checks than the creation: it does not look at the subject, nor
  at whether recurring bookings are allowed or the space is in use, and it judges each occurrence
  without the others. When it can be relied upon in all states is stated exactly by
  `Forecast.PrecheckSoundIff`; when its refusals can, by `Refusals.RefusalsStandIff`.
- The concurrency cap of a location holds for exactly those overlaps that are longer than 60 seconds
  (`Limits.CapHoldsIff`).
- The per-user limit is checked for whoever makes the request, not for whom it is made, and not at
  all for exempt administrators. Whose requests keep it is stated by `Limits.KeepsLimitIff`.
- The limit on bookings to come is not checked when a booking is changed, so a past one can be moved
  ahead. Which requests keep it is stated by `Upcoming.KeepsUpcomingIff`.
- A change is not refused for a space that is not in use, unlike a creation. Which requests leave such
  a space alone is stated by `Histories.LeavesUnusedAloneIff`.
- When booking by the day, almost an hour more than whole days is accepted
  (`DailyBasis.CivilDaysAcceptedIff`).
- When booking by the day, a booking can end a day before it starts. Whose requests store no such
  booking is stated by `Limits.KeepsWellFormedIff`.
- Changing a booking takes it out of its series, and a series refused for having too many
  occurrences leaves its row behind (`Integrity.RefusalLeavesNoTraceIff`).
- The memory of used one-time passwords goes by the text as submitted, while the comparison ignores
  white space around it. A time step is accepted only once for exactly those sets of texts in which
  every code is written in one way (`Totp.NoStepAcceptedTwiceIff`), such as the bare six digits
  (`Totp.BareCodesAcceptedOnce`).
- A failed write to the settings cache goes unnoticed; the cache stays right exactly if there was no
  differing entry before (`SettingsCache.CoherentIffHarmless`).
- A plugin that is reached late but comes early in the configuration can take over prefixes that
  later ones were using; `PluginRoutes.MountsStayIff` says when it does not.
- The prefixes of plugins are compared as text, but the router reads braces in them as variables. No
  path has two owners as long as no plugin uses variables (`PathOwners.PlainPrefixesHaveOneOwner`);
  `PathOwners.AlwaysOneOwnerIff` is the exact condition for any set of prefixes.
- A utilisation above 100 % is possible without a target, for very short windows; the exact condition
  is `Utilisation.NeverOverloadedIff`. The statistics pages ask for weeks and for a month only, which
  are long enough. With a target, such as the 40 hours that are the default, more than 100 % is normal;
  the highest value is that of `Utilisation.FullLoad`.

## Model

| member | source | states |
|---|---|---|
| Runs.NeverDoubleBooked | server/router/booking-router.go:588-672 | in every state that any run of requests reaches, two bookings of one space never satisfy the clash test; if well formed they do not share even an end point |
| Runs.LocationNeverOverbooked | server/router/booking-router.go:959-972 | under a fixed positive cap at most that many bookings of a location share a stretch of more than 60 seconds, in every reachable state |
| Runs.UserNeverOverbooked | server/router/booking-router.go:883-895 | a user whose bookings are all written by that user, not exempt and under a fixed positive limit, never has more bookings than that at any instant |
| Runs.BookingsWellFormed | server/router/booking-router.go:831-835 | where durations are checked by the hour and nobody is exempt, every reachable booking ends no earlier than it starts |
| Runs.BookingsLastAsAllowed | server/router/booking-router.go:831-835 | where bookings are made by the hour, nobody is exempt, and minimum and maximum are fixed, every reachable booking lasts at least the one, but for a second, and not a minute more than the other |
| Runs.WriteKeeps | server/router/booking-router.go:526-537 | storing a row that the rules admitted keeps each invariant |
| Runs.ShrinkKeeps | server/repository/booking-repository.go:466-482 | removing rows, or changing neither owner, place nor time, keeps each invariant |
| Runs.OccurrencesKeep | server/router/recurring-booking-router.go:248-282 | storing the occurrences of a series one by one keeps each invariant |
| Runs.RunKeeps | server/router/booking-router.go:394-672 | every run whose calls are covered keeps each invariant |
| Limits.CapHoldsIff | server/repository/booking-repository.go:741-749 | for every cap and length: in all runs at all locations with that cap, no more bookings share a stretch of that length, exactly if it is longer than 60 seconds |
| Limits.KeepsLimitIff | server/router/booking-router.go:883-895 | for every limit and each way of writing a booking: in all reachable states and surroundings such requests keep the limit of a user exactly if they come from somebody without a role or, not exempt, from that user; a series only counts for the actor |
| Limits.KeepsWellFormedIff | server/router/booking-router.go:807-837 | in all reachable states and surroundings the requests of an actor store only bookings that end no earlier than they start, exactly if durations are checked by the hour and the actor is not exempt |
| Upcoming.KeepsUpcomingIff | server/router/booking-router.go:873-881 | for every limit and each way of writing a booking: in all reachable states and surroundings such requests leave a user with no more bookings to come than allowed, exactly if, when creating, the actor has no role or, not exempt, is that user (or the limit is zero); for a series, the actor has no role, is not exempt, or is somebody else; for a change, the actor has no role and is somebody else |
| Upcoming.NeverTooManyUpcoming | server/router/booking-router.go:873-881 | in every run of such requests, as time passes, a user never has more bookings to come than the limit |
| Queries.ClashSymmetric | server/repository/booking-repository.go:669-678 | the four-clause test is symmetric, for inverted intervals too |
| Queries.ClashIsClosedOverlap | server/repository/booking-repository.go:669-678 | for well-formed intervals the four clauses mean that the closed intervals share a point |
| Queries.TimeRangeIsHalfOpenOverlap | server/repository/booking-repository.go:631-651 | for proper intervals the three clauses mean half-open overlap, including the case without a clause of its own |
| Queries.SweepSeesLongStretch | server/repository/booking-repository.go:714-751 | the sweep counts at least all bookings that share more than 60 seconds with the window |
| Queries.SweepNeverOvercounts | server/repository/booking-repository.go:714-751 | the sweep never reports more bookings than run at some instant of the window |
| Queries.SweepNeedsNoFilter | server/repository/booking-repository.go:714-751 | the query's filter drops no booking that a sample would have counted |
| Queries.SweepMissesOneMinute | server/repository/booking-repository.go:741-749 | a stretch of exactly 60 seconds can be missed |
| BookingStore.Store.SelectOrdered | server/repository/booking-repository.go:669-693 | a query result holds each matching row once, by the time it starts |
| BookingStore.Store.NumActive | server/repository/booking-repository.go:698-706 | the counting loop yields the number of rows active at the instant |
| BookingStore.Store.GetConcurrent | server/repository/booking-repository.go:697-752 | the loop over the minutes computes the largest count at a sample, and ends |
| BookingStore.Store.Create | server/repository/booking-repository.go:175-187 | adds the row under a new id |
| BookingStore.Store.Update | server/repository/booking-repository.go:407-421 | replaces the row with that id, if there is one |
| BookingStore.Store.Delete | server/repository/booking-repository.go:466-482 | removes the row, and its series exactly when no booking of it is left |
| BookingStore.Store.SelectOldest | server/repository/booking-repository.go:122-147 | picks the given number of bookings that ended first |
| BookingStore.Store.PurgeOldBookings | server/repository/booking-repository.go:120-173 | removes the oldest bookings that the retention rule lets go, up to the size of the batch, and every series left without bookings |
| BookingStore.Store.CreateSeries | server/repository/recurring-booking-repository.go:78-94 | adds the series under a new id |
| BookingStore.Store.DeleteSeries | server/repository/recurring-booking-repository.go:113-131 | removes the future bookings of the series, detaches the others, removes the series |
| Rules.AdvanceIsAWindow | server/router/booking-router.go:846-871 | without exemption the start must lie between this morning and the end of the last bookable day |
| Rules.AdvanceWhenExempt | server/router/booking-router.go:846-871 | with exemption only the past stays forbidden |
| Rules.MinimumMeaning | server/router/booking-router.go:1021-1050 | the minimum is one of full hours, of which one second may be missing by the hour |
| DailyBasis.IsValidBookingDuration | server/router/booking-router.go:807-837 | the method with its correction loop decides as specified, for days of any lengths and any time of day at the start |
| DailyBasis.HourlyAcceptedIff | server/router/booking-router.go:831-835 | by the hour a duration is accepted exactly from zero to a minute less a second above the maximum |
| DailyBasis.CivilDaysAcceptedIff | server/router/booking-router.go:807-829 | by the day, on an unchanging clock, a duration is accepted exactly if it is that of whole days within the limit, from half a minute less to half a minute short of an hour more |
| DailyBasis.FromMidnightAcceptedIff | server/router/booking-router.go:807-829 | by the day, for any day lengths, a booking from midnight into a day is accepted exactly if its hours fall short of those of the days begun by a multiple of 24, within the limit; all else is refused |
| DailyBasis.HoursOnDate | server/router/booking-router.go:839-844 | the rounded distance from 00:00:00 to 23:59:59 is the length of the day |
| DailyBasis.WholeDaysAcceptedIff | server/router/booking-router.go:807-844 | for any day lengths, a booking of whole days is accepted exactly if their number is within the limit in days rounded up: daylight saving cancels out |
| DailyBasis.CorrectionOfWholeDays | server/router/booking-router.go:817-825 | the correction is the hours spanned minus 24 for each day |
| Weekdays.WeekdaysToString | server/router/location-router.go:709-721 | prints the sorted list |
| Weekdays.WeekdaysFromString | server/router/location-router.go:723-735 | reads the numbers, skipping what is none |
| Weekdays.IsValidWeekdaysList | server/util/validation.go:125-139 | the loop accepts short strictly ascending lists of weekdays |
| Weekdays.ValidListMeaning | server/util/validation.go:125-139 | any text is valid exactly if it has at most 13 characters and its parts are weekdays in strict order |
| Weekdays.RoundTrip | server/router/location-router.go:709-735 | reading back what was printed yields the sorted permutation of the list, for all 64-bit integers |
| Weekdays.PrintedListAcceptedIff | server/router/location-router.go:401-406 | the check accepts the printed text exactly if the list is nonempty, holds weekdays only, and repeats none |
| Weekdays.IsLocationWeekdayBookable | server/router/routes.go:507-537 | the loop over the days accepts exactly if every day from that of `enter` to that just before `leave` is allowed |
| Weekdays.BookableIffEveryInstantAllowed | server/router/routes.go:526-536 | for a proper interval that means: every instant of it falls on an allowed weekday |
| Weekdays.SpacesDoNotMatter | server/router/routes.go:517-524 | white space around the numbers of a stored list does not change the days it allows |
| Weekdays.LongSpanNeedsWholeWeek | server/router/routes.go:526-536 | a span touching seven or more days passes exactly if all seven weekdays are allowed |
| Weekdays.EnforcedDaysAreListedDays | server/router/routes.go:517-524 | the days enforced are those of the administrator's list |
| Weekdays.ListToDecision | server/router/routes.go:507-537 | from the saved list to the decision: empty, or it holds the weekday of every instant |
| Recurrence.CreateBookings | server/repository/recurring-booking-repository.go:133-170 | the two loops yield the specified occurrences, or an error after 365, and end for every list of weekdays |
| Recurrence.FindStart | server/repository/recurring-booking-repository.go:144-151 | the search for the first listed weekday ends within a week at the specified day |
| Recurrence.NextTime | server/repository/recurring-booking-repository.go:172-187 | the next time stays on the list of weekdays |
| Recurrence.NextIsLeast | server/repository/recurring-booking-repository.go:172-187 | no due time lies between a due time and the next one |
| Recurrence.OccurrencesDistinct | server/repository/recurring-booking-repository.go:133-170 | for any list of weekdays, an expansion that succeeds comes to no time twice |
| Recurrence.WalkCollectsDueTimes | server/repository/recurring-booking-repository.go:153-169 | the loop collects exactly the due times, in order, or has no room for them |
| Recurrence.ExpansionIsExact | server/repository/recurring-booking-repository.go:133-187 | with ascending weekdays the expansion holds exactly the due times in strict order, or fails exactly if there are more than 365 |
| Recurrence.StartsOnFirstListedDay | server/repository/recurring-booking-repository.go:144-151 | a weekly series starts on the first listed day at the same time of day |
| Recurrence.ExactIffInOrder | server/repository/recurring-booking-repository.go:172-187 | the expansion is exact for all series with a list of weekdays exactly if the list is strictly ascending |
| Recurrence.UnorderedListFails | server/repository/recurring-booking-repository.go:176-184 | for every other list there is a series of a single moment that is expanded wrongly |
| BookingRouter.IsValidBookingRequest | server/router/booking-router.go:897-957 | decides by the organisation's rules, in their order |
| BookingRouter.IsValidConcurrent | server/router/booking-router.go:959-972 | accepts without a cap, or while the sweep stays below it |
| BookingRouter.CheckBookingCreateUpdate | server/router/booking-router.go:526-537 | the rules, the cap and the weekdays, in that order |
| BookingRouter.CreateBooking | server/router/booking-router.go:588-672 | does to the tables exactly what `Requests.Create` says, with its outcome |
| BookingRouter.UpdateBooking | server/router/booking-router.go:394-476 | likewise for a change |
| BookingRouter.ApproveBooking | server/router/booking-router.go:108-159 | likewise for an approval or its refusal |
| BookingRouter.DeleteBooking | server/router/booking-router.go:478-524 | likewise for a deletion |
| Guards.AdmittedIff | server/router/booking-router.go:897-972 | a booking is admitted exactly if it fits by its subject, duration, time, groups and weekdays, by the numbers of other bookings, and nothing is in the way |
| Guards.RefusalNamesItsReason | server/router/booking-router.go:897-972 | the reason that a refusal names is one that applies |
| Guards.CreateDoneIff | server/router/booking-router.go:588-672 | a booking is created exactly if its space is in use or administered by the actor, the actor belongs to the organisation, a required subject is given, the owner is found, and the booking is admitted |
| Guards.UpdateDoneIff | server/router/booking-router.go:394-476 | a change goes through, or is told to be in conflict, exactly under the conditions stated |
| Guards.ApproveDoneIff | server/router/booking-router.go:108-159 | a decision is taken exactly by an administrator from the approving groups, if any, within a day of the booking's end |
| Guards.DeleteDoneIff | server/router/booking-router.go:478-524 | a booking is deleted exactly by its owner or an administrator of the organisation, if it was not over before today and starts late enough |
| Guards.EarlyEnoughIff | server/router/booking-router.go:974-1019 | late enough means: exempt, or no limit, or the hours of the limit lie ahead; unreadable settings refuse |
| Guards.WithoutSettings | server/router/booking-router.go:1021-1030 | an organisation without settings takes no booking and lets none be deleted, and a required subject is asked for first |
| Effects.CreateEffect | server/router/booking-router.go:588-672 | a creation stores exactly the booking asked for, for the user it is for, or changes nothing |
| Effects.UpdateEffect | server/router/booking-router.go:394-476 | a change stores exactly what was asked for, keeps the approval and leaves the series, or changes nothing |
| Effects.ApproveEffect | server/router/booking-router.go:108-159 | an approval changes only the approval; a booking that is declined goes |
| Effects.DeleteEffect | server/router/booking-router.go:478-524 | a deletion removes the one booking, and its series exactly with the last booking of it |
| Effects.PurgeEffect | server/repository/booking-repository.go:120-173 | the clean-up removes only bookings over for 30 days and for the days of retention, and then exactly the series without bookings |
| Effects.PurgeIsThorough | server/repository/booking-repository.go:120-173 | and all such bookings, unless the batch was full |
| Histories.WrittenBookingFits | server/router/booking-router.go:526-537 | whichever request gives a booking its owner, place and time, the booking fits by the rules for whoever makes the request |
| Histories.LeavesUnusedAloneIff | server/router/booking-router.go:618-621 | in all reachable states, requests of one kind by an actor put no booking into a space that is not in use, exactly if they create a series, or create a booking for somebody without a role |
| Histories.UnusedStaysEmpty | server/router/booking-router.go:618-621 | no run of such requests puts a booking into a space that stays out of use |
| Histories.RemovedOnlyBy | server/repository/booking-repository.go:466-482 | a booking goes only by its deletion, a refusal or the clean-up, or with its series if it has not begun |
| Histories.BegunBookingsStay | server/repository/recurring-booking-repository.go:113-131 | a booking that has begun survives every run in which no request is aimed at it, deletions of its series included |
| SeriesRouter.PrecheckSeries | server/router/recurring-booking-router.go:55-119 | predicts each occurrence from the present state, storing nothing |
| SeriesRouter.CreateRecurring | server/router/recurring-booking-router.go:185-287 | stores the series and then each admitted occurrence, judged with the earlier ones in place |
| SeriesRouter.DeleteRecurring | server/router/recurring-booking-router.go:151-183 | deletes a series for its owner or an administrator |
| Guards.CreateSeriesDoneIff | server/router/recurring-booking-router.go:185-247 | a series is created exactly if its space is in use, recurring bookings are allowed, a required subject is given, the actor belongs to the organisation and has the feature, and the occurrences are not too many |
| Guards.PrecheckDoneIff | server/router/recurring-booking-router.go:55-91 | the precheck answers exactly if the space is there, the actor belongs to the organisation and has the feature, and the occurrences are not too many |
| Guards.PrecheckMarksIff | server/router/recurring-booking-router.go:93-117 | it marks an occurrence as possible exactly if it is admitted with as many bookings more to come as occurrences came before |
| Guards.DeleteSeriesDoneIff | server/router/recurring-booking-router.go:151-183 | a series is deleted exactly by its owner or an administrator, both belonging to the organisation |
| Effects.CreateSeriesEffect | server/router/recurring-booking-router.go:236-282 | creating a series adds its row and exactly the bookings of the occurrences reported as done, and leaves all else as it was |
| Effects.DeleteSeriesEffect | server/repository/recurring-booking-repository.go:113-131 | deleting a series removes exactly its bookings that have not begun; the others stay as they are, without a series, and all else stays as it is |
| Forecast.PrecheckIsSound | server/router/recurring-booking-router.go:93-117 | if the occurrences leave gaps and the creation passes its own checks, each occurrence the precheck marks as possible is stored by the creation from the same state |
| Forecast.PrecheckSoundIff | server/router/recurring-booking-router.go:55-287 | in all states every occurrence the precheck handler marks as possible is stored by the creation handler, exactly if nothing is marked even without bookings, or the creation passes its own checks, the subject is valid, and the occurrences marked without bookings leave gaps |
| Refusals.RefusalsStandIff | server/router/recurring-booking-router.go:93-117 | for a series of well-formed bookings: in all states no occurrence that the precheck marks as impossible is then stored, exactly if the creation stores nothing, the actor is exempt, or no occurrence but the first could be stored in any case |
| Forecast.AdmissionCarriesOver | server/router/recurring-booking-router.go:249-282 | rows out of the way leave an admission standing if the markup makes up for their number |
| Forecast.ShorterThanADay | server/repository/recurring-booking-repository.go:133-170 | occurrences shorter than a day leave gaps |
| Forecast.ApartByStrides | server/repository/recurring-booking-repository.go:172-187 | occurrences leave gaps exactly if each is over before the next |
| Forecast.DailyApartIff | server/repository/recurring-booking-repository.go:172-175 | a daily series leaves gaps exactly if its length is less than its cycle |
| Forecast.WeeklyApartIff | server/repository/recurring-booking-repository.go:176-187 | a weekly series of more than one round leaves gaps exactly if its length is less than every distance between neighbouring weekdays of the list, the last and the first with the skipped weeks between them included |
| Integrity.SeriesBookingsAreDue | server/router/recurring-booking-router.go:236-282 | in every reachable state a booking that names a series belongs to an existing series, its owner and space, and one of its due times |
| Integrity.RefusalLeavesNoTraceIff | server/router/recurring-booking-router.go:185-247 | a creation of a series that fails leaves the tables as they were, except exactly when it fails for the number of occurrences, that is, with weekdays in order, when more than 365 times are due; then the row of the series, without bookings, stays |
| Integrity.LeapYearIsTooLong | server/repository/recurring-booking-repository.go:153-169 | a booking on each day of a leap year is such a series |
| Integrity.DeleteUndoesCreate | server/router/booking-router.go:478-524 | deleting a booking right after creating it restores the tables |
| Integrity.DeleteUndoesCreateSeries | server/repository/recurring-booking-repository.go:113-131 | deleting a series before it begins restores the tables |
| Integrity.FreeingNeverBlocks | server/router/booking-router.go:526-537 | an admitted request stays admissible when other bookings go away |
| Integrity.StayingPutMeetsNoConflict | server/router/booking-router.go:453-463 | in a reachable state, moving a booking to where it is meets no conflict |
| Rights.ApprovalOnlyByApprover | server/router/booking-router.go:108-159 | no request takes an approval back, and only an approver's approval gives it |
| Rights.NewBookingApproval | server/router/booking-router.go:664-664 | a new booking starts approved exactly if its space asks for no approval |
| Rights.OrdinaryUserLeavesOthersAlone | server/router/booking-router.go:394-524 | a request of a user without a role changes no booking of another user |
| Rights.OrdinaryUserBooksForHimself | server/router/booking-router.go:588-672 | nor does it create one for another user |
| Rights.OthersBookingsSurvive | server/router/booking-router.go:394-524 | another user's booking survives every run of such requests unchanged |
| Utilisation.OneSpaceBound | server/repository/booking-repository.go:549-585 | disjoint bookings of a space fill at most the window |
| Utilisation.AllSpacesBound | server/repository/booking-repository.go:549-585 | the clipped bookings of all spaces fill at most window times spaces |
| Utilisation.OfferedCoversBooked | server/repository/booking-repository.go:581-584 | booked minutes, rounded, are at most the offered minutes, rounded |
| Utilisation.LoadAtMostHundred | server/repository/booking-repository.go:617-629 | without a target the load of orderly bookings is between 0 and 100 when the offer rounds well |
| Utilisation.NeverOverloadedIff | server/repository/booking-repository.go:617-629 | for a window and spaces the load cannot exceed 100 exactly if the offered minutes round to within half a percent, as 100 minutes or more always do |
| Utilisation.LoadAtMostFull | server/repository/booking-repository.go:617-629 | whatever the target, no orderly bookings give a higher load than bookings from end to end in every space |
| Utilisation.FullLoadIsReached | server/repository/booking-repository.go:617-629 | and that load is reached |
| Utilisation.OnTargetIsHundred | server/repository/booking-repository.go:621-629 | over whole weeks, exactly the target hours of each week in each space are a load of 100 |
| Utilisation.LoadAgainstTarget | server/repository/booking-repository.go:621-629 | for any window and target the load lies between the rounded percentages of the target hours and of one hour less |
| Utilisation.NoFullHourNoLoad | server/repository/booking-repository.go:621-629 | the load is undefined exactly if the target is less than an hour in all |
| Utilisation.ReachableStatesOrderly | server/repository/booking-repository.go:589-615 | the states to which this applies include all reachable ones with hourly durations |
| Availability.GetAllInTime | server/repository/space-repository.go:142-198 | one pass attaches to each space exactly its overlapping bookings, by the time they start, and reports it available exactly if there are none; for proper rows and windows the reported flag agrees with the admission of everybody who passes the rules |
| Availability.GetFreeCount | server/repository/space-repository.go:338-344 | the count is the number of free spaces, for proper rows and windows that of spaces without a conflict |
| Availability.GetFreeCountMap | server/repository/space-repository.go:326-347 | the map holds that count for every location and nothing else |
| Availability.FreeIffNoConflict | server/repository/space-repository.go:176-180 | for proper rows and windows the one-pass test finds exactly the conflicts of the space |
| BookerGroups.IsAllowedBooker | server/router/booking-router.go:916-941 | the nested loops accept exactly if the list is empty or shares a group with the user |
| BookerGroups.IsUserAllowedToBookSpace | server/router/space-router.go:333-346 | the space router's check agrees with the admission rules |
| BookerGroups.GroupTable.GetGroupIDs | server/repository/space-repository.go:440-460 | lists each group of the space once |
| BookerGroups.GroupTable.Add | server/repository/space-repository.go:462-477 | inserts all rows or, if a key repeats, none |
| BookerGroups.GroupTable.Remove | server/repository/space-repository.go:479-485 | removes exactly the given groups of the space |
| BookerGroups.GroupTable.Apply | server/router/space-router.go:682-722 | makes the groups those of the request; fails without a change exactly if the request repeats a new group |
| Sessions.AuthStore.DeleteOldestSession | server/repository/session-repository.go:140-149 | removes exactly one session, of the longest idle ones among the user's active sessions, if any |
| Sessions.AuthStore.DeleteSessions | server/repository/session-repository.go:108-132 | removes sessions together with their tokens |
| Sessions.AuthStore.CreateSession | server/router/auth-router.go:678-707 | evicts one session if the user has the maximum, then adds one |
| Sessions.AuthStore.CreateRefreshToken | server/router/auth-router.go:1323-1334 | adds a token of the session |
| Sessions.AuthStore.CreateAndSendJWT | server/router/auth-router.go:1386-1407 | a login is the specified step |
| Sessions.AuthStore.VerifyAuth | server/router/routes.go:366-389 | lets a request through exactly for an active session of the named, usable user, and counts it as activity of that session |
| Sessions.AuthStore.RefreshAccessToken | server/router/auth-router.go:246-293 | a refresh is the specified step, and yields a new token exactly if the old one is honoured |
| Sessions.AuthStore.DoLogout | server/router/auth-router.go:482-534 | a logout ends the caller's session, all of the user's, or another of the same user |
| Sessions.AuthStore.DeleteOfUser | server/repository/session-repository.go:115-120 | ends all sessions of a user |
| Sessions.AuthStore.DeleteExpiredSessions | server/repository/session-repository.go:127-132 | ends exactly the expired sessions |
| Sessions.AuthStore.DeleteExpiredTokens | server/repository/refresh-token-repository.go:83-90 | removes exactly the expired tokens and no session |
| Sessions.RemovalLeavesNoToken | server/repository/session-repository.go:108-132 | for any content, removing sessions leaves no token of a removed session and changes no other |
| Sessions.NeverTooManySessions | server/router/auth-router.go:678-707 | in every run a user's active sessions never exceed the maximum |
| Sessions.NeverTwoTokens | server/router/auth-router.go:246-293 | in every run a session has at most one refresh token |
| Sessions.RedeemedAtMostOnce | server/router/auth-router.go:246-293 | in every run a token is redeemed at most once |
| Sessions.NoTokenOutlivesItsSession | server/router/auth-router.go:246-293 | once a session is gone, no token of it is honoured again |
| Sessions.EvictionLeavesToken | server/repository/session-repository.go:140-149 | an eviction leaves the token row behind, which is not honoured |
| Tokens.LoginStarts | server/router/auth-router.go:1386-1407 | a login starts one session of ninety days and issues one token of twenty-eight |
| Tokens.SessionEndsBy | server/repository/session-repository.go:108-149 | a session ends exactly by a logout that means it, a revocation, its age, or, at the maximum, as the one idle longest |
| Tokens.SessionStaysTheSame | server/router/routes.go:366-389 | a session that stays keeps all but the time of its last activity, which moves exactly with its use |
| Tokens.TokensGoWithSessions | server/repository/session-repository.go:108-132 | a token goes with a session exactly if that is removed other than by eviction |
| Tokens.NeverMoreThanConfigured | server/router/auth-router.go:678-695 | in every run a user has at most the configured number of sessions running, or ten if none is configured |
| Tokens.RefreshNeedsFreshToken | server/router/auth-router.go:246-293 | in every run a refresh yields a token only for one that was issued at most twenty-eight days before, of a session still running, to a usable user |
| Tokens.FreshTokenIsRedeemed | server/router/auth-router.go:246-293 | conversely such a token, not used up, yields exactly one new token of the same session and user |
| Totp.ReplayCache.MarkCodeAsUsed | server/router/auth-router.go:69-86 | remembers the code and drops exactly the entries older than 90 seconds |
| Totp.ReplayCache.CheckSecondFactor | server/router/auth-router.go:597-623 | accepts a text that is not remembered and, white space around it aside, is a valid code, and remembers it as submitted |
| Totp.WindowIsNinetySeconds | server/router/auth-router.go:35-40 | a time step is valid for exactly 90 seconds |
| Totp.AcceptedForSomeStep | server/router/auth-router.go:612-620 | whatever is accepted is, but for white space around it, the code of a step whose time window is open |
| Totp.NewTextAcceptedIff | server/router/auth-router.go:597-623 | a text that the user has not submitted before is accepted exactly if, white space aside, it is the code of the present, the previous or the next step |
| Totp.EntryStays | server/router/auth-router.go:69-86 | while a step is valid the entry of the text accepted for it stays |
| Totp.NoTextAcceptedTwice | server/router/auth-router.go:597-623 | in no run is a time step of a user accepted twice for the same text |
| Totp.NoStepAcceptedTwiceIff | server/router/auth-router.go:597-623 | for a set of texts: whatever the codes are, no run over these texts accepts a time step of a user twice (RFC 6238, section 5.2), exactly if every code is written in one way only among them |
| Totp.BareCodesAcceptedOnce | server/router/auth-router.go:597-623 | so it is for the bare six digits |
| Totp.BlankMakesADifference | server/router/auth-router.go:57-67 | it is not for a code with and without a blank before it |
| SettingsCache.KeysApartIff | server/repository/settings-repository.go:68-68 | for a set of ids: no two settings share a cache key, exactly if no id begins with another one and an underscore |
| SettingsCache.KeyInjective | server/repository/settings-repository.go:68-68 | with ids of fixed length no two settings share a cache key |
| SettingsCache.SettingsStore.Set | server/repository/settings-repository.go:61-70 | writes the row and, if the cache accepts it, the entry |
| SettingsCache.SettingsStore.Delete | server/repository/settings-repository.go:72-79 | removes the row and, if the cache obeys, the entry |
| SettingsCache.SettingsStore.Get | server/repository/settings-repository.go:81-98 | with a coherent cache the answer is that of the table |
| SettingsCache.SettingsStore.GetAll | server/repository/settings-repository.go:172-191 | yields all rows of the organisation and caches them |
| SettingsCache.SettingsStore.InitDefaultSettingsForOrg | server/repository/settings-repository.go:213-253 | adds defaults for missing settings only |
| SettingsCache.CoherentIffHarmless | server/repository/settings-repository.go:61-98 | an operation keeps the cache coherent exactly if no failed cache access leaves a differing entry behind |
| SettingsCache.CacheNeverStale | server/repository/settings-repository.go:61-98 | after any run with a working cache, a cached setting is what the table holds |
| SettingsCache.AnswerIsWhatWasWritten | server/repository/settings-repository.go:61-98 | with a working cache, the answer after any run is what was set, deleted or put in by default last, as if there were no cache |
| SettingsCache.ReadIsCached | server/repository/settings-repository.go:81-98 | what has been read or set is in the cache until it is lost |
| PluginRoutes.PluginPrefixConflicts | server/app/app.go:525-532 | finds an overlap exactly if there is one |
| PluginRoutes.InitializeRouter | server/app/app.go:573-593 | the nested loops yield the specified mounts |
| PluginRoutes.MountsSeparateAndComplete | server/app/app.go:573-593 | for any plugins and prefixes the mounts overlap, as text, neither each other nor a built-in prefix, each was asked for, and a prefix is passed over only for an overlap |
| PathTemplates.SharePathsIff | server/app/app.go:585-589 | reading two prefixes as templates, step by step, decides whether any path falls under both |
| PathTemplates.ParseNamed | server/app/app.go:585-589 | text stands for itself in a template, and a name in braces for one variable |
| PathTemplates.MalformedMatchesNothing | server/app/app.go:585-589 | a prefix without a slash at the start, with a stray brace or with a nameless variable matches no path |
| PathTemplates.VariableStandsFor | server/app/app.go:585-589 | a variable stands for one or more characters other than a slash |
| PathOwners.AlwaysOneOwnerIff | server/app/app.go:573-593 | for a set of prefixes: over all configurations of plugins that ask for these, no path reaches two plugins, or a plugin and a built-in prefix, exactly if the comparison of texts sees every shared path among those prefixes that get past the built-in ones |
| PathOwners.PlainPrefixesHaveOneOwner | server/app/app.go:573-593 | so it is for all prefixes without braces, beside the built-in routes |
| PathOwners.VariableIsNotSeen | server/app/app.go:525-532 | it is not with a variable: `/{x}/` and `/foo/` are both mounted and share the path `/foo/a` |
| PluginRoutes.LaterPluginsTakeNothing | server/app/app.go:574-593 | what a plugin gets depends only on those before it |
| PluginRoutes.NewBuild | server/app/app.go:574-593 | when a plugin is reached late and none of its new mounts overlaps one of a later plugin, the new build is the old one with these mounts put in |
| PluginRoutes.MountsStayIff | server/app/app.go:574-593 | for all plugins, when one is reached late: every mount of the old build is in the new one exactly if no mount of a later plugin overlaps what that plugin now gets |
| PluginRoutes.EarlierPluginTakesOver | server/app/app.go:574-593 | the two-plugin case in which a prefix in use is taken over |
| PluginRoutes.EmptyPrefixNeverMounted | server/app/app.go:525-532 | an empty prefix overlaps every built-in one and is never mounted |
| PluginRoutes.App.ResolvePluginRoutes | server/app/app.go:411-432 | routes once known never change |
| PluginRoutes.App.EnsureRoutes | server/app/app.go:219-226 | unknown routes are fetched and mounted by a new build of the router |
| PluginRoutes.App.RegisterPluginOnConnect | server/app/app.go:211-240 | a plugin becomes ready exactly if every part of the sequence succeeds, with known routes, mounted and registered, and is registered at most once |
| PluginRoutes.App.ConnectionLost | server/app/app.go:193-201 | a lost connection only takes the plugin out of service |
| PluginRoutes.KnownRoutesAreSettled | server/app/app.go:573-593 | after a build every known prefix is served or overlaps another |

## Left out

- HTTP decoding, JSON, status codes, middleware, mail, calendar and plugin callbacks: they decide nothing that is modelled here.
- SQL text and database errors: each query is a predicate over rows or an update of the tables, and succeeds, except for violated keys in `BookerGroups`.
- Concurrent requests: checks and inserts are not in one transaction, so the invariants are about sequential runs.
- Time zones: one fixed offset per location, except in `DailyBasis`, where each day has an abstract whole-hour length and each step to the same time of the next day an abstract one.
- Fractions of a second in bookings: times are whole seconds, as the clients send them.
- Changes of a space's location or of a cap in mid-run: `Runs.LocationNeverOverbooked` takes them as fixed. Other settings may change between requests.
- Sessions: the activity update of a request takes effect with the request, not some time after it.
- The creation of missing users when booking for somebody else: the outcome of the lookup is a parameter of the request.
- Joins with the users table: every booking is taken to have an existing user.
- Characters stand for bytes in subjects; mail, reminder and calendar columns of bookings are not kept.
- The single-location precheck of a booking without a space: it is `Rules.Check` with an empty space and has no handler of its own.
- `Queries.GetUpcoming` takes the clock as one reading for the whole request.
- Sessions: the signing of access tokens, devices, and the user row beside the session are not part of this model; the clock is read once per request.
- One-time passwords: the digest that turns a key into a fixed length is not part of this model, nor is the cryptography behind the codes; the validation library is taken to ignore white space around a code. Enrolment (server/router/user-router.go:309-325) accepts a code without remembering it, so the step it used can be accepted once more at a login; the results are about logins.
- `PathTemplates.Parse` follows the documented reading of route templates; the routing library is not part of this model. A variable with a pattern of its own is read as one without.
- The plugin's list of unauthorized routes and the waiting for its connection are not part of this model; a connection is an event with the answers it brings.
- Statistics by weekday and the presence report: sums and counts without a property across functions.
- `Utilisation.CalcLoad` uses exact real numbers where the server uses 64-bit floating point; with no time to fill it yields nothing, where the server's result is undefined.
- Recurring bookings with an unknown cadence: the request validator lets only daily and weekly ones through.
