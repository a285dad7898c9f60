# Barbershop booking: verified model of the availability and calendar core

This project is a Dafny model of a small barbershop booking web application.
Clients sign in, give an Israeli mobile number, pick one of the next few
open dates, and book or move a half-hour slot. The barber (the admin) blocks
whole days or ranges of slots, bulk-unblocks everything from today on, and
sees a dashboard of counts and a sorted list of reservations.

The remote real-time database is modelled as an in-memory object,
`FirebaseService.Database`. Its fields are the three nodes the application
writes: `reservations` (id to record), `blockedDays` and `blockedTimeSlots`
(date to set of `HH:MM` times). Each service call is a method whose
contract gives the complete new state. The React handlers become methods
that take the store and their inputs and return an outcome:

- the live snapshot the page holds;
- the clock reading;
- the user's answer to a confirmation dialog;
- a fresh-key oracle for the store's push key;
- a set of the items whose write fails.

Alerts and messages are outcome values.

Modules, one per source file, plus three shared ones:

- `Wrappers`: `Option` and `Result`.
- `Collections`: `Array.prototype.filter` over any element type, and the least element and ascending listing of a finite set under a strict total order.
- `Strings`: digits, shape checks and code-point order.
  - `IsHHMM` is the two-digit `HH:MM` shape.
  - `IsYMD` is the `YYYY-MM-DD` shape, i.e. the extended calendar-date form of section 4.1.2.2 of ISO 8601. Only the shape is checked, not month or day ranges, as the source does.
  - `StrLt` is lexicographic order on code points, which stands for the UTF-16 code-unit order of JavaScript `<` on strings. It is proved irreflexive, asymmetric, transitive and total.
  - `SortedStrings` is the ascending listing of a finite set.
- `TimeOfDay`:
  - `timeToMinutes`;
  - the 21-entry half-hour grid from 09:00 to 19:00, which appears both in `src/App.tsx` and in `src/components/AdminTimeSlotBlocker.tsx`, with its arithmetic.
- `FirebaseService`:
  - the reservation record;
  - the legacy 12-hour clock normaliser `convertAMPMToHHMM`;
  - the validation that `createReservation` applies;
  - the snapshot filters of `getReservations`, `getBlockedDays` and `getBlockedTimeSlots`;
  - the store class with its queries (`isTimeSlotBooked`, `isTimeSlotAvailable`, `getUserReservationForDate`) and its guarded writers.
- `App`:
  - the five-date window generator;
  - the selected-date fallback;
  - the phone dialog's normaliser;
  - the client-side reservation predicates;
  - the booking and cancel handlers.
- `ClientPage`:
  - Hebrew day names;
  - `isTimeInPast`;
  - the label and disabled chain of each time button;
  - the page's date and time selection state.
- `AdminDayBlocker`: guarded block and unblock, the displayed future list, and the sequential bulk unblock.
- `AdminTimeSlotBlocker`:
  - range-to-slots expansion;
  - direct unblock;
  - the displayed future (date, time) list;
  - bulk unblock;
  - the end-time options and their correction.
- `AdminDashboard`: the today and upcoming counts, the date-then-time sorted list, and `formatTelLink`.

Dates stay ISO strings, as in the source, and are compared in code-point order.
For valid `YYYY-MM-DD` strings this order is calendar order. The date window
takes its inputs as a `Calendar` value: today's ISO string, today's weekday
and the ISO strings of the next 30 days. The generator's loop is then the
same bounded scan as the source's. `localeCompare` on the dashboard's dates and
times is also modelled as code-point order; on strings of one shape made of
digits and separators the two agree, and on `HH:MM` strings with minutes
below 60 it is the order of minutes.

## Model

| member | source | states |
|---|---|---|
| Collections.FilterMembers | src/components/AdminTimeSlotBlocker.tsx:59-65 | `filter` keeps an element exactly when it occurs in the input and the test accepts it |
| Collections.FilterCount | src/components/AdminDashboard.tsx:42-43 | `filter` keeps every accepted element as often as it occurs and drops every other one |
| Collections.FilterConcat | src/components/AdminDashboard.tsx:60 | filtering a concatenation is the concatenation of the filtered parts |
| Collections.FilterAll | src/components/AdminTimeSlotBlocker.tsx:134-138 | a filter that accepts every element returns its input unchanged |
| Collections.FilterNone | src/components/AdminTimeSlotBlocker.tsx:59-65 | a filter that accepts no element returns the empty list |
| Collections.FilterBlock | src/components/AdminTimeSlotBlocker.tsx:59-65 | when the test accepts exactly the positions i..j, the filter returns that run of the input, in order |
| Collections.LeastExists | src/components/AdminDayBlocker.tsx:76 | a non-empty finite set under a transitive total order has an element before every other one |
| Collections.SortedByCorrect | src/components/AdminDayBlocker.tsx:73-77 | sorting a set gives exactly its elements, in strictly ascending order |
| Strings.StripNonDigits | src/App.tsx:44 | removing every non-digit leaves only digits, never lengthens, and keeps an all-digit string unchanged |
| Strings.StripNonDigitsAppend | src/App.tsx:44 | stripping distributes over concatenation, so separators between digit groups vanish |
| Strings.FindHHMM | src/components/AdminTimeSlotBlocker.tsx:14 | finds the leftmost position holding a `\d{2}:\d{2}` match, or reports that none exists |
| Strings.FindHHMMLeftmost | src/components/AdminTimeSlotBlocker.tsx:14 | no match lies before the position found, and none is found exactly when the string holds no match from the start position on |
| Strings.StrLtTransitive | src/components/AdminDayBlocker.tsx:76 | the string order used for dates and sorting is transitive |
| Strings.StrLtTotal | src/components/AdminDayBlocker.tsx:76 | any two distinct strings are ordered one way or the other |
| Strings.StrLtOrders | src/components/AdminDayBlocker.tsx:76 | code-point order is a strict total order on every set of strings |
| Strings.LeastString | src/services/firebase-service.ts:136-152 | the least key of a non-empty set is in the set and not after any other key |
| Strings.LeastStringExists | src/components/AdminDayBlocker.tsx:76 | every non-empty finite set of strings has a least element |
| Strings.SortedStrings | src/components/AdminDayBlocker.tsx:73-77 | the ascending listing of a set has exactly the set's elements, one each, strictly increasing |
| TimeOfDay.TimeToMinutes | src/components/AdminTimeSlotBlocker.tsx:13-17 | on `HH:MM` input it is HH*60+MM; any other value is within 0..99*60+99 |
| TimeOfDay.NoMatchIsMinusOne | src/components/AdminTimeSlotBlocker.tsx:14-15 | the result is -1 exactly when the string contains no two-digits-colon-two-digits match |
| TimeOfDay.GridSlot | src/components/AdminTimeSlotBlocker.tsx:5-10 | grid entry i is well-formed and falls 540 + 30*i minutes after midnight |
| TimeOfDay.GridIncreasing | src/components/AdminTimeSlotBlocker.tsx:5-10 | the grid is strictly increasing in minutes |
| TimeOfDay.GridWellFormed | src/components/AdminTimeSlotBlocker.tsx:5-10 | every grid entry has the `HH:MM` shape |
| FirebaseService.SkipSpaces | src/services/firebase-service.ts:37 | skips exactly the run of `\s` characters at the position |
| FirebaseService.FindClock | src/services/firebase-service.ts:37-38 | when no 12-hour reading occurs from the start position on, nothing is found |
| FirebaseService.FindClockLeftmost | src/services/firebase-service.ts:37-38 | a found reading is the match at the leftmost position that has one |
| FirebaseService.Hours24 | src/services/firebase-service.ts:43-47 | 12 AM becomes 0, a PM hour below 12 gains 12, every other hour is kept |
| FirebaseService.ConvertAMPMToHHMM | src/services/firebase-service.ts:33-50 | empty gives empty; `HH:MM` input is returned unchanged; otherwise the result is the input when no 12-hour reading is found and an `HH:MM` string when one is |
| FirebaseService.ConvertOptionalTime | src/services/firebase-service.ts:34 | a missing (null or undefined) time converts to the empty string |
| FirebaseService.ConvertIdempotent | src/services/firebase-service.ts:33-50 | converting twice gives the same string as converting once |
| FirebaseService.TwelveHourForm | src/services/firebase-service.ts:42-49 | for `h:MM<spaces>AM/PM`, 12 AM gives `00:MM`, 12 PM gives `12:MM`, h PM below 12 gives the padded h+12, h AM below 12 gives the padded h, and the minutes are kept |
| FirebaseService.TwelveHourTextMatches | src/services/firebase-service.ts:37 | a rendered 12-hour time is not `HH:MM` and its first match is the rendered reading |
| FirebaseService.TailMatches | src/services/firebase-service.ts:37 | after the hour, `:MM`, any spaces and AM/PM in any letter case are read as that reading |
| FirebaseService.ValidateReservationTime | src/services/firebase-service.ts:53-62 | a time is accepted iff it is non-empty and `HH:MM` after conversion; the errors are missing time or the converted string, and an `HH:MM` input is kept unchanged |
| FirebaseService.FromSnapshot | src/services/firebase-service.ts:79-88 | a record read back keeps its fields, gets its key as id when it has none, gets `00:00` when it has no time, and otherwise gets `convertAMPMToHHMM` of its time, which is `HH:MM` or the time unchanged |
| FirebaseService.BlockedDaysFromSnapshot | src/services/firebase-service.ts:188-196 | the blocked-day set is exactly the keys whose value is true and which have the `YYYY-MM-DD` shape |
| FirebaseService.TimesFromNode | src/services/firebase-service.ts:221-230 | a date node yields exactly the times flagged true that normalise to `HH:MM` |
| FirebaseService.BlockedSlotsFromSnapshot | src/services/firebase-service.ts:210-239 | the map keeps exactly the well-shaped dates with at least one valid time, each with exactly its valid times |
| FirebaseService.Database.constructor | src/services/firebase-service.ts:30 | a fresh store holds no reservations and no blocked days or slots |
| FirebaseService.Database.CreateReservation | src/services/firebase-service.ts:52-71 | success iff the time validates and a key was generated; then the record is saved under that key with its id equal to the key; every failure leaves the store unchanged and names its cause |
| FirebaseService.Database.DeleteReservation | src/services/firebase-service.ts:95-99 | an empty id is refused; otherwise exactly that key is removed |
| FirebaseService.Database.IsTimeSlotBooked | src/services/firebase-service.ts:101-114 | true for a malformed time, otherwise true exactly when some reservation on the date has that normalised time |
| FirebaseService.Database.IsTimeSlotAvailable | src/services/firebase-service.ts:116-134 | false for a malformed time; true means the slot is free or held by the caller; false means someone else holds it |
| FirebaseService.Database.GetUserReservationForDate | src/services/firebase-service.ts:136-152 | none exactly when the user holds nothing on the date; otherwise the user's reservation there with the least key, the one a key-ordered scan meets first, as read back |
| FirebaseService.Database.BlockDay | src/services/firebase-service.ts:197-202 | a malformed date is refused with no write; otherwise the date joins the blocked set |
| FirebaseService.Database.UnblockDay | src/services/firebase-service.ts:203-208 | a malformed date is refused with no write; otherwise the date leaves the blocked set |
| FirebaseService.Database.BlockTimeSlot | src/services/firebase-service.ts:241-246 | a malformed date or time is refused, the date checked first; otherwise the time joins the date's node |
| FirebaseService.Database.UnblockTimeSlot | src/services/firebase-service.ts:248-253 | a malformed date or time is refused; otherwise the time leaves the date's node, which disappears when emptied |
| FirebaseService.WithSlot | src/services/firebase-service.ts:241-246 | adding a slot creates or extends that date's node and leaves every other date alone |
| FirebaseService.WithoutSlot | src/services/firebase-service.ts:248-253 | removing a slot shrinks only that date's node and drops it once empty |
| App.ScanShape | src/App.tsx:186-211 | the scan keeps at most the remaining quota of offsets, all eligible, inside the 30-day horizon and strictly increasing |
| App.ScanNoGap | src/App.tsx:186-211 | the scan skips no eligible offset inside the horizon below an offset it keeps |
| App.ScanExhaustive | src/App.tsx:186-211 | when fewer than the remaining quota are kept, every eligible offset inside the horizon is kept |
| App.SkipDay | src/App.tsx:190-200 | a day is skipped exactly when it is before today, a hidden Friday or Saturday, or blocked |
| App.ScanEntriesStep | src/App.tsx:186-211 | an eligible offset puts its date first and counts against the quota; any other offset adds nothing |
| App.WindowProperties | src/App.tsx:182-213 | at most 5 dates, each at an offset in 0..29 and not before today, not a Saturday and not blocked; they are the first eligible dates of the horizon |
| App.WindowIncreasing | src/App.tsx:182-213 | with increasing calendar labels, the window's dates are strictly increasing |
| App.GenerateNextFiveDays | src/App.tsx:182-213 | the while loop over count and offset returns exactly the window |
| App.SelectedDateFallback | src/App.tsx:223-232 | with a non-empty window the selected date ends up in it; a selected date already in it is kept; any change selects the first entry |
| App.CleanPhone | src/App.tsx:44-45 | the cleaned input is digits only: the input's digits without their first three when they start with 972, and all of them otherwise |
| App.NormalizePhone | src/App.tsx:42-53 | accepted iff the cleaned input is `05` plus 8 digits or `5` plus 8 digits; an accepted number is always `05` plus 8 digits and keeps the input's last nine digits |
| App.IsIsraeliMobileInput | src/App.tsx:43 | the accepted inputs: `05` plus eight digits, or `5` plus eight digits |
| App.IsStoredMobile | src/App.tsx:51 | the stored form: `05` plus eight digits |
| App.InitialPhoneInput | src/App.tsx:40 | the prefill is the stored number without its leading 0, or the number as it is when it has none |
| App.NormalizeStored | src/App.tsx:42-53 | a stored number normalises to itself |
| App.PrefilledRoundTrip | src/App.tsx:40-53 | submitting the dialog's prefilled input (the stored number without its `0`) gives back the stored number |
| App.NormalizeFivePrefixed | src/App.tsx:50 | nine cleaned digits starting with 5 are stored with a leading 0 |
| App.InternationalForm | src/App.tsx:44-50 | `+972` followed by a 5-prefixed number in groups with any separators normalises to `0` plus those nine digits, e.g. `+972 50-123-4567` to `0501234567` |
| App.StripInternational | src/App.tsx:44 | stripping a country code and grouped digits leaves `972` and the digits |
| App.CleanInternational | src/App.tsx:45 | an input whose digits are 972 plus d cleans to d |
| App.PhoneExampleNoLeadingZero | src/App.tsx:50 | `501234567` normalises to `0501234567` |
| App.PhoneInputModal.constructor | src/App.tsx:40-41 | the dialog opens with the stored number less its leading 0, an absent number as the empty string, and no error |
| App.PhoneInputModal.HandleInputChange | src/App.tsx:59 | typing keeps only the digits of the typed text, never more characters than were typed |
| App.PhoneInputModal.HandleSubmit | src/App.tsx:42-53 | a valid input submits its normalised number and clears the error; an invalid one submits nothing and sets the error |
| App.UserReservationFor | src/App.tsx:275-277 | the first reservation in the list held by the signed-in user on the selected date, and none exactly when there is no such reservation or user |
| App.IsReservedByCurrentUser | src/App.tsx:279-281 | a slot is the user's own when the user's reservation found for the date has that time |
| App.IsReservedByOthers | src/App.tsx:283-285 | a slot is taken by others when some reservation on the date at that time belongs to another user, or to anyone when nobody is signed in |
| App.FindHeld | src/App.tsx:276 | finds the first entry held by the user on the date |
| App.OwnAndOthersExclusive | src/App.tsx:279-285 | when no slot is double-booked, a slot cannot be both the user's own and someone else's |
| App.ClearedHoldsNothing | src/App.tsx:243-244 | with one reservation per user per date, deleting the user's reservation on the date leaves none there and removes no other record |
| App.SlotIsPast | src/App.tsx:239-241 | a well-formed slot is past when its date is before today, or is today at or before the current minute |
| App.IsBlocked | src/App.tsx:236 | a slot is blocked when its whole day is blocked or the time is blocked on that day |
| App.RebookedProperties | src/App.tsx:243-245 | replacing the user's reservation for a date keeps one-per-user-per-date, leaves exactly the new record for the user there, and keeps every other record |
| App.HandleReservation | src/App.tsx:234-249 | no user or phone, a blocked day or slot, a past slot, a malformed time (refused as unavailable), or a slot held by someone else each leaves the store unchanged; a missing push key fails only for a well-formed time, after the user's earlier reservation is removed; a booking removes the user's earlier reservation for the date, saves the new record under the fresh key, and keeps every other record |
| App.HandleCancelUserReservation | src/App.tsx:258-266 | without a user nothing happens; otherwise the user's reservation found for the date is removed, or nothing changes when there is none |
| App.HandleDeleteReservation | src/App.tsx:251-256 | an empty id changes nothing; otherwise exactly that reservation is removed |
| ClientPage.HebrewDayName | src/components/ClientPage.tsx:53-56 | indices 0..6 give the non-empty Hebrew name, any other index the empty string |
| ClientPage.CivilWeekday | src/components/ClientPage.tsx:72-75 | the Gregorian weekday of a (year, month, day) triple, in 0..6 |
| ClientPage.LeapDaysStep | src/components/ClientPage.tsx:72-75 | the leap-day count grows by one exactly at a Gregorian leap year |
| ClientPage.NextDay | src/components/ClientPage.tsx:72-75 | the day after a valid date is again a valid date: the next day, the first of the next month, or 1 January |
| ClientPage.WeekdayAdvances | src/components/ClientPage.tsx:72-75 | consecutive calendar days, across month ends, February in leap and common years, and year ends, have consecutive weekdays; with WeekdayExample this fixes every date's weekday |
| ClientPage.DaysInMonth | src/components/ClientPage.tsx:72-75 | every month has 28 to 31 days, February 29 in a leap year |
| ClientPage.WeekdayOfIsoDate | src/components/ClientPage.tsx:72-75 | a weekday is found exactly for a `YYYY-MM-DD` string with month 1..12 and day 1..31, and it is the civil weekday of that year, month and day |
| ClientPage.WeekdayExample | src/components/ClientPage.tsx:69-79 | 2025-06-13 is a Friday, "שישי" |
| ClientPage.WithHebrewNames | src/components/ClientPage.tsx:69-79 | each generated date keeps its position and gets the Hebrew name of its weekday, or the empty name exactly when its weekday cannot be computed |
| ClientPage.IsTimeInPast | src/components/ClientPage.tsx:120-132 | never past for a date other than today; past for an unparsable time on today; otherwise past iff at or before the current minute |
| ClientPage.StatusOf | src/components/ClientPage.tsx:183-187 | each button gets the first label that applies: past, admin-blocked, yours, taken, newly selected, else open |
| ClientPage.Disabled | src/components/ClientPage.tsx:178 | a button is disabled when its slot is past, taken by others or admin-blocked |
| ClientPage.PastAgreesWithHandler | src/components/ClientPage.tsx:120-132 | on today and a well-formed time, the page's past test agrees with the booking handler's |
| ClientPage.PastIsDownwardClosed | src/components/ClientPage.tsx:120-132 | if a grid slot is past, every earlier grid slot is past |
| ClientPage.DisabledByStatus | src/components/ClientPage.tsx:175-190 | with first-match labels, a button is disabled exactly when labelled past, admin-blocked or taken, or when it is the user's own slot and someone else also holds it |
| ClientPage.OwnAndSelectedEnabled | src/components/ClientPage.tsx:178-183 | without double booking, the user's own slot is never disabled, and a newly selected slot is enabled and only exists while the user holds nothing on the date |
| ClientPage.ActionButtonsExclusive | src/components/ClientPage.tsx:196-203 | confirm and cancel never show together, and on a blocked day neither does the grid |
| ClientPage.Page.constructor | src/components/ClientPage.tsx:59-66 | a new page has the shell's date, no selected time and no dates |
| ClientPage.Page.Regenerate | src/components/ClientPage.tsx:81-90 | regeneration names the dates, clears the selected time, and moves the date to the first generated one when it is missing from a non-empty list |
| ClientPage.Page.HandleDateSelection | src/components/ClientPage.tsx:92-94 | a blocked date changes nothing; any other date is selected and the time cleared |
| ClientPage.Page.HandleTimeSelection | src/components/ClientPage.tsx:96-103 | without a reservation a time is only selected; the held time is a no-op; another time rebooks only when confirmed |
| ClientPage.Page.HandleConfirmClick | src/components/ClientPage.tsx:114-118 | a pending time with no reservation is booked and cleared; otherwise nothing happens |
| ClientPage.Page.HandleCancelClick | src/components/ClientPage.tsx:105-112 | cancels exactly when a reservation exists and is confirmed, then clears the selected time |
| AdminDayBlocker.HandleBlockDateAction | src/components/AdminDayBlocker.tsx:34-53 | an empty or malformed date and an already blocked date are refused without a write; any other date is blocked |
| AdminDayBlocker.HandleUnblockDateFromList | src/components/AdminDayBlocker.tsx:55-71 | a date that is not blocked is refused without a write; otherwise it is unblocked |
| AdminDayBlocker.DisplayedBlockedDays | src/components/AdminDayBlocker.tsx:73-77 | exactly the blocked dates not before today, ascending without repetition |
| AdminDayBlocker.HandleUnblockAllFutureDays | src/components/AdminDayBlocker.tsx:79-111 | an empty list makes no call; once confirmed, every listed date is tried once in order, failures are counted without stopping, the counts add up to the list length, and exactly the succeeding dates leave the store |
| AdminDayBlocker.BulkExample | src/components/AdminDayBlocker.tsx:88-100 | three dates with the second failing give 2 unblocked and 1 failed |
| AdminDayBlocker.BulkUnblockClearsFuture | src/components/AdminDayBlocker.tsx:79-111 | when no call fails, bulk unblock leaves exactly the blocked days before today |
| AdminTimeSlotBlocker.WithSlotHas | src/services/firebase-service.ts:241-246 | blocking adds exactly one (date, time) pair |
| AdminTimeSlotBlocker.WithoutSlotHas | src/services/firebase-service.ts:248-253 | unblocking removes exactly one (date, time) pair |
| AdminTimeSlotBlocker.SlotsToBlockMembers | src/components/AdminTimeSlotBlocker.tsx:59-64 | a slot is selected iff it is on the grid, its minutes lie in [start, end], and it is not already blocked on the date |
| AdminTimeSlotBlocker.CollectSlotsToBlock | src/components/AdminTimeSlotBlocker.tsx:59-64 | the loop over the grid collects exactly the selection, in grid order |
| AdminTimeSlotBlocker.RangeOfGrid | src/components/AdminTimeSlotBlocker.tsx:59-64 | a range between grid slots i and j selects grid entries i..j |
| AdminTimeSlotBlocker.RangeExample | src/components/AdminTimeSlotBlocker.tsx:59-64 | 10:00 to 11:00 selects 10:00, 10:30 and 11:00 |
| AdminTimeSlotBlocker.RepeatSelectsNothing | src/components/AdminTimeSlotBlocker.tsx:62-70 | once the selected slots are blocked, the same range selects nothing |
| AdminTimeSlotBlocker.BlockEach | src/components/AdminTimeSlotBlocker.tsx:71-74 | every slot is written; a failure is reported iff some write fails; exactly the successful slots join the date |
| AdminTimeSlotBlocker.HandleBlockRange | src/components/AdminTimeSlotBlocker.tsx:50-76 | no date, a missing or malformed time, or start after end is rejected without writes; otherwise exactly the selected slots are written, an empty selection is reported, and only successful writes change the store |
| AdminTimeSlotBlocker.BlockRangeIdempotent | src/components/AdminTimeSlotBlocker.tsx:62-70 | after a successful range block, repeating the range selects nothing to write |
| AdminTimeSlotBlocker.HandleDirectUnblock | src/components/AdminTimeSlotBlocker.tsx:78-85 | a well-formed pair is removed and nothing else changes; a malformed one changes nothing |
| AdminTimeSlotBlocker.TimeBeforeTransitive | src/components/AdminTimeSlotBlocker.tsx:94 | the time order of the list is transitive |
| AdminTimeSlotBlocker.TimeBeforeTotal | src/components/AdminTimeSlotBlocker.tsx:94 | the time order is total and asymmetric on distinct strings |
| AdminTimeSlotBlocker.TimeBeforeOrders | src/components/AdminTimeSlotBlocker.tsx:94 | the time order is a strict total order on every set of times |
| AdminTimeSlotBlocker.GridTimesTieFree | src/components/AdminTimeSlotBlocker.tsx:94 | two grid slots with equal minutes are the same slot, so the comparator never ties on grid times |
| AdminTimeSlotBlocker.MinuteTieExample | src/components/AdminTimeSlotBlocker.tsx:94 | off the grid the comparator can tie: 09:75 and 10:15 are both `HH:MM` and fall on the same minute |
| AdminTimeSlotBlocker.SortedTimes | src/components/AdminTimeSlotBlocker.tsx:93-94 | one date's times, listed in time order, exactly once each |
| AdminTimeSlotBlocker.PairsOf | src/components/AdminTimeSlotBlocker.tsx:92-96 | the flattened list holds exactly the blocked pairs of the listed dates |
| AdminTimeSlotBlocker.PairsOrdered | src/components/AdminTimeSlotBlocker.tsx:89-96 | for increasing dates, the flattened list is ordered by date and then by time |
| AdminTimeSlotBlocker.DisplayedBlockedSlots | src/components/AdminTimeSlotBlocker.tsx:87-98 | exactly the blocked pairs dated today or later, sorted by date and then by time, without repetition |
| AdminTimeSlotBlocker.HandleUnblockAllFutureSlots | src/components/AdminTimeSlotBlocker.tsx:100-132 | an empty list makes no call; once confirmed, one call per listed pair, the counts add up to the list length, and exactly the succeeding pairs are removed |
| AdminTimeSlotBlocker.BulkUnblockClearsFuture | src/components/AdminTimeSlotBlocker.tsx:100-132 | when no call fails, bulk unblock leaves exactly the blocked pairs before today |
| AdminTimeSlotBlocker.AtOrAfterMembers | src/components/AdminTimeSlotBlocker.tsx:134-138 | an end-time option is offered iff it is on the grid at or after the start |
| AdminTimeSlotBlocker.FilteredEndTimes | src/components/AdminTimeSlotBlocker.tsx:134-138 | the offered end times are exactly the grid slots at or after the start |
| AdminTimeSlotBlocker.FilteredEndTimesOfGridStart | src/components/AdminTimeSlotBlocker.tsx:134-138 | with a grid start time, the options are the grid from that slot on |
| AdminTimeSlotBlocker.FirstAtOrAfter | src/components/AdminTimeSlotBlocker.tsx:140-147 | the corrected end is a grid slot, not before the start whenever some slot is not, and at or after the start's position for a grid start |
| AdminTimeSlotBlocker.IndexOf | src/components/AdminTimeSlotBlocker.tsx:144 | the first index holding the string, or -1 exactly when absent |
| AdminTimeSlotBlocker.TimeRangeForm.constructor | src/components/AdminTimeSlotBlocker.tsx:33-34 | the form starts at the grid's first and last slots |
| AdminTimeSlotBlocker.TimeRangeForm.CorrectEndTime | src/components/AdminTimeSlotBlocker.tsx:140-147 | an end before the start or outside the grid from the start's position becomes the first offered end time, or the last grid slot when none is offered; any other end is kept; afterwards the end is at or after the start whenever some grid slot is |
| AdminDashboard.CountsPartition | src/components/AdminDashboard.tsx:42-43 | the today and upcoming counts, plus the earlier reservations, add up to all reservations, and no reservation is counted as both |
| AdminDashboard.TodayResCount | src/components/AdminDashboard.tsx:42 | today's count is at most the number of reservations, and zero exactly when none is dated today |
| AdminDashboard.UpcomingResCount | src/components/AdminDashboard.tsx:43 | the upcoming count is at most the number of reservations, and zero exactly when none is dated after today |
| AdminDashboard.KeyNotLtTransitive | src/components/AdminDashboard.tsx:60-61 | not-before in date-then-time order is transitive |
| AdminDashboard.InsertPermutation | src/components/AdminDashboard.tsx:60-61 | insertion adds exactly the one element |
| AdminDashboard.SnocSorted | src/components/AdminDashboard.tsx:60-61 | appending an entry that belongs after every entry keeps the list sorted |
| AdminDashboard.AfterInsert | src/components/AdminDashboard.tsx:60-61 | an entry that belongs after every element and after the inserted one belongs after the whole result |
| AdminDashboard.InsertSorted | src/components/AdminDashboard.tsx:60-61 | insertion into a sorted list keeps it sorted |
| AdminDashboard.SortByDateTimeCorrect | src/components/AdminDashboard.tsx:60-61 | the sort orders by date, then time, and is a permutation of its input |
| AdminDashboard.SortKeepsMembers | src/components/AdminDashboard.tsx:61 | sorting neither adds nor loses an element |
| AdminDashboard.SortedReservations | src/components/AdminDashboard.tsx:59-62 | the table lists exactly the reservations dated yesterday or later, and no more entries than the input has |
| AdminDashboard.SortedReservationsSpec | src/components/AdminDashboard.tsx:59-62 | the list is sorted by date and time and is a permutation of the reservations dated yesterday or later |
| AdminDashboard.FormatTelLink | src/components/AdminDashboard.tsx:64-68 | empty input gives the empty string; every result is either the digits-only string or `+` followed by digits starting with 972 |
| AdminDashboard.PlusBranchUnreachable | src/components/AdminDashboard.tsx:67 | the digits-only string never starts with `+`, so that branch cannot be taken |
| AdminDashboard.TelLinkCases | src/components/AdminDashboard.tsx:65-67 | on the digits of a non-empty number: an `05` ten-digit form and a `5` nine-digit form get `+972` before the national digits, twelve or more digits starting with 972 get a `+`, and anything else links as the bare digits |
| AdminDashboard.GlobalNumberFixed | src/components/AdminDashboard.tsx:67 | a `+972…` number of at least twelve digits is its own link |
| AdminDashboard.TelLinkOfStored | src/components/AdminDashboard.tsx:65-66 | a number whose digits, with separators dropped, are a stored `05XXXXXXXX` becomes the global number `+9725XXXXXXXX` of section 5.1.4 of RFC 3966 |
| AdminDashboard.TelLinkOfNineDigits | src/components/AdminDashboard.tsx:66 | the nine-digit form `5XXXXXXXX` gives the same link as the ten-digit form |
| AdminDashboard.TelLinkOfNormalized | src/App.tsx:50-53 | every number the phone dialog accepts has a `+972` link |
| AdminDashboard.TelLinkIdempotent | src/components/AdminDashboard.tsx:64-68 | formatting a link again changes nothing |

## Left out

- Rendering: JSX, CSS, `useEffect`/`useMemo` wiring, loading flags, `setTimeout` message clearing, `alert` and `window.confirm`. The confirmation dialog is a boolean input.
- Firebase SDK calls (`ref`, `set`, `remove`, `push`, `get`, queries) and `serverTimestamp`: the store is an in-memory object, the push key a parameter, and a lost write a per-item failure set.
- `onValue` subscriptions and their cross-stream ordering: handlers receive the live snapshot as parameters.
- Iteration order of the keys under a store node: left open, as in the store. Contracts hold for every order.
- FirebaseService.Database.IsTimeSlotAvailable: it does not fix which of several matching reservations decides, because key order is left open.
- FirebaseService.Database.GetUserReservationForDate: keys are ordered by code points. The store's special ordering of integer-like keys is not modelled; generated push keys are never integer-like.
- Google sign-in, the auth routing and `ADMIN_UID`, `saveUserPhoneNumber`/`getUserPhoneNumber`, and the news publisher: thin SDK wrappers with no availability logic. src/components/LoginPage.tsx, src/components/OpenInExternalBrowserPage.tsx, src/components/AdminNewsPublisher.tsx and src/firebase.ts are not part of this model.
- The dashboard's `handleCancelClick`: only a confirmation dialog and an id check in front of the delete that `App.HandleDeleteReservation` models.
- The check-then-write race between `isTimeSlotAvailable` and `createReservation`, which takes no lock: only one client's sequence is modelled, and no uniqueness across clients is claimed.
- `Promise.all` in range blocking and slot bulk unblock: modelled as a sequential loop. The order of concurrent writes is not modelled.
- JavaScript `Date`: UTC `toISOString` against local `getDay`/`setHours`, month rollover, and the `he-IL` locale labels. The window takes precomputed ISO strings and today's weekday; "now" is a minute of the day.
- ClientPage.WeekdayOfIsoDate: it requires the `YYYY-MM-DD` shape with month 1..12 and day 1..31, and rolls a day past the month's end into the next month, so 2025-02-30 gets the weekday of 2 March. Engines that reject such a date, giving an invalid date and an empty name, are not modelled.
- App.SlotIsPast: compares only `YYYY-MM-DD` dates and `HH:MM` times, and calls any other slot not past. JavaScript builds a valid date from some other inputs (`9:00`, `2020/01/01`) and can find those past. The page passes this handler only grid times and dates from the generated window, which all have the modelled shapes.
- AdminTimeSlotBlocker.TimeBefore: the source sorts by minutes alone, and its stable sort keeps times with equal minutes in the order the snapshot lists them. The model breaks such ties by code-point order instead. Grid times never tie (`GridTimesTieFree`); only off-grid times such as 09:75 and 10:15 can (`MinuteTieExample`), and the blocker itself writes only grid times.
- AdminDashboard.SortByDateTime: stability of the insertion sort is not stated. Only order and permutation are proved.
- AdminTimeSlotBlocker.TimeRangeForm.CorrectEndTime: "end at or after start" is promised only when some grid slot lies at or after the start, which holds for every start the form offers.
- Strings.StrLt: compares code points, while JavaScript compares UTF-16 code units. The two differ only between a character above U+FFFF and one in U+E000..U+FFFF; dates, times and keys here are ASCII.
- ClientPage.Page.HandleConfirmClick: books whenever a time is selected, while the source also requires that time to be non-empty. The page only selects grid times, which are never empty.
- App.PhoneInputModal.HandleInputChange: the input's `maxLength` of 10 is enforced by the browser on the typed text. The model takes the typed text as given and does not bound its length.
- FirebaseService.Database.Valid: the store holds only records filed under their own id, as `createReservation` writes them. A legacy record whose stored `id` differs from its key is not modelled; for such a record the dashboard's delete would use the stored id (`reservation.id || key`) and miss the record.
- Network failures of single writes outside the bulk loops: a write either succeeds or fails by the modelled format guard.
