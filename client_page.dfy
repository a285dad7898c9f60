/** The client booking page: the Hebrew day names of the offered dates,
    the past-slot test, the status and enabledness of each time button, which
    action buttons show, and the page's own state (selected time, displayed
    dates) with its handlers. */
module ClientPage {
  import opened Wrappers
  import opened Strings
  import opened TimeOfDay
  import opened FirebaseService
  import opened App

  const HebrewDays: seq<string> := ["ראשון", "שני", "שלישי", "רביעי", "חמישי", "שישי", "שבת"]

  /** `getHebrewDayName`: the name for 0 (Sunday) .. 6, and "" otherwise. */
  function HebrewDayName(dayIndex: int): (r: string)
    ensures 0 <= dayIndex < 7 ==> r == HebrewDays[dayIndex] && r != ""
    ensures !(0 <= dayIndex < 7) ==> r == ""
  {
    if 0 <= dayIndex < 7 then HebrewDays[dayIndex] else ""
  }

  function FourDigits(s: string, i: nat): (v: nat)
    requires i + 4 <= |s| && AllDigits(s[i..i + 4])
    ensures v < 10000
  {
    assert forall k :: i <= k < i + 4 ==> s[k] == s[i..i + 4][k - i];
    DigitVal(s[i]) * 1000 + DigitVal(s[i + 1]) * 100 + DigitVal(s[i + 2]) * 10 + DigitVal(s[i + 3])
  }

  /** The Gregorian leap-year rule. */
  predicate IsLeapYear(y: int) {
    y % 4 == 0 && (y % 100 != 0 || y % 400 == 0)
  }

  function DaysInMonth(y: int, m: int): (n: int)
    requires 1 <= m <= 12
    ensures 28 <= n <= 31
  {
    if m == 2 then (if IsLeapYear(y) then 29 else 28)
    else if m == 4 || m == 6 || m == 9 || m == 11 then 30
    else 31
  }

  /** The day after day `d` of month `m` of year `y`. */
  function NextDay(y: int, m: int, d: int): (r: (int, int, int))
    requires 1 <= m <= 12 && 1 <= d <= DaysInMonth(y, m)
    ensures 1 <= r.1 <= 12 && 1 <= r.2 <= DaysInMonth(r.0, r.1)
  {
    if d < DaysInMonth(y, m) then (y, m, d + 1)
    else if m < 12 then (y, m + 1, 1)
    else (y + 1, 1, 1)
  }

  /** The weekday offset of the first of month `m` (Sakamoto's table). */
  function MonthOffset(m: int): int
    requires 1 <= m <= 12
  {
    if m == 1 then 0 else if m == 2 then 3 else if m == 3 then 2 else if m == 4 then 5
    else if m == 5 then 0 else if m == 6 then 3 else if m == 7 then 5 else if m == 8 then 1
    else if m == 9 then 4 else if m == 10 then 6 else if m == 11 then 2 else 4
  }

  /** The number of leap days in the years up to `y`, give or take a constant. */
  function LeapDays(y: int): int {
    y / 4 - y / 100 + y / 400
  }

  /** The UTC weekday (0 is Sunday) of year `y`, month `m` (1..12), day `d`
      in the proleptic Gregorian calendar; a day past the end of its month
      rolls into the next, as the date constructor does. */
  function CivilWeekday(y: int, m: int, d: int): (wd: int)
    requires 1 <= m <= 12
    ensures 0 <= wd < 7
  {
    var yy := if m < 3 then y - 1 else y;
    (yy + LeapDays(yy) + MonthOffset(m) + d) % 7
  }

  /** Moving from `y - 1` to `y` crosses a multiple of `k` exactly when `y` is one. */
  lemma QuotientStep(y: int, k: int)
    requires k == 4 || k == 100 || k == 400
    ensures y / k - (y - 1) / k == if y % k == 0 then 1 else 0
  {
    var q, r := (y - 1) / k, (y - 1) % k;
    assert y - 1 == k * q + r && 0 <= r < k;
    if r == k - 1 {
      assert y == k * (q + 1) + 0;
    } else {
      assert y == k * q + (r + 1);
    }
  }

  /** A year adds exactly one leap day to the count when it is a leap year. */
  lemma LeapDaysStep(y: int)
    ensures LeapDays(y) - LeapDays(y - 1) == if IsLeapYear(y) then 1 else 0
  {
    QuotientStep(y, 4);
    QuotientStep(y, 100);
    QuotientStep(y, 400);
    if y % 100 == 0 {
      assert y == 4 * (25 * (y / 100));
    }
    if y % 400 == 0 {
      assert y == 100 * (4 * (y / 400));
    }
  }

  /** Consecutive calendar days have consecutive weekdays: across the end of
      a month, of February in leap and common years, and of a year. Together
      with one known date this fixes the weekday of every date. */
  lemma WeekdayAdvances(y: int, m: int, d: int)
    requires 1 <= m <= 12 && 1 <= d <= DaysInMonth(y, m)
    ensures var next := NextDay(y, m, d);
      CivilWeekday(next.0, next.1, next.2) == (CivilWeekday(y, m, d) + 1) % 7
  {
    var next := NextDay(y, m, d);
    var yy := if m < 3 then y - 1 else y;
    var yy2 := if next.1 < 3 then next.0 - 1 else next.0;
    var a := yy + LeapDays(yy) + MonthOffset(m) + d;
    var b := yy2 + LeapDays(yy2) + MonthOffset(next.1) + next.2;
    if d == DaysInMonth(y, m) && m == 2 {
      LeapDaysStep(y);
    } else if d == DaysInMonth(y, m) && m < 12 {
      MonthStep(y, m);
    }
    ModSucc(a, b);
  }

  /** Across the end of any month but February the year part is unchanged
      and the month offsets differ by the month's length, modulo 7. */
  lemma MonthStep(y: int, m: int)
    requires 1 <= m < 12 && m != 2
    ensures var gap := MonthOffset(m + 1) - MonthOffset(m) - DaysInMonth(y, m);
      gap == -28 || gap == -35
  {
  }

  lemma ModSucc(a: int, b: int)
    requires b - a - 1 == 0 || b - a - 1 == -28 || b - a - 1 == -35
    ensures b % 7 == (a % 7 + 1) % 7
  {
  }

  /** The year of a `YYYY-MM-DD` string. */
  function YearOf(s: string): (y: nat)
    requires IsYMD(s)
    ensures y < 10000
  {
    assert AllDigits(s[0..4]) by {
      assert forall k :: 0 <= k < 4 ==> s[0..4][k] == s[k];
    }
    FourDigits(s, 0)
  }

  /** The weekday `new Date(fullDate + 'T00:00:00Z').getDay()` yields: a
      `YYYY-MM-DD` string with month 1..12 and day 1..31 gets the weekday
      of that date (rolled over past the month's end), anything else `None`. */
  function WeekdayOfIsoDate(fullDate: string): (r: Option<int>)
    ensures r.Some? <==> IsYMD(fullDate) && 1 <= TwoDigits(fullDate, 5) <= 12 && 1 <= TwoDigits(fullDate, 8) <= 31
    ensures r.Some? ==> r.value == CivilWeekday(YearOf(fullDate), TwoDigits(fullDate, 5), TwoDigits(fullDate, 8))
  {
    if !IsYMD(fullDate) then None
    else
      var y := YearOf(fullDate);
      var m := TwoDigits(fullDate, 5);
      var d := TwoDigits(fullDate, 8);
      if 1 <= m <= 12 && 1 <= d <= 31 then Some(CivilWeekday(y, m, d)) else None
  }

  /** 13 June 2025 was a Friday. */
  lemma WeekdayExample()
    ensures WeekdayOfIsoDate("2025-06-13") == Some(5)
    ensures HebrewDayName(5) == "שישי"
  {
    assert IsYMD("2025-06-13");
  }

  /** A date option as the page displays it. */
  datatype DisplayedDate = DisplayedDate(option: DateOption, hebrewDayName: string)

  function HebrewNameOf(fullDate: string): string {
    match WeekdayOfIsoDate(fullDate)
    case None => ""
    case Some(wd) => HebrewDayName(wd)
  }

  /** `stableGenerateNextFiveDays`: the generated dates, in order, each with
      the Hebrew name of its UTC weekday. */
  function WithHebrewNames(generated: seq<DateOption>): (r: seq<DisplayedDate>)
    ensures |r| == |generated|
    ensures forall i :: 0 <= i < |r| ==> (r[i].option == generated[i]
      && (WeekdayOfIsoDate(generated[i].fullDate).Some? <==> r[i].hebrewDayName != ""))
    ensures forall i :: 0 <= i < |r| && WeekdayOfIsoDate(generated[i].fullDate).Some? ==>
      r[i].hebrewDayName == HebrewDayName(WeekdayOfIsoDate(generated[i].fullDate).value)
  {
    seq(|generated|, i requires 0 <= i < |generated| => DisplayedDate(generated[i], HebrewNameOf(generated[i].fullDate)))
  }

  // ---------------------------------------------------------------------
  // The time grid

  /** `isTimeInPast`: only on today's date; a time without an `HH:MM` part
      counts as past; otherwise the slot is past once its minute of the day
      has been reached. */
  function IsTimeInPast(selectedDate: string, time: string, clock: Clock): (r: bool)
    ensures selectedDate != clock.todayIso ==> !r
    ensures selectedDate == clock.todayIso && TimeToMinutes(time) == -1 ==> r
    ensures selectedDate == clock.todayIso && IsHHMM(time) ==> (r <==> TimeToMinutes(time) <= clock.nowMinutes)
  {
    if selectedDate != clock.todayIso then false
    else
      match FindHHMM(time, 0)
      case None => true
      case Some(i) => TwoDigits(time, i) * 60 + TwoDigits(time, i + 3) <= clock.nowMinutes
  }

  /** On today's date the page greys out exactly the `HH:MM` slots the
      booking handler refuses as past. */
  lemma PastAgreesWithHandler(time: string, clock: Clock)
    requires IsYMD(clock.todayIso) && IsHHMM(time)
    ensures IsTimeInPast(clock.todayIso, time, clock) == SlotIsPast(clock.todayIso, time, clock)
  {
    StrLtIrreflexive(clock.todayIso);
  }

  /** Once a grid slot is past, so is every earlier one. */
  lemma PastIsDownwardClosed(selectedDate: string, clock: Clock, i: nat, j: nat)
    requires i < j < |AvailableTimes|
    requires IsTimeInPast(selectedDate, AvailableTimes[j], clock)
    ensures IsTimeInPast(selectedDate, AvailableTimes[i], clock)
  {
    GridSlot(i);
    GridSlot(j);
  }

  /** What the page shows while rendering the time grid. */
  datatype Screen = Screen(
    reservations: seq<Reservation>,
    user: Option<Session>,
    selectedDate: string,
    selectedTime: Option<string>,
    blockedDays: set<string>,
    blockedSlots: map<string, set<string>>,
    clock: Clock)

  function UserReservation(sc: Screen): Option<Reservation> {
    UserReservationFor(sc.reservations, sc.user, sc.selectedDate)
  }

  predicate SlotAdminBlocked(sc: Screen, t: string) {
    sc.selectedDate in sc.blockedSlots && t in sc.blockedSlots[sc.selectedDate]
  }

  datatype SlotStatus = Past | AdminBlocked | YourReservation | Taken | SelectedNew | Open

  /** The label of a time button: the first of past, admin-blocked, yours,
      taken by others and newly selected that applies. */
  function StatusOf(sc: Screen, t: string): SlotStatus {
    if IsTimeInPast(sc.selectedDate, t, sc.clock) then Past
    else if SlotAdminBlocked(sc, t) then AdminBlocked
    else if IsReservedByCurrentUser(sc.reservations, sc.user, sc.selectedDate, t) then YourReservation
    else if IsReservedByOthers(sc.reservations, sc.user, sc.selectedDate, t) then Taken
    else if sc.selectedTime == Some(t) && UserReservation(sc).None? then SelectedNew
    else Open
  }

  /** A time button is disabled when past, taken by others, or admin-blocked. */
  predicate Disabled(sc: Screen, t: string) {
    IsTimeInPast(sc.selectedDate, t, sc.clock) || IsReservedByOthers(sc.reservations, sc.user, sc.selectedDate, t)
    || SlotAdminBlocked(sc, t)
  }

  /** The button is disabled exactly for the past, admin-blocked and taken
      labels, and for the user's own slot only when someone else holds it
      too. */
  lemma DisabledByStatus(sc: Screen, t: string)
    ensures var st := StatusOf(sc, t);
      Disabled(sc, t) <==> (st == Past || st == AdminBlocked || st == Taken
        || (st == YourReservation && IsReservedByOthers(sc.reservations, sc.user, sc.selectedDate, t)))
  {
  }

  /** Without double booking, the user's own slot is never disabled, and a
      newly selected slot is enabled and only exists while the user holds
      nothing on the date. */
  lemma OwnAndSelectedEnabled(sc: Screen, t: string)
    requires NoDoubleBooking(sc.reservations)
    ensures StatusOf(sc, t) == YourReservation ==> !Disabled(sc, t)
    ensures StatusOf(sc, t) == SelectedNew ==> !Disabled(sc, t) && sc.selectedTime == Some(t) && UserReservation(sc).None?
  {
    OwnAndOthersExclusive(sc.reservations, sc.user, sc.selectedDate, t);
  }

  /** The grid shows when a date is selected and the day is not blocked. */
  predicate GridShown(sc: Screen) {
    sc.selectedDate != "" && sc.selectedDate !in sc.blockedDays
  }

  /** The confirm button: a pending selection and no reservation on the
      date, on a day that is not blocked. */
  predicate ConfirmShown(sc: Screen) {
    UserReservation(sc).None? && sc.selectedTime.Some? && sc.selectedDate !in sc.blockedDays
  }

  /** The cancel button: a reservation on the date, on a day that is not
      blocked. */
  predicate CancelShown(sc: Screen) {
    UserReservation(sc).Some? && sc.selectedDate !in sc.blockedDays
  }

  /** The confirm and cancel buttons never show together, and neither shows
      on a blocked day. */
  lemma ActionButtonsExclusive(sc: Screen)
    ensures !(ConfirmShown(sc) && CancelShown(sc))
    ensures sc.selectedDate in sc.blockedDays ==> !ConfirmShown(sc) && !CancelShown(sc) && !GridShown(sc)
  {
  }

  // ---------------------------------------------------------------------
  // The page's state and handlers

  class Page {
    /** The selected date; the shell owns it and passes its setter down. */
    var selectedDate: string
    var selectedTime: Option<string>
    var datesToDisplay: seq<DisplayedDate>

    constructor (selectedDate0: string)
      ensures selectedDate == selectedDate0 && selectedTime == None && datesToDisplay == []
    {
      selectedDate := selectedDate0;
      selectedTime := None;
      datesToDisplay := [];
    }

    /** The regeneration effect: show the new dates, clear the selected
        time, and select the first date when the selection is not offered. */
    method Regenerate(generated: seq<DateOption>)
      modifies this
      ensures datesToDisplay == WithHebrewNames(generated)
      ensures selectedTime == None
      ensures selectedDate == if |generated| > 0 && !InWindow(generated, old(selectedDate)) then generated[0].fullDate else old(selectedDate)
      ensures |generated| > 0 ==> InWindow(generated, selectedDate)
    {
      var newDatesToDisplay := WithHebrewNames(generated);
      datesToDisplay := newDatesToDisplay;
      selectedTime := None;
      if |newDatesToDisplay| > 0 && !InWindow(generated, selectedDate) {
        selectedDate := newDatesToDisplay[0].option.fullDate;
      }
    }

    /** `handleDateSelection`: a blocked day cannot be selected. */
    method HandleDateSelection(date: string, blockedDays: set<string>)
      modifies this`selectedDate, this`selectedTime
      ensures date !in blockedDays ==> selectedDate == date && selectedTime == None
      ensures date in blockedDays ==> selectedDate == old(selectedDate) && selectedTime == old(selectedTime)
    {
      if date !in blockedDays {
        selectedDate := date;
        selectedTime := None;
      }
    }

    /** `handleTimeSelection`: with a reservation on the date, choosing
        another time asks to move it (and `confirmed` is the answer) and
        then rebooks; choosing the same time does nothing; without one the
        time becomes the pending selection. Returns the time to book. */
    method HandleTimeSelection(time: string, userReservation: Option<Reservation>, confirmed: bool) returns (book: Option<string>)
      modifies this`selectedTime
      ensures userReservation.None? ==> book == None && selectedTime == Some(time)
      ensures userReservation.Some? && userReservation.value.time == time ==> book == None && selectedTime == old(selectedTime)
      ensures userReservation.Some? && userReservation.value.time != time ==>
        (if confirmed then book == Some(time) && selectedTime == None
         else book == None && selectedTime == old(selectedTime))
    {
      book := None;
      if userReservation.Some? {
        if userReservation.value.time == time {
          return;
        }
        if confirmed {
          book := Some(time);
          selectedTime := None;
        }
      } else {
        selectedTime := Some(time);
      }
    }

    /** `handleConfirmClick`: books the pending time when the user holds
        nothing on the date. */
    method HandleConfirmClick(userReservation: Option<Reservation>) returns (book: Option<string>)
      modifies this`selectedTime
      ensures old(selectedTime).Some? && userReservation.None? ==> book == old(selectedTime) && selectedTime == None
      ensures !(old(selectedTime).Some? && userReservation.None?) ==> book == None && selectedTime == old(selectedTime)
    {
      book := None;
      if selectedTime.Some? && userReservation.None? {
        book := selectedTime;
        selectedTime := None;
      }
    }

    /** `handleCancelMainReservationClick`: cancels after confirmation when
        the user holds a reservation on the date. */
    method HandleCancelClick(userReservation: Option<Reservation>, confirmed: bool) returns (cancel: bool)
      modifies this`selectedTime
      ensures cancel <==> userReservation.Some? && confirmed
      ensures cancel ==> selectedTime == None
      ensures !cancel ==> selectedTime == old(selectedTime)
    {
      cancel := false;
      if userReservation.Some? && confirmed {
        cancel := true;
        selectedTime := None;
      }
    }
  }
}
