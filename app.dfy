/** The application shell: the rolling window of bookable dates, the
    fallback of the selected date, the phone-number normaliser of the phone
    dialog, the client-side reservation predicates, and the booking and
    cancellation handlers that drive the store. */
module App {
  import opened Wrappers
  import opened Strings
  import opened TimeOfDay
  import opened FirebaseService
  import opened Collections

  const ShowFridaysByDefault := true
  const ShowSaturdaysByDefault := false
  /** At most this many dates are offered. */
  const WindowSize := 5
  /** Candidate dates are today and the 29 days after it. */
  const Horizon := 30

  /** What the clock says when the window is generated: today's ISO date as
      the page memoised it, today's weekday (0 is Sunday), and the ISO date
      string of today + k for each offset k. */
  datatype Calendar = Calendar(todayIso: string, todayWeekday: int, days: seq<string>)

  /** The current moment: today's ISO date and the minutes since midnight. */
  datatype Clock = Clock(todayIso: string, nowMinutes: int)

  /** One offered date: the short English day name, the weekday index and
      the ISO date. (The localised label is not modelled.) */
  datatype DateOption = DateOption(day: string, weekday: int, fullDate: string)

  const DaysOfWeek: seq<string> := ["Sun", "Mon", "Tue", "Wed", "Thu", "Fri", "Sat"]

  function Weekday(cal: Calendar, k: nat): (wd: int)
    ensures 0 <= wd < 7
  {
    (cal.todayWeekday + k) % 7
  }

  /** The candidate at offset `k` is offered: it is not before today, its
      weekday is shown, and the admin has not blocked it. */
  predicate Eligible(cal: Calendar, blocked: set<string>, k: nat)
    requires k < |cal.days|
  {
    var wd := Weekday(cal, k);
    && !StrLt(cal.days[k], cal.todayIso)
    && !(wd == 5 && !ShowFridaysByDefault)
    && !(wd == 6 && !ShowSaturdaysByDefault)
    && cal.days[k] !in blocked
  }

  function Entry(cal: Calendar, k: nat): DateOption
    requires k < |cal.days|
  {
    DateOption(DaysOfWeek[Weekday(cal, k)], Weekday(cal, k), cal.days[k])
  }

  /** The offsets the scan keeps from `offset` on, once `count` dates have
      been collected. */
  function Scan(cal: Calendar, blocked: set<string>, offset: nat, count: nat): seq<nat>
    requires |cal.days| >= Horizon
    decreases Horizon - offset
  {
    if count >= WindowSize || offset >= Horizon then []
    else if Eligible(cal, blocked, offset) then [offset] + Scan(cal, blocked, offset + 1, count + 1)
    else Scan(cal, blocked, offset + 1, count)
  }

  function Entries(cal: Calendar, ks: seq<nat>): (r: seq<DateOption>)
    requires forall i :: 0 <= i < |ks| ==> ks[i] < |cal.days|
    ensures |r| == |ks| && forall i :: 0 <= i < |ks| ==> r[i] == Entry(cal, ks[i])
  {
    if ks == [] then [] else [Entry(cal, ks[0])] + Entries(cal, ks[1..])
  }

  lemma EntriesCons(cal: Calendar, k: nat, ks: seq<nat>)
    requires k < |cal.days| && forall i :: 0 <= i < |ks| ==> ks[i] < |cal.days|
    ensures Entries(cal, [k] + ks) == [Entry(cal, k)] + Entries(cal, ks)
  {
    assert ([k] + ks)[1..] == ks;
  }


  lemma {:induction false} ScanShape(cal: Calendar, blocked: set<string>, offset: nat, count: nat)
    requires |cal.days| >= Horizon && count <= WindowSize
    ensures var s := Scan(cal, blocked, offset, count);
      && |s| <= WindowSize - count
      && (forall i :: 0 <= i < |s| ==> offset <= s[i] < Horizon && Eligible(cal, blocked, s[i]))
      && (forall i, j :: 0 <= i < j < |s| ==> s[i] < s[j])
    decreases Horizon - offset
  {
    if count < WindowSize && offset < Horizon {
      ScanShape(cal, blocked, offset + 1, if Eligible(cal, blocked, offset) then count + 1 else count);
    }
  }

  /** Nothing eligible is passed over: an eligible offset below a kept one
      is kept too. */
  lemma {:induction false} ScanNoGap(cal: Calendar, blocked: set<string>, offset: nat, count: nat)
    requires |cal.days| >= Horizon && count <= WindowSize
    ensures var s := Scan(cal, blocked, offset, count);
      forall k: nat, i :: 0 <= i < |s| && offset <= k < s[i] && k < Horizon && Eligible(cal, blocked, k) ==> k in s
    decreases Horizon - offset
  {
    if count < WindowSize && offset < Horizon {
      var s := Scan(cal, blocked, offset, count);
      if Eligible(cal, blocked, offset) {
        var rest := Scan(cal, blocked, offset + 1, count + 1);
        ScanNoGap(cal, blocked, offset + 1, count + 1);
        ScanShape(cal, blocked, offset + 1, count + 1);
        assert s == [offset] + rest;
        forall k: nat, i | 0 <= i < |s| && offset <= k < s[i] && k < Horizon && Eligible(cal, blocked, k) ensures k in s {
          if k != offset {
            assert i > 0 && s[i] == rest[i - 1];
            assert 0 <= i - 1 < |rest| && offset + 1 <= k < rest[i - 1];
            assert k in rest;
          }
        }
      } else {
        ScanNoGap(cal, blocked, offset + 1, count);
        ScanShape(cal, blocked, offset + 1, count);
      }
    }
  }

  /** When fewer dates than the quota were kept, every eligible offset of
      the horizon was. */
  lemma {:induction false} ScanExhaustive(cal: Calendar, blocked: set<string>, offset: nat, count: nat)
    requires |cal.days| >= Horizon && count <= WindowSize
    ensures var s := Scan(cal, blocked, offset, count);
      |s| < WindowSize - count ==> forall k: nat :: offset <= k < Horizon && Eligible(cal, blocked, k) ==> k in s
    decreases Horizon - offset
  {
    if count < WindowSize && offset < Horizon {
      var s := Scan(cal, blocked, offset, count);
      if Eligible(cal, blocked, offset) {
        var rest := Scan(cal, blocked, offset + 1, count + 1);
        ScanExhaustive(cal, blocked, offset + 1, count + 1);
        assert s == [offset] + rest;
        assert forall k :: k in rest ==> k in s;
      } else {
        ScanExhaustive(cal, blocked, offset + 1, count);
      }
    }
  }

  function WindowOffsets(cal: Calendar, blocked: set<string>): seq<nat>
    requires |cal.days| >= Horizon
  {
    Scan(cal, blocked, 0, 0)
  }

  /** The entries of the dates the scan keeps from `offset` on. */
  function ScanEntries(cal: Calendar, blocked: set<string>, offset: nat, count: nat): seq<DateOption>
    requires |cal.days| >= Horizon && count <= WindowSize
  {
    ScanShape(cal, blocked, offset, count);
    Entries(cal, Scan(cal, blocked, offset, count))
  }

  /** One step of the scan: the entry of an eligible offset comes first,
      any other offset adds nothing. */
  lemma ScanEntriesStep(cal: Calendar, blocked: set<string>, offset: nat, count: nat)
    requires |cal.days| >= Horizon && count < WindowSize && offset < Horizon
    ensures Eligible(cal, blocked, offset) ==>
      ScanEntries(cal, blocked, offset, count) == [Entry(cal, offset)] + ScanEntries(cal, blocked, offset + 1, count + 1)
    ensures !Eligible(cal, blocked, offset) ==>
      ScanEntries(cal, blocked, offset, count) == ScanEntries(cal, blocked, offset + 1, count)
  {
    if Eligible(cal, blocked, offset) {
      ScanShape(cal, blocked, offset + 1, count + 1);
      EntriesCons(cal, offset, Scan(cal, blocked, offset + 1, count + 1));
    }
  }

  /** The generator's loop invariant survives one step, with `skipDay` as
      the four skip tests decide it. */
  lemma GeneratorStep(cal: Calendar, blocked: set<string>, dates: seq<DateOption>, offset: nat, count: nat, skipDay: bool)
    requires |cal.days| >= Horizon && count < WindowSize && offset < Horizon
    requires skipDay <==> !Eligible(cal, blocked, offset)
    requires dates + ScanEntries(cal, blocked, offset, count) == Window(cal, blocked)
    ensures skipDay ==> dates + ScanEntries(cal, blocked, offset + 1, count) == Window(cal, blocked)
    ensures !skipDay ==> (dates + [Entry(cal, offset)]) + ScanEntries(cal, blocked, offset + 1, count + 1) == Window(cal, blocked)
  {
    ScanEntriesStep(cal, blocked, offset, count);
    if !skipDay {
      SnocAssoc(dates, Entry(cal, offset), ScanEntries(cal, blocked, offset + 1, count + 1));
    }
  }

  /** Once five dates are collected or the horizon is reached, the scan adds nothing more. */
  lemma GeneratorDone(cal: Calendar, blocked: set<string>, dates: seq<DateOption>, offset: nat, count: nat)
    requires |cal.days| >= Horizon && count <= WindowSize && (count >= WindowSize || offset >= Horizon)
    requires dates + ScanEntries(cal, blocked, offset, count) == Window(cal, blocked)
    ensures dates == Window(cal, blocked)
  {
    assert ScanEntries(cal, blocked, offset, count) == [];
    AppendNothing(dates);
  }

  /** The dates `rawGenerateNextFiveDays` returns. */
  function Window(cal: Calendar, blocked: set<string>): seq<DateOption>
    requires |cal.days| >= Horizon
  {
    ScanEntries(cal, blocked, 0, 0)
  }

  /** The window holds at most five dates, each taken from an offset in
      0..29 in increasing order; none is before today, a Saturday, or
      blocked; and it is the first up-to-five eligible dates of the horizon. */
  lemma WindowProperties(cal: Calendar, blocked: set<string>)
    requires |cal.days| >= Horizon
    ensures var ks := WindowOffsets(cal, blocked);
      var w := Window(cal, blocked);
      && |w| == |ks| <= WindowSize
      && (forall i :: 0 <= i < |ks| ==> ks[i] < Horizon && w[i] == Entry(cal, ks[i]))
      && (forall i, j :: 0 <= i < j < |ks| ==> ks[i] < ks[j])
      && (forall i :: 0 <= i < |w| ==>
            && !StrLt(w[i].fullDate, cal.todayIso)
            && w[i].weekday != 6
            && w[i].fullDate !in blocked)
      && (forall k: nat, i :: 0 <= i < |ks| && k < ks[i] && Eligible(cal, blocked, k) ==> k in ks)
      && (|ks| < WindowSize ==> forall k: nat :: k < Horizon && Eligible(cal, blocked, k) ==> k in ks)
  {
    ScanShape(cal, blocked, 0, 0);
    ScanNoGap(cal, blocked, 0, 0);
    ScanExhaustive(cal, blocked, 0, 0);
  }

  /** When the clock's dates increase from day to day, so do the offered dates. */
  lemma WindowIncreasing(cal: Calendar, blocked: set<string>)
    requires |cal.days| >= Horizon
    requires forall i, j :: 0 <= i < j < Horizon ==> StrLt(cal.days[i], cal.days[j])
    ensures var w := Window(cal, blocked);
      forall i, j :: 0 <= i < j < |w| ==> StrLt(w[i].fullDate, w[j].fullDate)
  {
    WindowProperties(cal, blocked);
  }

  /** The four skip tests of the generator's loop for the date at `offset`:
      before today, a hidden Friday, a hidden Saturday, or blocked by the
      admin. */
  method SkipDay(cal: Calendar, blocked: set<string>, offset: nat) returns (skipDay: bool)
    requires offset < |cal.days|
    ensures skipDay <==> !Eligible(cal, blocked, offset)
  {
    var dayIndex := Weekday(cal, offset);
    var fullDateStr := cal.days[offset];
    var isPast := StrLt(fullDateStr, cal.todayIso);
    var isAdminBlocked := fullDateStr in blocked;
    skipDay := false;
    if isPast { skipDay := true; }
    if dayIndex == 5 && !ShowFridaysByDefault { skipDay := true; }
    if dayIndex == 6 && !ShowSaturdaysByDefault { skipDay := true; }
    if isAdminBlocked { skipDay := true; }
  }

  /** `rawGenerateNextFiveDays`: scan offsets 0..29 while fewer than five
      dates are collected, skipping past, hidden-weekday and blocked dates. */
  method GenerateNextFiveDays(cal: Calendar, blocked: set<string>) returns (dates: seq<DateOption>)
    requires |cal.days| >= Horizon
    ensures dates == Window(cal, blocked)
  {
    dates := [];
    var count, offset := 0, 0;
    while count < WindowSize && offset < Horizon
      invariant 0 <= offset <= Horizon && count <= WindowSize
      invariant dates + ScanEntries(cal, blocked, offset, count) == Window(cal, blocked)
      decreases Horizon - offset
    {
      var skipDay := SkipDay(cal, blocked, offset);
      GeneratorStep(cal, blocked, dates, offset, count, skipDay);
      if !skipDay {
        dates := dates + [Entry(cal, offset)];
        count := count + 1;
      }
      offset := offset + 1;
    }
    GeneratorDone(cal, blocked, dates, offset, count);
  }

  predicate InWindow(generated: seq<DateOption>, date: string) {
    exists i :: 0 <= i < |generated| && generated[i].fullDate == date
  }

  /** The selected-date effect of the shell: with a non-empty window, a
      missing selection or one outside the window falls back to the first
      offered date; otherwise the selection stays. */
  function SelectedDateFallback(generated: seq<DateOption>, selected: string): (r: string)
    ensures |generated| > 0 ==> InWindow(generated, r)
    ensures |generated| == 0 ==> r == selected
    ensures selected != "" && InWindow(generated, selected) ==> r == selected
    ensures r != selected ==> r == generated[0].fullDate
  {
    if |generated| > 0 && (selected == "" || !InWindow(generated, selected)) then generated[0].fullDate
    else selected
  }

  // ---------------------------------------------------------------------
  // The phone dialog

  /** `^(05\d{8}|5\d{8})$` */
  predicate IsIsraeliMobileInput(s: string) {
    AllDigits(s) && ((|s| == 10 && s[0] == '0' && s[1] == '5') || (|s| == 9 && s[0] == '5'))
  }

  /** `^05\d{8}$`: the single local format in which numbers are stored. */
  predicate IsStoredMobile(s: string) {
    |s| == 10 && s[0] == '0' && s[1] == '5' && AllDigits(s)
  }

  datatype PhoneError = NotAnIsraeliMobile | MalformedAfterNormalization

  /** The digits of the input with one leading `972` country code removed. */
  function CleanPhone(input: string): (r: string)
    ensures AllDigits(r)
    ensures StartsWith(StripNonDigits(input), "972") ==> r == StripNonDigits(input)[3..]
    ensures !StartsWith(StripNonDigits(input), "972") ==> r == StripNonDigits(input)
  {
    var digits := StripNonDigits(input);
    if StartsWith(digits, "972") then digits[3..] else digits
  }

  /** `PhoneInputModal.handleSubmit`: strip non-digits, drop a leading
      `972`, accept `05` plus eight digits or `5` plus eight digits, and
      store the latter with a leading `0`. The second check never fails. */
  function NormalizePhone(input: string): (r: Result<string, PhoneError>)
    ensures r.Ok? ==> IsStoredMobile(r.value)
    ensures r.Ok? <==> IsIsraeliMobileInput(CleanPhone(input))
    ensures r.Err? ==> r.error == NotAnIsraeliMobile
    ensures r.Ok? ==> r.value[|r.value| - 9..] == CleanPhone(input)[|CleanPhone(input)| - 9..]
  {
    var cleanedPhone := CleanPhone(input);
    var fivePrefixed := StartsWith(cleanedPhone, "5") && |cleanedPhone| == 9;
    if !IsIsraeliMobileInput(cleanedPhone) && !fivePrefixed then Err(NotAnIsraeliMobile)
    else
      var normalized := if fivePrefixed then "0" + cleanedPhone else cleanedPhone;
      if !IsStoredMobile(normalized) then Err(MalformedAfterNormalization)
      else Ok(normalized)
  }

  /** A stored number is accepted as it is. */
  lemma NormalizeStored(p: string)
    requires IsStoredMobile(p)
    ensures NormalizePhone(p) == Ok(p)
  {
    assert StripNonDigits(p) == p;
    assert !StartsWith(p, "972");
  }

  /** The dialog pre-fills an update with the stored number minus its
      leading `0`; submitting that unchanged gives the stored number back. */
  function InitialPhoneInput(currentPhone: string): string {
    if StartsWith(currentPhone, "0") then currentPhone[1..] else currentPhone
  }

  lemma PrefilledRoundTrip(p: string)
    requires IsStoredMobile(p)
    ensures NormalizePhone(InitialPhoneInput(p)) == Ok(p)
  {
    var q := InitialPhoneInput(p);
    assert q == p[1..] && AllDigits(q) && q[0] == '5';
    assert StripNonDigits(q) == q;
    assert !StartsWith(q, "972");
    assert "0" + q == p;
  }

  /** Nine digits starting with `5` after cleaning are stored with a
      leading `0`. */
  lemma NormalizeFivePrefixed(input: string, c: string)
    requires CleanPhone(input) == c && |c| == 9 && c[0] == '5'
    ensures NormalizePhone(input) == Ok("0" + c)
  {
    assert StartsWith(c, "5");
  }

  /** The international form the dialog's hint names: `+972`, then the
      nine national digits in groups of 2, 3 and 4 with any non-digit
      separators (as in `+972 50-123-4567`), is stored as `0` plus those
      digits. */
  lemma InternationalForm(d: string, sep1: string, sep2: string, sep3: string)
    requires AllDigits(d) && |d| == 9 && d[0] == '5'
    requires NoDigits(sep1) && NoDigits(sep2) && NoDigits(sep3)
    ensures NormalizePhone("+972" + sep1 + d[..2] + sep2 + d[2..5] + sep3 + d[5..]) == Ok("0" + d)
  {
    var input := "+972" + sep1 + d[..2] + sep2 + d[2..5] + sep3 + d[5..];
    assert StripNonDigits("+972") == "972";
    StripInternational("+972", d, sep1, sep2, sep3);
    CleanInternational(input, d);
    NormalizeFivePrefixed(input, d);
  }

  lemma StripInternational(cc: string, d: string, sep1: string, sep2: string, sep3: string)
    requires StripNonDigits(cc) == "972" && AllDigits(d) && |d| == 9
    requires NoDigits(sep1) && NoDigits(sep2) && NoDigits(sep3)
    ensures StripNonDigits(cc + sep1 + d[..2] + sep2 + d[2..5] + sep3 + d[5..]) == "972" + d
  {
    SplitNine(d);
    StripThreeGroups(cc, sep1, d[..2], sep2, d[2..5], sep3, d[5..]);
    ConcatAssoc("972", d[..2], d[2..5], d[5..]);
  }

  lemma SplitNine(d: string)
    requires AllDigits(d) && |d| == 9
    ensures AllDigits(d[..2]) && AllDigits(d[2..5]) && AllDigits(d[5..])
    ensures d[..2] + d[2..5] + d[5..] == d
  {
  }

  lemma StripThreeGroups(cc: string, sep1: string, a: string, sep2: string, b: string, sep3: string, c: string)
    requires NoDigits(sep1) && NoDigits(sep2) && NoDigits(sep3)
    requires AllDigits(a) && AllDigits(b) && AllDigits(c)
    ensures StripNonDigits(cc + sep1 + a + sep2 + b + sep3 + c) == StripNonDigits(cc) + a + b + c
  {
    StripSeparatedGroup(cc, sep1, a);
    StripSeparatedGroup(cc + sep1 + a, sep2, b);
    StripSeparatedGroup(cc + sep1 + a + sep2 + b, sep3, c);
  }

  lemma StripSeparatedGroup(p: string, sep: string, digits: string)
    requires NoDigits(sep) && AllDigits(digits)
    ensures StripNonDigits(p + sep + digits) == StripNonDigits(p) + digits
  {
    StripNoDigits(sep);
    StripNonDigitsAppend(p, sep);
    StripNonDigitsAppend(p + sep, digits);
  }

  lemma CleanInternational(input: string, d: string)
    requires StripNonDigits(input) == "972" + d
    ensures CleanPhone(input) == d
  {
    assert ("972" + d)[..3] == "972";
    assert ("972" + d)[3..] == d;
  }

  /** The dialog's own example without the leading zero. */
  lemma PhoneExampleNoLeadingZero(input: string)
    requires input == "501234567"
    ensures NormalizePhone(input) == Ok("0501234567")
  {
    assert AllDigits(input);
    assert input[..3] == "501";
    assert CleanPhone(input) == input;
    NormalizeFivePrefixed(input, input);
    assert "0" + input == "0501234567";
  }

  /** The phone dialog: submitting shows an error or hands the normalised
      number on. */
  class PhoneInputModal {
    var phoneInput: string
    var error: Option<PhoneError>

    constructor (currentPhone: string)
      ensures phoneInput == InitialPhoneInput(currentPhone) && error == None
    {
      phoneInput := InitialPhoneInput(currentPhone);
      error := None;
    }

    /** The input's `onChange`: the typed text is kept without its non-digits. */
    method HandleInputChange(typed: string)
      modifies this`phoneInput
      ensures phoneInput == StripNonDigits(typed) && AllDigits(phoneInput) && |phoneInput| <= |typed|
    {
      phoneInput := StripNonDigits(typed);
    }

    method HandleSubmit() returns (submitted: Option<string>)
      modifies this`error
      ensures NormalizePhone(phoneInput).Ok? ==> submitted == Some(NormalizePhone(phoneInput).value) && error == None
      ensures NormalizePhone(phoneInput).Err? ==> submitted == None && error == Some(NormalizePhone(phoneInput).error)
    {
      var normalized := NormalizePhone(phoneInput);
      if normalized.Err? {
        error := Some(normalized.error);
        return None;
      }
      submitted := Some(normalized.value);
      error := None;
    }
  }

  // ---------------------------------------------------------------------
  // Client-side views of the reservation list

  /** The signed-in identity. */
  datatype Session = Session(uid: string, displayName: string)

  /** `getUserReservationForSelectedDate`: the first reservation in the list
      held by the signed-in user on the selected date. */
  function UserReservationFor(reservations: seq<Reservation>, user: Option<Session>, selectedDate: string): (r: Option<Reservation>)
    ensures r.Some? ==> user.Some? && r.value in reservations && HeldBy(r.value, user.value.uid, selectedDate)
    ensures r.Some? ==> exists i :: (0 <= i < |reservations| && reservations[i] == r.value
      && forall j :: 0 <= j < i ==> !HeldBy(reservations[j], user.value.uid, selectedDate))
    ensures r.None? <==> user.None? || forall i :: 0 <= i < |reservations| ==> !HeldBy(reservations[i], user.value.uid, selectedDate)
  {
    if user.None? then None else FindHeld(reservations, user.value.uid, selectedDate)
  }

  function FindHeld(rs: seq<Reservation>, uid: string, date: string): (r: Option<Reservation>)
    ensures r.Some? ==> exists i :: (0 <= i < |rs| && rs[i] == r.value && HeldBy(rs[i], uid, date)
      && forall j :: 0 <= j < i ==> !HeldBy(rs[j], uid, date))
    ensures r.None? <==> forall i :: 0 <= i < |rs| ==> !HeldBy(rs[i], uid, date)
  {
    if rs == [] then None
    else if HeldBy(rs[0], uid, date) then Some(rs[0])
    else
      var r := FindHeld(rs[1..], uid, date);
      assert r.Some? ==> exists i :: (1 <= i < |rs| && rs[i] == r.value && HeldBy(rs[i], uid, date)
        && forall j :: 0 <= j < i ==> !HeldBy(rs[j], uid, date)) by {
        if r.Some? {
          var i :| 0 <= i < |rs[1..]| && rs[1..][i] == r.value && HeldBy(rs[1..][i], uid, date)
            && forall j :: 0 <= j < i ==> !HeldBy(rs[1..][j], uid, date);
          assert forall j :: 1 <= j < i + 1 ==> rs[j] == rs[1..][j - 1];
        }
      }
      assert r.None? ==> forall i :: 1 <= i < |rs| ==> !HeldBy(rs[i], uid, date) by {
        if r.None? { assert forall i :: 1 <= i < |rs| ==> rs[i] == rs[1..][i - 1]; }
      }
      r
  }

  /** `isReservedByCurrentUser` */
  predicate IsReservedByCurrentUser(reservations: seq<Reservation>, user: Option<Session>, selectedDate: string, time: string) {
    var own := UserReservationFor(reservations, user, selectedDate);
    own.Some? && own.value.time == time
  }

  /** `isReservedByOthers`; with nobody signed in every reservation counts. */
  predicate IsReservedByOthers(reservations: seq<Reservation>, user: Option<Session>, selectedDate: string, time: string) {
    exists i :: 0 <= i < |reservations| && reservations[i].date == selectedDate && reservations[i].time == time
      && (user.None? || reservations[i].userId != user.value.uid)
  }

  /** No two listed reservations share a date and time. */
  ghost predicate NoDoubleBooking(reservations: seq<Reservation>) {
    forall i, j :: 0 <= i < j < |reservations| ==>
      !(reservations[i].date == reservations[j].date && reservations[i].time == reservations[j].time)
  }

  /** Without double booking a slot cannot be both the user's and someone
      else's. */
  lemma OwnAndOthersExclusive(reservations: seq<Reservation>, user: Option<Session>, selectedDate: string, time: string)
    requires NoDoubleBooking(reservations)
    ensures IsReservedByCurrentUser(reservations, user, selectedDate, time) ==> !IsReservedByOthers(reservations, user, selectedDate, time)
  {
    if IsReservedByCurrentUser(reservations, user, selectedDate, time) {
      var own := UserReservationFor(reservations, user, selectedDate).value;
      var i :| 0 <= i < |reservations| && reservations[i] == own;
      forall j | 0 <= j < |reservations| && reservations[j].date == selectedDate && reservations[j].time == time
        ensures reservations[j].userId == user.value.uid
      {
        assert j == i || j < i || i < j;
        assert j == i;
      }
    }
  }

  // ---------------------------------------------------------------------
  // Booking and cancelling

  /** The display name a reservation is saved with when the identity has none. */
  const DefaultUserName := "משתמש"

  /** A slot at or before the current moment; only well-formed dates and
      times are compared. */
  predicate SlotIsPast(date: string, time: string, clock: Clock) {
    IsYMD(date) && IsHHMM(time)
    && (StrLt(date, clock.todayIso) || (date == clock.todayIso && TimeToMinutes(time) <= clock.nowMinutes))
  }

  predicate IsBlocked(date: string, time: string, blockedDays: set<string>, blockedSlots: map<string, set<string>>) {
    date in blockedDays || (date in blockedSlots && time in blockedSlots[date])
  }

  datatype BookingOutcome =
    | SignInRequired
    | DateOrSlotBlocked
    | InThePast
    | SlotUnavailable
    | Booked(id: string)
    | Failed(error: StoreError)

  /** At most one reservation per user per date: the application-level
      invariant the booking handler maintains. */
  ghost predicate OnePerUserPerDate(rs: map<string, Reservation>) {
    forall k1, k2 :: k1 in rs && k2 in rs && rs[k1].userId == rs[k2].userId && rs[k1].date == rs[k2].date ==> k1 == k2
  }

  /** The store after the user's first reservation on `date` (by key) is
      deleted and `rec` is saved under `newKey`. */
  ghost function Rebooked(rs: map<string, Reservation>, uid: string, date: string, newKey: string, rec: Reservation): map<string, Reservation> {
    Cleared(rs, uid, date)[newKey := rec]
  }

  /** The store after the user's first reservation on `date` (by key) is deleted. */
  ghost function Cleared(rs: map<string, Reservation>, uid: string, date: string): map<string, Reservation> {
    match FirstHeldKey(rs, uid, date) case None => rs case Some(k) => rs - {k}
  }

  /** With one reservation per user per date, deleting the first one the
      user holds on `date` leaves none, and removes nothing else. */
  lemma ClearedHoldsNothing(rs: map<string, Reservation>, uid: string, date: string)
    requires OnePerUserPerDate(rs)
    ensures var cleared := Cleared(rs, uid, date);
      && (forall k :: k in cleared ==> k in rs && cleared[k] == rs[k] && !HeldBy(rs[k], uid, date))
      && (forall k :: k in rs && !HeldBy(rs[k], uid, date) ==> k in cleared)
  {
    var held := HeldKeys(rs, uid, date);
    if held != {} {
      var m := LeastString(held);
      assert m in held;
      assert Cleared(rs, uid, date) == rs - {m};
      forall k | k in rs && HeldBy(rs[k], uid, date) ensures k == m {
        assert k in held;
      }
    } else {
      assert forall k :: k in rs && HeldBy(rs[k], uid, date) ==> k in held;
    }
  }

  /** Rebooking keeps one reservation per user per date, leaves the user
      exactly one reservation on that date (the new one), and changes no
      other record except one stored under the new key. */
  lemma RebookedProperties(rs: map<string, Reservation>, uid: string, date: string, newKey: string, rec: Reservation)
    requires OnePerUserPerDate(rs)
    requires HeldBy(rec, uid, date)
    ensures var after := Rebooked(rs, uid, date, newKey, rec);
      && OnePerUserPerDate(after)
      && HeldKeys(after, uid, date) == {newKey}
      && after[newKey] == rec
      && (forall k :: k in rs && k != newKey && !HeldBy(rs[k], uid, date) ==> k in after && after[k] == rs[k])
      && (forall k :: k in after ==> k in rs || k == newKey)
  {
    ClearedHoldsNothing(rs, uid, date);
  }

  /** `handleReservation`: refuse without a session and phone, on a blocked
      day or slot, for a slot at or before now, or when the availability
      check says no; otherwise delete the user's reservation on that date,
      if any, and create the new one. */
  method HandleReservation(db: Database, user: Option<Session>, userPhone: string, selectedDate: string,
                           blockedDays: set<string>, blockedSlots: map<string, set<string>>,
                           clock: Clock, time: string, newKey: string) returns (outcome: BookingOutcome)
    requires db.Valid()
    modifies db`reservations
    ensures db.Valid()
    ensures outcome == SignInRequired <==> user.None? || userPhone == ""
    ensures outcome == DateOrSlotBlocked <==> user.Some? && userPhone != "" && IsBlocked(selectedDate, time, blockedDays, blockedSlots)
    ensures outcome == InThePast <==> (user.Some? && userPhone != "" && !IsBlocked(selectedDate, time, blockedDays, blockedSlots)
      && SlotIsPast(selectedDate, time, clock))
    ensures outcome == SlotUnavailable ==> !IsHHMM(time) || SlotTakenByOther(old(db.reservations), selectedDate, time, user.value.uid)
    ensures (user.Some? && userPhone != "" && !IsBlocked(selectedDate, time, blockedDays, blockedSlots)
      && !SlotIsPast(selectedDate, time, clock) && IsHHMM(time) && SlotTaken(old(db.reservations), selectedDate, time)
      && !SlotTakenByCaller(old(db.reservations), selectedDate, time, user.value.uid)) ==> outcome == SlotUnavailable
    ensures outcome in {SignInRequired, DateOrSlotBlocked, InThePast, SlotUnavailable} ==> db.reservations == old(db.reservations)
    ensures outcome.Booked? ==> (outcome.id == newKey && IsHHMM(time)
      && db.reservations == Rebooked(old(db.reservations), user.value.uid, selectedDate, newKey,
           Reservation(newKey, user.value.uid, if user.value.displayName != "" then user.value.displayName else DefaultUserName, userPhone, selectedDate, time)))
    ensures outcome.Booked? && OnePerUserPerDate(old(db.reservations)) ==> OnePerUserPerDate(db.reservations)
    ensures (user.Some? && userPhone != "" && !IsBlocked(selectedDate, time, blockedDays, blockedSlots)
      && !IsHHMM(time)) ==> outcome == SlotUnavailable
    ensures outcome.Failed? ==> (outcome.error == NoGeneratedId && newKey == "" && IsHHMM(time)
      && db.reservations == match FirstHeldKey(old(db.reservations), user.value.uid, selectedDate)
           case None => old(db.reservations)
           case Some(k) => old(db.reservations) - {k})
  {
    if user.None? || userPhone == "" {
      return SignInRequired;
    }
    var uid := user.value.uid;
    if selectedDate in blockedDays || (selectedDate in blockedSlots && time in blockedSlots[selectedDate]) {
      return DateOrSlotBlocked;
    }
    if SlotIsPast(selectedDate, time, clock) {
      return InThePast;
    }
    var available := db.IsTimeSlotAvailable(selectedDate, time, uid);
    if !available {
      return SlotUnavailable;
    }
    ghost var before := db.reservations;
    var existing := db.GetUserReservationForDate(uid, selectedDate);
    if existing.Some? && existing.value.id != "" {
      var _ := db.DeleteReservation(existing.value.id);
    }
    assert db.reservations == match FirstHeldKey(before, uid, selectedDate) case None => before case Some(k) => before - {k};
    var name := if user.value.displayName != "" then user.value.displayName else DefaultUserName;
    var created := db.CreateReservation(ReservationRequest(uid, name, userPhone, selectedDate, time), newKey);
    if created.Err? {
      return Failed(created.error);
    }
    outcome := Booked(created.value);
    if OnePerUserPerDate(before) {
      RebookedProperties(before, uid, selectedDate, newKey, Reservation(newKey, uid, name, userPhone, selectedDate, time));
    }
  }

  datatype CancelOutcome = NotSignedIn | Cancelled(id: string) | NothingToCancel

  /** `handleCancelUserReservation`: delete the user's reservation on the
      selected date, or report that there is none. */
  method HandleCancelUserReservation(db: Database, user: Option<Session>, selectedDate: string) returns (outcome: CancelOutcome)
    requires db.Valid()
    modifies db`reservations
    ensures db.Valid()
    ensures outcome == NotSignedIn <==> user.None?
    ensures outcome == NothingToCancel <==> user.Some? && HeldKeys(old(db.reservations), user.value.uid, selectedDate) == {}
    ensures outcome.Cancelled? ==> (FirstHeldKey(old(db.reservations), user.value.uid, selectedDate) == Some(outcome.id)
      && db.reservations == old(db.reservations) - {outcome.id})
    ensures !outcome.Cancelled? ==> db.reservations == old(db.reservations)
  {
    if user.None? {
      return NotSignedIn;
    }
    var userRes := db.GetUserReservationForDate(user.value.uid, selectedDate);
    if userRes.Some? && userRes.value.id != "" {
      var _ := db.DeleteReservation(userRes.value.id);
      return Cancelled(userRes.value.id);
    }
    return NothingToCancel;
  }

  /** `handleDeleteReservation` (the admin path): any reservation by id,
      whoever holds it; an empty id is refused. */
  method HandleDeleteReservation(db: Database, id: string) returns (deleted: bool)
    requires db.Valid()
    modifies db`reservations
    ensures db.Valid()
    ensures deleted <==> id != ""
    ensures db.reservations == if id == "" then old(db.reservations) else old(db.reservations) - {id}
  {
    if id == "" {
      return false;
    }
    var _ := db.DeleteReservation(id);
    return true;
  }
}
