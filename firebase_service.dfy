/** The data layer: the reservation record, the legacy 12-hour time
    normaliser, the filters applied to live snapshots of blocked days and
    blocked slots, and the remote store itself, modelled as an in-memory
    object whose fields are the `reservations`, `blockedDays` and
    `blockedTimeSlots` nodes. */
module FirebaseService {
  import opened Wrappers
  import opened Strings

  /** One person's claim on one date and time (`reservations/{id}`). */
  datatype Reservation = Reservation(id: string, userId: string, name: string, phone: string, date: string, time: string)

  /** The record handed to `createReservation`: a reservation without its id. */
  datatype ReservationRequest = ReservationRequest(userId: string, name: string, phone: string, date: string, time: string)

  /** The errors the service functions throw. */
  datatype StoreError =
    | MissingTime
    | InvalidTimeAfterConversion(time: string)
    | NoGeneratedId
    | InvalidReservationId
    | InvalidDateFormat
    | InvalidTimeFormat

  // ---------------------------------------------------------------------
  // `convertAMPMToHHMM`

  /** `\s` in a JavaScript regular expression. */
  predicate IsSpace(c: char) {
    || c == ' ' || c == '\t' || c == '\n' || c == '\r' || c == '\U{000B}' || c == '\U{000C}'
    || c == '\U{00A0}' || c == '\U{1680}' || ('\U{2000}' <= c <= '\U{200A}')
    || c == '\U{2028}' || c == '\U{2029}' || c == '\U{202F}' || c == '\U{205F}'
    || c == '\U{3000}' || c == '\U{FEFF}'
  }

  datatype Meridiem = AM | PM

  /** What `/(\d{1,2}):(\d{2})\s*(AM|PM)/i` captures. */
  datatype ClockReading = ClockReading(hours: nat, minutes: nat, meridiem: Meridiem)

  /** The end of the run of `\s` characters that starts at `k`. */
  function SkipSpaces(s: string, k: nat): (r: nat)
    requires k <= |s|
    ensures k <= r <= |s|
    ensures forall j :: k <= j < r ==> IsSpace(s[j])
    ensures r < |s| ==> !IsSpace(s[r])
    decreases |s| - k
  {
    if k < |s| && IsSpace(s[k]) then SkipSpaces(s, k + 1) else k
  }

  /** `(AM|PM)` under the `i` flag, at position `k`. */
  function MeridiemAt(s: string, k: nat): Option<Meridiem> {
    if k + 1 < |s| && (s[k + 1] == 'M' || s[k + 1] == 'm') then
      if s[k] == 'A' || s[k] == 'a' then Some(AM)
      else if s[k] == 'P' || s[k] == 'p' then Some(PM)
      else None
    else None
  }

  /** `:(\d{2})\s*(AM|PM)` at position `j`, after an hour `h` has been read. */
  function ClockTailAt(s: string, j: nat, h: nat): (r: Option<ClockReading>)
    requires h < 100
    ensures r.Some? ==> r.value.hours == h && r.value.minutes < 100
  {
    if j + 2 < |s| && s[j] == ':' && IsDigit(s[j + 1]) && IsDigit(s[j + 2]) then
      match MeridiemAt(s, SkipSpaces(s, j + 3))
      case None => None
      case Some(md) => Some(ClockReading(h, TwoDigits(s, j + 1), md))
    else None
  }

  /** The pattern matched at position `i`. The greedy `\d{1,2}` tries two
      digits first; when `s[i + 1]` is a digit the one-digit alternative
      cannot work, since it needs a colon there. */
  function ClockAt(s: string, i: nat): (r: Option<ClockReading>)
    ensures r.Some? ==> r.value.hours < 100 && r.value.minutes < 100
  {
    if i + 1 < |s| && IsDigit(s[i]) && IsDigit(s[i + 1]) then ClockTailAt(s, i + 2, TwoDigits(s, i))
    else if i < |s| && IsDigit(s[i]) then ClockTailAt(s, i + 1, DigitVal(s[i]))
    else None
  }

  /** The leftmost match at or after `from`, as `String.prototype.match` finds it. */
  function FindClock(s: string, from: nat): (r: Option<ClockReading>)
    ensures r.Some? ==> r.value.hours < 100 && r.value.minutes < 100
    ensures r.None? ==> forall j :: from <= j ==> ClockAt(s, j).None?
    decreases |s| - from
  {
    if from >= |s| then None
    else match ClockAt(s, from)
      case Some(c) => Some(c)
      case None => FindClock(s, from + 1)
  }

  /** A found reading is the match at the leftmost position that has one. */
  lemma {:induction false} FindClockLeftmost(s: string, from: nat)
    ensures var r := FindClock(s, from);
      r.Some? ==> exists j :: from <= j < |s| && ClockAt(s, j) == r && forall k :: from <= k < j ==> ClockAt(s, k).None?
    decreases |s| - from
  {
    if from < |s| && ClockAt(s, from).None? {
      FindClockLeftmost(s, from + 1);
    }
  }

  /** The hour on a 24-hour clock: 12 AM is hour 0, a PM hour below 12 moves
      on by 12, every other hour is kept. */
  function Hours24(c: ClockReading): (h: nat)
    requires c.hours < 100
    ensures h < 100
    ensures c.meridiem == AM && c.hours == 12 ==> h == 0
    ensures c.meridiem == PM && c.hours < 12 ==> h == c.hours + 12
    ensures !(c.meridiem == AM && c.hours == 12) && !(c.meridiem == PM && c.hours < 12) ==> h == c.hours
  {
    if c.meridiem == PM && c.hours < 12 then c.hours + 12
    else if c.meridiem == AM && c.hours == 12 then 0
    else c.hours
  }

  /** `convertAMPMToHHMM`: an empty input gives `""`, an `HH:MM` input is
      returned as it is, a 12-hour reading is turned into `HH:MM`, and any
      other input is returned unchanged. */
  function ConvertAMPMToHHMM(s: string): (r: string)
    ensures s == "" ==> r == ""
    ensures IsHHMM(s) ==> r == s
    ensures r == s || IsHHMM(r)
    ensures s != "" && !IsHHMM(s) ==> (r == s <==> FindClock(s, 0).None?)
  {
    if s == "" then ""
    else if IsHHMM(s) then s
    else match FindClock(s, 0)
      case None => s
      case Some(c) => Pad2(Hours24(c)) + ":" + Pad2(c.minutes)
  }

  /** `convertAMPMToHHMM` on a missing (`null` or `undefined`) value. */
  function ConvertOptionalTime(t: Option<string>): (r: string)
    ensures t.None? ==> r == ""
    ensures t.Some? ==> r == ConvertAMPMToHHMM(t.value)
  {
    match t
    case None => ""
    case Some(s) => ConvertAMPMToHHMM(s)
  }

  /** The conversion is idempotent: its result is either its input or
      already in `HH:MM` form, and both are left alone a second time. */
  lemma ConvertIdempotent(s: string)
    ensures ConvertAMPMToHHMM(ConvertAMPMToHHMM(s)) == ConvertAMPMToHHMM(s)
  {
  }

  /** The hour as the legacy data writes it: one digit below 10, else two. */
  function HourText(h: nat): (r: string)
    requires h < 100
  {
    if h < 10 then [DigitChar(h)] else Pad2(h)
  }

  /** `AM` or `PM` in any letter case. */
  predicate IsMeridiemText(md: string) {
    |md| == 2 && md[0] in "AaPp" && md[1] in "Mm"
  }

  function MeridiemOf(md: string): Meridiem
    requires IsMeridiemText(md)
  {
    if md[0] in "Aa" then AM else PM
  }

  /** The legacy text `H:MM<spaces>AM` is found by the pattern at position 0,
      and is not itself in `HH:MM` form. */
  lemma {:induction false} TwelveHourTextMatches(h: nat, mm: string, gap: string, md: string)
    requires h < 100
    requires |mm| == 2 && IsDigit(mm[0]) && IsDigit(mm[1])
    requires forall i :: 0 <= i < |gap| ==> IsSpace(gap[i])
    requires IsMeridiemText(md)
    ensures var s := HourText(h) + ":" + mm + gap + md;
      && !IsHHMM(s) && s != ""
      && FindClock(s, 0) == Some(ClockReading(h, TwoDigits(mm, 0), MeridiemOf(md)))
  {
    var ht := HourText(h);
    var s := ht + ":" + mm + gap + md;
    var c := ClockReading(h, TwoDigits(mm, 0), MeridiemOf(md));
    TailMatches(ht, h, mm, gap, md);
    if h < 10 {
      assert s[0] == ht[0] && s[1] == ':';
      assert ClockAt(s, 0) == Some(c);
    } else {
      assert s[0] == ht[0] && s[1] == ht[1];
      assert TwoDigits(s, 0) == h;
      assert ClockAt(s, 0) == Some(c);
    }
    assert |s| >= 6;
  }

  /** After the hour text `pre`, the rest `:MM<spaces>AM` is read as the
      reading with hour `h`. */
  lemma TailMatches(pre: string, h: nat, mm: string, gap: string, md: string)
    requires h < 100
    requires |mm| == 2 && IsDigit(mm[0]) && IsDigit(mm[1])
    requires forall i :: 0 <= i < |gap| ==> IsSpace(gap[i])
    requires IsMeridiemText(md)
    ensures ClockTailAt(pre + ":" + mm + gap + md, |pre|, h) == Some(ClockReading(h, TwoDigits(mm, 0), MeridiemOf(md)))
  {
    var s := pre + ":" + mm + gap + md;
    var j := |pre|;
    assert s[j] == ':' && s[j + 1] == mm[0] && s[j + 2] == mm[1];
    assert forall i :: 0 <= i < |gap| ==> s[j + 3 + i] == gap[i];
    assert s[j + 3 + |gap|] == md[0] && s[j + 4 + |gap|] == md[1];
    assert !IsSpace(md[0]);
    SkipGap(s, j + 3, |gap|);
    assert TwoDigits(s, j + 1) == TwoDigits(mm, 0);
    assert MeridiemAt(s, j + 3 + |gap|) == Some(MeridiemOf(md));
  }

  /** `H:MM<spaces>AM` and `H:MM<spaces>PM`, in any letter case, become
      `HH:MM` on the 24-hour clock: `12:MM AM` is `00:MM`, `12:MM PM` stays
      `12:MM`, a PM hour below 12 gains 12, and the minutes are kept. */
  lemma {:induction false} TwelveHourForm(h: nat, mm: string, gap: string, md: string)
    requires h < 100
    requires |mm| == 2 && IsDigit(mm[0]) && IsDigit(mm[1])
    requires forall i :: 0 <= i < |gap| ==> IsSpace(gap[i])
    requires IsMeridiemText(md)
    ensures var r := ConvertAMPMToHHMM(HourText(h) + ":" + mm + gap + md);
      && IsHHMM(r)
      && r[3..] == mm
      && (md[0] in "Aa" && h == 12 ==> r == "00:" + mm)
      && (md[0] in "Pp" && h == 12 ==> r == "12:" + mm)
      && (md[0] in "Pp" && h < 12 ==> r == Pad2(h + 12) + ":" + mm)
      && (md[0] in "Aa" && h < 12 ==> r == Pad2(h) + ":" + mm)
  {
    TwelveHourConverts(h, mm, gap, md);
    MeridiemLetter(md);
    var c := ClockReading(h, TwoDigits(mm, 0), MeridiemOf(md));
    var r := Pad2(Hours24(c)) + ":" + mm;
    assert r[3..] == mm;
    if c.meridiem == AM {
      if h == 12 {
        assert Pad2(0) == "00";
      }
    } else if h == 12 {
      assert Pad2(12) == "12";
    }
  }

  /** The first letter tells the meridiem: `A`/`a` is AM, `P`/`p` is PM. */
  lemma MeridiemLetter(md: string)
    requires IsMeridiemText(md)
    ensures md[0] in "Aa" <==> MeridiemOf(md) == AM
    ensures md[0] in "Pp" <==> MeridiemOf(md) == PM
  {
  }

  /** The 12-hour text converts to the 24-hour hour and the same minutes. */
  lemma TwelveHourConverts(h: nat, mm: string, gap: string, md: string)
    requires h < 100
    requires |mm| == 2 && IsDigit(mm[0]) && IsDigit(mm[1])
    requires forall i :: 0 <= i < |gap| ==> IsSpace(gap[i])
    requires IsMeridiemText(md)
    ensures ConvertAMPMToHHMM(HourText(h) + ":" + mm + gap + md)
      == Pad2(Hours24(ClockReading(h, TwoDigits(mm, 0), MeridiemOf(md)))) + ":" + mm
  {
    TwelveHourTextMatches(h, mm, gap, md);
    Pad2OfTwoDigits(mm, 0);
    assert mm[0..2] == mm;
  }

  lemma {:induction false} SkipGap(s: string, k: nat, n: nat)
    requires k + n < |s|
    requires forall i :: k <= i < k + n ==> IsSpace(s[i])
    requires !IsSpace(s[k + n])
    ensures SkipSpaces(s, k) == k + n
    decreases n
  {
    if n > 0 { SkipGap(s, k + 1, n - 1); }
  }

  // ---------------------------------------------------------------------
  // `createReservation` and the records the reservations subscription yields

  /** The time check of `createReservation`: a missing time is refused, a
      time not in `HH:MM` form is converted, and a time still not in that
      form after conversion is refused. */
  function ValidateReservationTime(time: string): (r: Result<string, StoreError>)
    ensures r.Ok? <==> time != "" && IsHHMM(ConvertAMPMToHHMM(time))
    ensures r.Ok? ==> IsHHMM(r.value) && r.value == ConvertAMPMToHHMM(time)
    ensures time == "" ==> r == Err(MissingTime)
    ensures IsHHMM(time) ==> r == Ok(time)
    ensures time != "" && !r.Ok? ==> r == Err(InvalidTimeAfterConversion(ConvertAMPMToHHMM(time)))
  {
    if time != "" && !IsHHMM(time) then
      var t := ConvertAMPMToHHMM(time);
      if !IsHHMM(t) then Err(InvalidTimeAfterConversion(t)) else Ok(t)
    else if time == "" then Err(MissingTime)
    else Ok(time)
  }

  /** The record `createReservation` saves under the generated key. */
  function SavedRecord(req: ReservationRequest, id: string, time: string): Reservation {
    Reservation(id, req.userId, req.name, req.phone, req.date, time)
  }

  /** A stored record as the reservations subscription passes it on: a
      missing time becomes `"00:00"`, any other time is converted, and a
      missing id is replaced by the record's key. */
  function FromSnapshot(key: string, raw: Reservation): (r: Reservation)
    ensures r.userId == raw.userId && r.name == raw.name && r.phone == raw.phone && r.date == raw.date
    ensures r.time != ""
    ensures raw.time == "" ==> r.time == "00:00"
    ensures raw.time != "" ==> r.time == ConvertAMPMToHHMM(raw.time) && (IsHHMM(r.time) || r.time == raw.time)
    ensures r.id == (if raw.id != "" then raw.id else key)
    ensures IsHHMM(raw.time) && raw.id == key ==> r == raw
  {
    raw.(time := if raw.time != "" then ConvertAMPMToHHMM(raw.time) else "00:00",
         id := if raw.id != "" then raw.id else key)
  }

  /** A reservation occupies `(date, time)` once its stored time is normalised. */
  predicate OccupiesSlot(r: Reservation, date: string, time: string) {
    r.date == date && ConvertAMPMToHHMM(r.time) == time
  }

  /** Whether `userId` is the caller, where an empty caller id is no caller. */
  predicate IsCaller(r: Reservation, currentUserId: string) {
    currentUserId != "" && r.userId == currentUserId
  }

  ghost predicate SlotTaken(rs: map<string, Reservation>, date: string, time: string) {
    exists k :: k in rs && OccupiesSlot(rs[k], date, time)
  }

  ghost predicate SlotTakenByCaller(rs: map<string, Reservation>, date: string, time: string, currentUserId: string) {
    exists k :: k in rs && OccupiesSlot(rs[k], date, time) && IsCaller(rs[k], currentUserId)
  }

  ghost predicate SlotTakenByOther(rs: map<string, Reservation>, date: string, time: string, currentUserId: string) {
    exists k :: k in rs && OccupiesSlot(rs[k], date, time) && !IsCaller(rs[k], currentUserId)
  }

  /** The record `getUserReservationForDate` returns for the child at `key`. */
  function AsFound(key: string, r: Reservation): Reservation {
    r.(time := if r.time != "" then ConvertAMPMToHHMM(r.time) else "00:00", id := key)
  }

  predicate HeldBy(r: Reservation, userId: string, date: string) {
    r.userId == userId && r.date == date
  }

  /** The keys of the records `userId` holds on `date`. */
  ghost function HeldKeys(rs: map<string, Reservation>, userId: string, date: string): set<string> {
    set k | k in rs && HeldBy(rs[k], userId, date)
  }

  /** The least of those keys, the one a key-ordered scan meets first. */
  ghost function FirstHeldKey(rs: map<string, Reservation>, userId: string, date: string): Option<string> {
    var held := HeldKeys(rs, userId, date);
    if held == {} then None else Some(LeastString(held))
  }

  // ---------------------------------------------------------------------
  // Live snapshots of the blocked days and blocked slots

  /** `getBlockedDays`: the keys whose value is `true` (the map value says
      whether the stored value is literally `true`) and that have the
      `YYYY-MM-DD` shape. */
  method BlockedDaysFromSnapshot(data: map<string, bool>) returns (blocked: set<string>)
    ensures blocked == set d | d in data && data[d] && IsYMD(d)
  {
    blocked := {};
    var keys := data.Keys;
    while keys != {}
      invariant keys <= data.Keys
      invariant blocked == set d | d in data.Keys - keys && data[d] && IsYMD(d)
      decreases keys
    {
      var d :| d in keys;
      if data[d] && IsYMD(d) {
        blocked := blocked + {d};
      }
      keys := keys - {d};
    }
  }

  /** A child of `blockedTimeSlots`: an object of times, or any other value. */
  datatype SlotNode = Times(times: map<string, bool>) | NotAnObject

  /** The times of one date that the slots subscription keeps: those set to
      `true` whose key, once converted, is in `HH:MM` form. */
  ghost function KeptTimes(times: map<string, bool>): set<string> {
    set t | t in times && times[t] && IsHHMM(ConvertAMPMToHHMM(t)) :: ConvertAMPMToHHMM(t)
  }

  /** `getBlockedTimeSlots`: one entry per `YYYY-MM-DD` date whose node is an
      object with at least one kept time; no date maps to an empty set. */
  method BlockedSlotsFromSnapshot(data: map<string, SlotNode>) returns (slots: map<string, set<string>>)
    ensures forall d :: d in slots <==> d in data && IsYMD(d) && data[d].Times? && KeptTimes(data[d].times) != {}
    ensures forall d :: d in slots ==> slots[d] == KeptTimes(data[d].times) && slots[d] != {}
  {
    slots := map[];
    var dates := data.Keys;
    while dates != {}
      invariant dates <= data.Keys
      invariant forall d :: d in slots <==> d in data.Keys - dates && IsYMD(d) && data[d].Times? && KeptTimes(data[d].times) != {}
      invariant forall d :: d in slots ==> slots[d] == KeptTimes(data[d].times)
      decreases dates
    {
      var d :| d in dates;
      if IsYMD(d) && data[d].Times? {
        var timeSet := TimesFromNode(data[d].times);
        if timeSet != {} {
          slots := slots[d := timeSet];
        }
      }
      dates := dates - {d};
    }
  }

  /** The inner `forEach` of `getBlockedTimeSlots` over one date's times. */
  method TimesFromNode(times: map<string, bool>) returns (timeSet: set<string>)
    ensures timeSet == KeptTimes(times)
  {
    timeSet := {};
    var keys := times.Keys;
    while keys != {}
      invariant keys <= times.Keys
      invariant timeSet == set t | t in times.Keys - keys && times[t] && IsHHMM(ConvertAMPMToHHMM(t)) :: ConvertAMPMToHHMM(t)
      decreases keys
    {
      var t :| t in keys;
      if times[t] {
        var processed := ConvertAMPMToHHMM(t);
        if IsHHMM(processed) {
          timeSet := timeSet + {processed};
        }
      }
      keys := keys - {t};
    }
  }

  // ---------------------------------------------------------------------
  // The store

  class Database {
    /** `reservations/{id}` */
    var reservations: map<string, Reservation>
    /** `blockedDays/{date} -> true` */
    var blockedDays: set<string>
    /** `blockedTimeSlots/{date}/{time} -> true`; the store drops a node
        whose last child is removed. */
    var blockedSlots: map<string, set<string>>

    /** Every record is filed under its own non-empty id, and every blocked
        date and time has the shape its writer checks. */
    ghost predicate Valid()
      reads this
    {
      && (forall k :: k in reservations ==> k != "" && reservations[k].id == k)
      && (forall d :: d in blockedDays ==> IsYMD(d))
      && (forall d :: d in blockedSlots ==> IsYMD(d) && blockedSlots[d] != {} && forall t :: t in blockedSlots[d] ==> IsHHMM(t))
    }

    constructor ()
      ensures Valid()
      ensures reservations == map[] && blockedDays == {} && blockedSlots == map[]
    {
      reservations, blockedDays, blockedSlots := map[], {}, map[];
    }

    /** `createReservation`, with `newKey` the key the store's `push`
        generates (`""` when it fails to generate one). */
    method CreateReservation(req: ReservationRequest, newKey: string) returns (result: Result<string, StoreError>)
      requires Valid()
      modifies this`reservations
      ensures Valid()
      ensures result.Ok? <==> ValidateReservationTime(req.time).Ok? && newKey != ""
      ensures result.Ok? ==> (result.value == newKey
        && reservations == old(reservations)[newKey := SavedRecord(req, newKey, ValidateReservationTime(req.time).value)])
      ensures ValidateReservationTime(req.time).Err? ==> result == Err(ValidateReservationTime(req.time).error)
      ensures ValidateReservationTime(req.time).Ok? && newKey == "" ==> result == Err(NoGeneratedId)
      ensures result.Err? ==> reservations == old(reservations)
    {
      var checked := ValidateReservationTime(req.time);
      if checked.Err? {
        return Err(checked.error);
      }
      if newKey == "" {
        return Err(NoGeneratedId);
      }
      reservations := reservations[newKey := SavedRecord(req, newKey, checked.value)];
      result := Ok(newKey);
    }

    /** `deleteReservation`: an empty id is refused; removing an absent id
        changes nothing. */
    method DeleteReservation(id: string) returns (result: Result<(), StoreError>)
      requires Valid()
      modifies this`reservations
      ensures Valid()
      ensures result.Ok? <==> id != ""
      ensures result.Err? ==> result.error == InvalidReservationId
      ensures reservations == if id == "" then old(reservations) else old(reservations) - {id}
    {
      if id == "" {
        return Err(InvalidReservationId);
      }
      reservations := reservations - {id};
      result := Ok(());
    }

    /** `isTimeSlotBooked`: a malformed time counts as booked; otherwise the
        slot is booked exactly when some reservation occupies it. */
    method IsTimeSlotBooked(date: string, time: string) returns (booked: bool)
      ensures booked == (!IsHHMM(time) || SlotTaken(reservations, date, time))
    {
      if !IsHHMM(time) {
        return true;
      }
      var keys := reservations.Keys;
      while keys != {}
        invariant keys <= reservations.Keys
        invariant forall k :: k in reservations.Keys - keys ==> !OccupiesSlot(reservations[k], date, time)
        decreases keys
      {
        var k :| k in keys;
        if OccupiesSlot(reservations[k], date, time) {
          return true;
        }
        keys := keys - {k};
      }
      return false;
    }

    /** `isTimeSlotAvailable`: a malformed time is unavailable; otherwise the
        scan stops at the first reservation occupying the slot and answers
        whether it is the caller's, and a slot nobody occupies is available.
        The scan order is the snapshot's and is left open, so when the caller
        and someone else both occupy the slot either answer is possible. */
    method IsTimeSlotAvailable(date: string, time: string, currentUserId: string) returns (available: bool)
      ensures available ==> IsHHMM(time) && (!SlotTaken(reservations, date, time) || SlotTakenByCaller(reservations, date, time, currentUserId))
      ensures !available ==> !IsHHMM(time) || SlotTakenByOther(reservations, date, time, currentUserId)
    {
      if !IsHHMM(time) {
        return false;
      }
      var keys := reservations.Keys;
      while keys != {}
        invariant keys <= reservations.Keys
        invariant forall k :: k in reservations.Keys - keys ==> !OccupiesSlot(reservations[k], date, time)
        decreases keys
      {
        var k :| k in keys;
        var r := reservations[k];
        if OccupiesSlot(r, date, time) {
          if IsCaller(r, currentUserId) {
            return true;
          }
          return false;
        }
        keys := keys - {k};
      }
      return true;
    }

    /** `getUserReservationForDate`: the user's children are visited in key
        order and the first one on `date` is returned, with its time
        normalised and its key as id; `None` when the user holds nothing on
        that date. */
    method GetUserReservationForDate(userId: string, date: string) returns (found: Option<Reservation>)
      ensures found.None? <==> forall k :: k in reservations ==> !HeldBy(reservations[k], userId, date)
      ensures found.Some? ==> exists k :: (k in reservations && HeldBy(reservations[k], userId, date)
        && found.value == AsFound(k, reservations[k])
        && forall k' :: k' in reservations && HeldBy(reservations[k'], userId, date) ==> StrLe(k, k'))
      ensures found == match FirstHeldKey(reservations, userId, date)
        case None => None
        case Some(k) => Some(AsFound(k, reservations[k]))
    {
      var keys := reservations.Keys;
      while keys != {}
        invariant keys <= reservations.Keys
        invariant forall k :: k in reservations.Keys - keys ==> !HeldBy(reservations[k], userId, date)
        invariant forall k, k' :: k in reservations.Keys - keys && k' in keys ==> StrLt(k, k')
        decreases keys
      {
        LeastStringExists(keys);
        var k :| k in keys && forall x :: x in keys ==> StrLe(k, x);
        if HeldBy(reservations[k], userId, date) {
          forall k' | k' in reservations && HeldBy(reservations[k'], userId, date) ensures StrLe(k, k') {
            StrLtTotal(k, k');
          }
          LeastStringUnique(HeldKeys(reservations, userId, date), k);
          return Some(AsFound(k, reservations[k]));
        }
        forall x, x' | x in reservations.Keys - (keys - {k}) && x' in keys - {k} ensures StrLt(x, x') {
          if x == k { StrLtTotal(k, x'); StrLtAsymmetric(k, x'); }
        }
        keys := keys - {k};
      }
      return None;
    }

    /** `blockDay`: a date not of the `YYYY-MM-DD` shape is refused. */
    method BlockDay(date: string) returns (result: Result<(), StoreError>)
      requires Valid()
      modifies this`blockedDays
      ensures Valid()
      ensures result.Ok? <==> IsYMD(date)
      ensures result.Err? ==> result.error == InvalidDateFormat
      ensures blockedDays == if IsYMD(date) then old(blockedDays) + {date} else old(blockedDays)
    {
      if !IsYMD(date) {
        return Err(InvalidDateFormat);
      }
      blockedDays := blockedDays + {date};
      result := Ok(());
    }

    /** `unblockDay`: a date not of the `YYYY-MM-DD` shape is refused. */
    method UnblockDay(date: string) returns (result: Result<(), StoreError>)
      requires Valid()
      modifies this`blockedDays
      ensures Valid()
      ensures result.Ok? <==> IsYMD(date)
      ensures result.Err? ==> result.error == InvalidDateFormat
      ensures blockedDays == if IsYMD(date) then old(blockedDays) - {date} else old(blockedDays)
    {
      if !IsYMD(date) {
        return Err(InvalidDateFormat);
      }
      blockedDays := blockedDays - {date};
      result := Ok(());
    }

    /** `blockTimeSlot`: the date must have the `YYYY-MM-DD` shape and the
        time the `HH:MM` shape. */
    method BlockTimeSlot(date: string, time: string) returns (result: Result<(), StoreError>)
      requires Valid()
      modifies this`blockedSlots
      ensures Valid()
      ensures result.Ok? <==> IsYMD(date) && IsHHMM(time)
      ensures result.Err? ==> result.error == if !IsYMD(date) then InvalidDateFormat else InvalidTimeFormat
      ensures blockedSlots == if result.Ok? then WithSlot(old(blockedSlots), date, time) else old(blockedSlots)
    {
      if !IsYMD(date) {
        return Err(InvalidDateFormat);
      }
      if !IsHHMM(time) {
        return Err(InvalidTimeFormat);
      }
      blockedSlots := WithSlot(blockedSlots, date, time);
      result := Ok(());
    }

    /** `unblockTimeSlot`: the same shape checks; removing an absent slot
        changes nothing. */
    method UnblockTimeSlot(date: string, time: string) returns (result: Result<(), StoreError>)
      requires Valid()
      modifies this`blockedSlots
      ensures Valid()
      ensures result.Ok? <==> IsYMD(date) && IsHHMM(time)
      ensures result.Err? ==> result.error == if !IsYMD(date) then InvalidDateFormat else InvalidTimeFormat
      ensures blockedSlots == if result.Ok? then WithoutSlot(old(blockedSlots), date, time) else old(blockedSlots)
    {
      if !IsYMD(date) {
        return Err(InvalidDateFormat);
      }
      if !IsHHMM(time) {
        return Err(InvalidTimeFormat);
      }
      blockedSlots := WithoutSlot(blockedSlots, date, time);
      result := Ok(());
    }
  }

  /** `set(blockedTimeSlots/{date}/{time}, true)` on the slots node. */
  function WithSlot(m: map<string, set<string>>, date: string, time: string): (r: map<string, set<string>>)
    ensures r.Keys == m.Keys + {date}
    ensures r[date] == (if date in m then m[date] else {}) + {time}
    ensures forall d :: d in m && d != date ==> r[d] == m[d]
  {
    m[date := (if date in m then m[date] else {}) + {time}]
  }

  /** `remove(blockedTimeSlots/{date}/{time})` on the slots node: the date's
      node disappears with its last time. */
  function WithoutSlot(m: map<string, set<string>>, date: string, time: string): (r: map<string, set<string>>)
    ensures forall d :: d != date ==> (d in r <==> d in m) && (d in r ==> r[d] == m[d])
    ensures date in r <==> date in m && m[date] - {time} != {}
    ensures date in r ==> r[date] == m[date] - {time}
  {
    if date !in m then m
    else if m[date] - {time} == {} then m - {date}
    else m[date := m[date] - {time}]
  }
}
