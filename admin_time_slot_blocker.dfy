/** The admin's time-slot blocker: expanding a time range into the grid
    slots still to block, blocking them, the list of blocked slots from today
    on, the bulk unblock over that list, and the end-time choices that follow
    the chosen start time. */
module AdminTimeSlotBlocker {
  import opened Wrappers
  import opened Strings
  import opened TimeOfDay
  import opened FirebaseService
  import opened Collections

  /** The times the live snapshot holds as blocked on `date`. */
  function BlockedOn(blockedSlots: map<string, set<string>>, date: string): set<string> {
    if date in blockedSlots then blockedSlots[date] else {}
  }

  /** A (date, time) pair is blocked. */
  predicate Has(blockedSlots: map<string, set<string>>, date: string, time: string) {
    date in blockedSlots && time in blockedSlots[date]
  }

  /** Adding one slot to the slots node adds exactly that pair. */
  lemma WithSlotHas(m: map<string, set<string>>, date: string, time: string)
    ensures forall d, t :: Has(WithSlot(m, date, time), d, t) <==> Has(m, d, t) || (d == date && t == time)
  {
  }

  /** Removing one slot from the slots node removes exactly that pair. */
  lemma WithoutSlotHas(m: map<string, set<string>>, date: string, time: string)
    ensures forall d, t :: Has(WithoutSlot(m, date, time), d, t) <==> Has(m, d, t) && !(d == date && t == time)
  {
    var r := WithoutSlot(m, date, time);
    forall d, t ensures Has(r, d, t) <==> Has(m, d, t) && !(d == date && t == time) {
      if d == date && date in m && date !in r && t != time {
        assert t !in m[date] - {time};
      }
    }
  }

  // ---------------------------------------------------------------------
  // Range blocking

  /** The test `handleBlockRange` applies to each grid slot: within
      `startM..endM` minutes and not blocked yet. */
  function ToBlock(startM: int, endM: int, already: set<string>): string -> bool {
    t => startM <= TimeToMinutes(t) <= endM && t !in already
  }

  /** The entries of `grid`, in order, that the range selects. */
  function SlotsToBlock(grid: seq<string>, startM: int, endM: int, already: set<string>): seq<string> {
    Filter(grid, ToBlock(startM, endM, already))
  }

  /** A slot is selected exactly when it is on the grid, within the range and
      not yet blocked. */
  lemma SlotsToBlockMembers(grid: seq<string>, startM: int, endM: int, already: set<string>)
    ensures forall t :: t in SlotsToBlock(grid, startM, endM, already) <==>
      t in grid && startM <= TimeToMinutes(t) <= endM && t !in already
  {
    FilterMembers(grid, ToBlock(startM, endM, already));
  }

  /** One slot of that `forEach`: the slot is appended exactly when the
      range test selects it. */
  lemma CollectStep(grid: seq<string>, i: nat, startM: int, endM: int, selectedDate: string, blockedSlots: map<string, set<string>>)
    requires i < |grid|
    ensures var slotM := TimeToMinutes(grid[i]);
      SlotsToBlock(grid[..i + 1], startM, endM, BlockedOn(blockedSlots, selectedDate))
      == SlotsToBlock(grid[..i], startM, endM, BlockedOn(blockedSlots, selectedDate))
         + if slotM >= startM && slotM <= endM && !(selectedDate in blockedSlots && grid[i] in blockedSlots[selectedDate])
           then [grid[i]] else []
  {
    FilterSnoc(grid, ToBlock(startM, endM, BlockedOn(blockedSlots, selectedDate)), i);
  }

  /** The `forEach` of `handleBlockRange` that collects the slots to block. */
  method CollectSlotsToBlock(selectedDate: string, startM: int, endM: int, blockedSlots: map<string, set<string>>)
    returns (slotsToBlock: seq<string>)
    ensures slotsToBlock == SlotsToBlock(AvailableTimes, startM, endM, BlockedOn(blockedSlots, selectedDate))
  {
    var grid := AvailableTimes;
    var already := BlockedOn(blockedSlots, selectedDate);
    slotsToBlock := [];
    var i := 0;
    while i < |grid|
      invariant 0 <= i <= |grid|
      invariant slotsToBlock == SlotsToBlock(grid[..i], startM, endM, already)
    {
      var slot := grid[i];
      var slotM := TimeToMinutes(slot);
      CollectStep(grid, i, startM, endM, selectedDate, blockedSlots);
      if slotM >= startM && slotM <= endM && !(selectedDate in blockedSlots && slot in blockedSlots[selectedDate]) {
        slotsToBlock := slotsToBlock + [slot];
      }
      i := i + 1;
    }
    assert grid[..i] == grid;
  }

  /** The range from grid slot `i` to grid slot `j`, with nothing blocked
      yet, is exactly the slots `i..j` in grid order. */
  lemma RangeOfGrid(i: nat, j: nat)
    requires i <= j < |AvailableTimes|
    ensures SlotsToBlock(AvailableTimes, FirstSlotMinutes + SlotLength * i, FirstSlotMinutes + SlotLength * j, {})
      == AvailableTimes[i..j + 1]
  {
    var g := AvailableTimes;
    var keep := ToBlock(FirstSlotMinutes + SlotLength * i, FirstSlotMinutes + SlotLength * j, {});
    forall k | 0 <= k < |g| ensures keep(g[k]) <==> i <= k <= j {
      GridSlot(k);
    }
    FilterBlock(g, keep, i, j);
  }

  /** 10:00 to 11:00 selects 10:00, 10:30 and 11:00. */
  lemma RangeExample(startTime: string, endTime: string)
    requires startTime == "10:00" && endTime == "11:00"
    ensures SlotsToBlock(AvailableTimes, TimeToMinutes(startTime), TimeToMinutes(endTime), {}) == ["10:00", "10:30", "11:00"]
  {
    TenToEleven();
    GridSlot(2);
    GridSlot(4);
    RangeOfGrid(2, 4);
  }

  /** Grid slots 2 to 4 are 10:00, 10:30 and 11:00. */
  lemma TenToEleven()
    ensures AvailableTimes[2] == "10:00" && AvailableTimes[4] == "11:00"
    ensures AvailableTimes[2..5] == ["10:00", "10:30", "11:00"]
  {
  }

  /** Once the selected slots are blocked, the same range selects nothing. */
  lemma RepeatSelectsNothing(grid: seq<string>, startM: int, endM: int, already: set<string>)
    ensures var first := SlotsToBlock(grid, startM, endM, already);
      SlotsToBlock(grid, startM, endM, already + set t | t in first) == []
  {
    var first := SlotsToBlock(grid, startM, endM, already);
    SlotsToBlockMembers(grid, startM, endM, already);
    FilterNone(grid, ToBlock(startM, endM, already + set t | t in first));
  }

  datatype RangeOutcome =
    | NoDateSelected
    | MissingRangeTime
    | BadTimeFormat
    | StartAfterEnd
    | NothingNewToBlock
    | RangeBlocked(count: nat)
    | RangeFailed

  predicate Rejected(outcome: RangeOutcome) {
    outcome == NoDateSelected || outcome == MissingRangeTime || outcome == BadTimeFormat || outcome == StartAfterEnd
  }

  /** A slot write fails when it is lost or the store refuses its format. */
  predicate SlotWriteFails(date: string, time: string, failing: set<string>) {
    time in failing || !IsYMD(date) || !IsHHMM(time)
  }

  /** The `Promise.all` of `blockTimeSlot` writes, one slot after another:
      every write is issued, and the result says whether any failed. */
  method BlockEach(db: Database, date: string, slots: seq<string>, failing: set<string>) returns (anyFailed: bool)
    requires db.Valid()
    modifies db`blockedSlots
    ensures db.Valid()
    ensures anyFailed <==> exists t :: t in slots && SlotWriteFails(date, t, failing)
    ensures forall d, t :: Has(db.blockedSlots, d, t) <==>
      Has(old(db.blockedSlots), d, t) || (d == date && t in slots && !SlotWriteFails(date, t, failing))
  {
    anyFailed := false;
    var i := 0;
    while i < |slots|
      invariant 0 <= i <= |slots|
      invariant db.Valid()
      invariant anyFailed <==> exists t :: t in slots[..i] && SlotWriteFails(date, t, failing)
      invariant forall d, t :: Has(db.blockedSlots, d, t) <==>
        Has(old(db.blockedSlots), d, t) || (d == date && t in slots[..i] && !SlotWriteFails(date, t, failing))
    {
      var slot := slots[i];
      assert slots[..i + 1] == slots[..i] + [slot];
      if slot in failing {
        anyFailed := true;
      } else {
        WithSlotHas(db.blockedSlots, date, slot);
        var result := db.BlockTimeSlot(date, slot);
        if result.Err? {
          anyFailed := true;
        }
      }
      assert slot in slots[..i + 1];
      assert (exists t :: t in slots[..i + 1] && SlotWriteFails(date, t, failing))
        <==> (exists t :: t in slots[..i] && SlotWriteFails(date, t, failing)) || SlotWriteFails(date, slot, failing);
      i := i + 1;
    }
    assert slots[..i] == slots;
  }

  /** `handleBlockRange`: refuse a missing date, a missing or malformed time,
      or a start after the end; otherwise block every slot of the range not
      yet blocked. `failing` says which writes are lost; all writes are
      issued and the outcome is a failure if any of them fails. */
  method HandleBlockRange(db: Database, blockedSlots: map<string, set<string>>, selectedDate: string,
                          startTime: string, endTime: string, failing: set<string>)
    returns (outcome: RangeOutcome, written: seq<string>)
    requires db.Valid()
    modifies db`blockedSlots
    ensures db.Valid()
    ensures outcome == NoDateSelected <==> selectedDate == ""
    ensures outcome == MissingRangeTime <==> selectedDate != "" && (startTime == "" || endTime == "")
    ensures outcome == BadTimeFormat <==> (selectedDate != "" && startTime != "" && endTime != ""
      && (TimeToMinutes(startTime) == -1 || TimeToMinutes(endTime) == -1))
    ensures outcome == StartAfterEnd <==> (selectedDate != "" && startTime != "" && endTime != ""
      && TimeToMinutes(startTime) != -1 && TimeToMinutes(endTime) != -1 && TimeToMinutes(startTime) > TimeToMinutes(endTime))
    ensures Rejected(outcome) || outcome == NothingNewToBlock ==> written == [] && db.blockedSlots == old(db.blockedSlots)
    ensures !Rejected(outcome) ==>
      written == SlotsToBlock(AvailableTimes, TimeToMinutes(startTime), TimeToMinutes(endTime), BlockedOn(blockedSlots, selectedDate))
    ensures outcome == NothingNewToBlock <==> !Rejected(outcome) && written == []
    ensures outcome.RangeBlocked? ==> outcome.count == |written| && IsYMD(selectedDate) && forall t :: t in written ==> t !in failing
    ensures outcome.RangeFailed? ==> !IsYMD(selectedDate) || exists t :: t in written && t in failing
    ensures forall d, t :: Has(db.blockedSlots, d, t) <==>
      Has(old(db.blockedSlots), d, t) || (IsYMD(selectedDate) && d == selectedDate && t in written && t !in failing)
  {
    written := [];
    if selectedDate == "" {
      return NoDateSelected, written;
    }
    if startTime == "" || endTime == "" {
      return MissingRangeTime, written;
    }
    var startM := TimeToMinutes(startTime);
    var endM := TimeToMinutes(endTime);
    if startM == -1 || endM == -1 {
      return BadTimeFormat, written;
    }
    if startM > endM {
      return StartAfterEnd, written;
    }
    var slotsToBlock := CollectSlotsToBlock(selectedDate, startM, endM, blockedSlots);
    if |slotsToBlock| == 0 {
      return NothingNewToBlock, written;
    }
    SlotsToBlockMembers(AvailableTimes, startM, endM, BlockedOn(blockedSlots, selectedDate));
    GridWellFormed();
    var anyFailed := BlockEach(db, selectedDate, slotsToBlock, failing);
    written := slotsToBlock;
    if anyFailed {
      var t :| t in slotsToBlock && SlotWriteFails(selectedDate, t, failing);
      assert !IsYMD(selectedDate) || t in failing;
      return RangeFailed, written;
    }
    assert !SlotWriteFails(selectedDate, slotsToBlock[0], failing);
    return RangeBlocked(|written|), written;
  }

  /** After a fully successful range block, the same request selects
      nothing more (as seen through a snapshot that reflects the store). */
  lemma BlockRangeIdempotent(before: map<string, set<string>>, after: map<string, set<string>>, selectedDate: string,
                             startTime: string, endTime: string, written: seq<string>)
    requires written == SlotsToBlock(AvailableTimes, TimeToMinutes(startTime), TimeToMinutes(endTime), BlockedOn(before, selectedDate))
    requires forall t :: Has(after, selectedDate, t) <==> Has(before, selectedDate, t) || t in written
    ensures SlotsToBlock(AvailableTimes, TimeToMinutes(startTime), TimeToMinutes(endTime), BlockedOn(after, selectedDate)) == []
  {
    forall t ensures t in BlockedOn(after, selectedDate) <==> t in BlockedOn(before, selectedDate) + set t | t in written {
      assert t in BlockedOn(after, selectedDate) <==> Has(after, selectedDate, t);
    }
    assert BlockedOn(after, selectedDate) == BlockedOn(before, selectedDate) + set t | t in written;
    RepeatSelectsNothing(AvailableTimes, TimeToMinutes(startTime), TimeToMinutes(endTime), BlockedOn(before, selectedDate));
  }

  datatype UnblockOutcome = SlotUnblocked | UnblockFailed(error: StoreError)

  /** `handleDirectUnblock`: the store's `unblockTimeSlot` for one listed pair. */
  method HandleDirectUnblock(db: Database, date: string, time: string) returns (outcome: UnblockOutcome)
    requires db.Valid()
    modifies db`blockedSlots
    ensures db.Valid()
    ensures outcome == SlotUnblocked <==> IsYMD(date) && IsHHMM(time)
    ensures forall d, t :: Has(db.blockedSlots, d, t) <==> Has(old(db.blockedSlots), d, t) && !(outcome == SlotUnblocked && d == date && t == time)
  {
    WithoutSlotHas(db.blockedSlots, date, time);
    var result := db.UnblockTimeSlot(date, time);
    if result.Err? {
      return UnblockFailed(result.error);
    }
    return SlotUnblocked;
  }

  // ---------------------------------------------------------------------
  // The list of blocked slots from today on

  datatype SlotRef = SlotRef(date: string, time: string)

  /** Time order of the list: by minutes, equal minutes by code order. */
  predicate TimeBefore(a: string, b: string) {
    TimeToMinutes(a) < TimeToMinutes(b) || (TimeToMinutes(a) == TimeToMinutes(b) && StrLt(a, b))
  }

  /** On grid times the tie-break never applies: equal minutes mean the
      same grid slot. */
  lemma GridTimesTieFree(i: nat, j: nat)
    requires i < |AvailableTimes| && j < |AvailableTimes|
    requires TimeToMinutes(AvailableTimes[i]) == TimeToMinutes(AvailableTimes[j])
    ensures i == j
  {
    GridSlot(i);
    GridSlot(j);
  }

  /** Off the grid it can: `HH:MM` does not bound the minutes, so 09:75 and
      10:15 fall on the same minute of the day. */
  lemma MinuteTieExample()
    ensures IsHHMM("09:75") && IsHHMM("10:15") && TimeToMinutes("09:75") == TimeToMinutes("10:15")
  {
    assert IsHHMM("09:75") && IsHHMM("10:15");
  }

  lemma TimeBeforeTransitive(a: string, b: string, c: string)
    requires TimeBefore(a, b) && TimeBefore(b, c)
    ensures TimeBefore(a, c)
  {
    if TimeToMinutes(a) == TimeToMinutes(b) == TimeToMinutes(c) { StrLtTransitive(a, b, c); }
  }

  lemma TimeBeforeTotal(a: string, b: string)
    ensures a == b || TimeBefore(a, b) || TimeBefore(b, a)
    ensures !(TimeBefore(a, b) && TimeBefore(b, a))
  {
    StrLtTotal(a, b);
    if StrLt(a, b) && StrLt(b, a) { StrLtAsymmetric(a, b); }
  }

  /** The list's time order is a strict total order on every set of times. */
  lemma TimeBeforeOrders(s: set<string>)
    ensures StrictTotalOn(s, TimeBefore)
  {
    forall a, b, c | a in s && b in s && c in s && TimeBefore(a, b) && TimeBefore(b, c) ensures TimeBefore(a, c) {
      TimeBeforeTransitive(a, b, c);
    }
    forall a, b | a in s && b in s && a != b ensures TimeBefore(a, b) || TimeBefore(b, a) {
      TimeBeforeTotal(a, b);
    }
  }

  /** The times of a set in list order. */
  ghost function SortedTimes(s: set<string>): (r: seq<string>)
    ensures forall t :: t in r <==> t in s
    ensures forall i, j :: 0 <= i < j < |r| ==> TimeBefore(r[i], r[j])
  {
    TimeBeforeOrders(s);
    SortedByCorrect(s, TimeBefore);
    SortedBy(s, TimeBefore)
  }

  /** The pairs of one date, its times in list order. */
  ghost function DateGroup(date: string, times: seq<string>): (r: seq<SlotRef>)
    ensures |r| == |times|
    ensures forall k :: 0 <= k < |r| ==> r[k] == SlotRef(date, times[k])
  {
    seq(|times|, k requires 0 <= k < |times| => SlotRef(date, times[k]))
  }

  lemma DateGroupMembers(date: string, times: seq<string>)
    ensures forall p :: p in DateGroup(date, times) <==> p.date == date && p.time in times
  {
    var g := DateGroup(date, times);
    forall p ensures p in g <==> p.date == date && p.time in times {
      if p.date == date && p.time in times {
        var k :| 0 <= k < |times| && times[k] == p.time;
        assert g[k] == p;
      }
    }
  }

  /** The pairs of the listed dates, date by date, times in list order. */
  ghost function PairsOf(dates: seq<string>, blockedSlots: map<string, set<string>>): (r: seq<SlotRef>)
    requires forall i :: 0 <= i < |dates| ==> dates[i] in blockedSlots
    ensures forall p :: p in r <==> p.date in dates && Has(blockedSlots, p.date, p.time)
  {
    if dates == [] then []
    else
      var times := SortedTimes(blockedSlots[dates[0]]);
      var rest := PairsOf(dates[1..], blockedSlots);
      assert forall d :: d in dates <==> d == dates[0] || d in dates[1..];
      DateGroupMembers(dates[0], times);
      DateGroup(dates[0], times) + rest
  }

  /** The list order: by date, then by time. */
  predicate ListedBefore(p: SlotRef, q: SlotRef) {
    StrLt(p.date, q.date) || (p.date == q.date && TimeBefore(p.time, q.time))
  }

  /** Each pair of the list comes before every later one. */
  predicate ListOrdered(r: seq<SlotRef>) {
    forall i, j :: 0 <= i < j < |r| ==> ListedBefore(r[i], r[j])
  }

  lemma {:induction false} PairsOrdered(dates: seq<string>, blockedSlots: map<string, set<string>>)
    requires forall i :: 0 <= i < |dates| ==> dates[i] in blockedSlots
    requires forall i, j :: 0 <= i < j < |dates| ==> StrLt(dates[i], dates[j])
    ensures ListOrdered(PairsOf(dates, blockedSlots))
  {
    if dates != [] {
      var times := SortedTimes(blockedSlots[dates[0]]);
      var group := DateGroup(dates[0], times);
      var rest := PairsOf(dates[1..], blockedSlots);
      PairsOrdered(dates[1..], blockedSlots);
      var r := group + rest;
      assert r == PairsOf(dates, blockedSlots);
      forall q | q in rest ensures StrLt(dates[0], q.date) {
        var j :| 0 <= j < |dates[1..]| && dates[1..][j] == q.date;
        assert dates[j + 1] == q.date;
      }
      forall i, j | 0 <= i < j < |r| ensures ListedBefore(r[i], r[j]) {
        if j < |group| {
          assert r[i] == SlotRef(dates[0], times[i]) && r[j] == SlotRef(dates[0], times[j]);
          assert TimeBefore(times[i], times[j]);
        } else if i < |group| {
          assert r[i].date == dates[0];
          AppendRight(group, rest, j);
          assert rest[j - |group|] in rest;
        } else {
          AppendRight(group, rest, i);
          AppendRight(group, rest, j);
        }
      }
    }
  }

  /** `displayedBlockedSlotsList`: every blocked pair whose date is not
      before today, by date and then by minutes, each pair once. */
  ghost function DisplayedBlockedSlots(blockedSlots: map<string, set<string>>, todayIso: string): (r: seq<SlotRef>)
    ensures forall p :: p in r <==> Has(blockedSlots, p.date, p.time) && !StrLt(p.date, todayIso)
    ensures forall i, j :: 0 <= i < j < |r| ==> ListedBefore(r[i], r[j])
    ensures forall i, j :: 0 <= i < j < |r| ==> r[i] != r[j]
  {
    var dates := SortedStrings(set d | d in blockedSlots && !StrLt(d, todayIso));
    assert forall i :: 0 <= i < |dates| ==> dates[i] in dates;
    var r := PairsOf(dates, blockedSlots);
    PairsOrdered(dates, blockedSlots);
    forall i, j | 0 <= i < j < |r| ensures r[i] != r[j] {
      assert ListedBefore(r[i], r[j]);
      TimeBeforeTotal(r[i].time, r[j].time);
      StrLtIrreflexive(r[i].date);
    }
    r
  }

  // ---------------------------------------------------------------------
  // Bulk unblock

  /** An unblock call fails when the write is lost or the store refuses the
      pair's format. */
  predicate SlotUnblockFails(p: SlotRef, failing: set<SlotRef>) {
    p in failing || !IsYMD(p.date) || !IsHHMM(p.time)
  }

  function CountSlotFailures(list: seq<SlotRef>, failing: set<SlotRef>): (n: nat)
    ensures n <= |list|
  {
    if list == [] then 0
    else CountSlotFailures(list[..|list| - 1], failing) + (if SlotUnblockFails(list[|list| - 1], failing) then 1 else 0)
  }

  datatype BulkOutcome = NothingListed | NotConfirmed | Finished(unblocked: nat, failed: nat)

  /** `handleUnblockAllFutureSlots`: with an empty list nothing happens;
      otherwise, once confirmed, one removal is issued per listed pair, each
      success or failure is counted, and no failure stops the others. */
  method HandleUnblockAllFutureSlots(db: Database, list: seq<SlotRef>, confirmed: bool, failing: set<SlotRef>)
    returns (outcome: BulkOutcome, calls: seq<SlotRef>)
    requires db.Valid()
    modifies db`blockedSlots
    ensures db.Valid()
    ensures |list| == 0 ==> outcome == NothingListed
    ensures |list| > 0 && !confirmed ==> outcome == NotConfirmed
    ensures !outcome.Finished? ==> calls == [] && db.blockedSlots == old(db.blockedSlots)
    ensures outcome.Finished? ==> (calls == list
      && outcome.failed == CountSlotFailures(list, failing)
      && outcome.unblocked + outcome.failed == |list|
      && forall d, t :: Has(db.blockedSlots, d, t) <==>
           Has(old(db.blockedSlots), d, t) && !(SlotRef(d, t) in list && !SlotUnblockFails(SlotRef(d, t), failing)))
  {
    calls := [];
    if |list| == 0 {
      return NothingListed, calls;
    }
    if !confirmed {
      return NotConfirmed, calls;
    }
    var unblockCount, failedCount := 0, 0;
    var i := 0;
    while i < |list|
      invariant 0 <= i <= |list|
      invariant db.Valid()
      invariant calls == list[..i]
      invariant failedCount == CountSlotFailures(list[..i], failing)
      invariant unblockCount + failedCount == i
      invariant forall d, t :: Has(db.blockedSlots, d, t) <==>
        Has(old(db.blockedSlots), d, t) && !(SlotRef(d, t) in list[..i] && !SlotUnblockFails(SlotRef(d, t), failing))
    {
      var slot := list[i];
      calls := calls + [slot];
      assert list[..i + 1] == list[..i] + [slot];
      assert list[..i + 1][..i] == list[..i];
      assert forall p :: p in list[..i + 1] <==> p in list[..i] || p == slot;
      if slot in failing {
        failedCount := failedCount + 1;
      } else {
        WithoutSlotHas(db.blockedSlots, slot.date, slot.time);
        var result := db.UnblockTimeSlot(slot.date, slot.time);
        if result.Ok? {
          unblockCount := unblockCount + 1;
        } else {
          failedCount := failedCount + 1;
        }
      }
      i := i + 1;
    }
    assert list[..i] == list;
    return Finished(unblockCount, failedCount), calls;
  }

  /** Unblocking the displayed list, with no call failing, leaves only the
      blocked pairs dated before today. */
  lemma BulkUnblockClearsFuture(blockedSlots: map<string, set<string>>, todayIso: string, d: string, t: string)
    requires forall x :: x in blockedSlots ==> IsYMD(x) && forall y :: y in blockedSlots[x] ==> IsHHMM(y)
    ensures var shown := DisplayedBlockedSlots(blockedSlots, todayIso);
      (Has(blockedSlots, d, t) && !(SlotRef(d, t) in shown && !SlotUnblockFails(SlotRef(d, t), {})))
        <==> Has(blockedSlots, d, t) && StrLt(d, todayIso)
  {
  }

  // ---------------------------------------------------------------------
  // The end-time choices

  /** The test `filteredEndTimes` applies: not before the start. */
  function NotBeforeStart(startM: int): string -> bool {
    t => TimeToMinutes(t) >= startM
  }

  /** The grid entries at or after `startM` minutes, in grid order. */
  function AtOrAfter(grid: seq<string>, startM: int): seq<string> {
    Filter(grid, NotBeforeStart(startM))
  }

  /** An end time is offered exactly when it is on the grid and not before
      the start. */
  lemma AtOrAfterMembers(grid: seq<string>, startM: int)
    ensures forall t :: t in AtOrAfter(grid, startM) <==> t in grid && TimeToMinutes(t) >= startM
  {
    FilterMembers(grid, NotBeforeStart(startM));
  }

  /** `filteredEndTimes`: the end times offered for a start time. */
  function FilteredEndTimes(startTime: string): (r: seq<string>)
    ensures forall t :: t in r <==> t in AvailableTimes && TimeToMinutes(t) >= TimeToMinutes(startTime)
  {
    AtOrAfterMembers(AvailableTimes, TimeToMinutes(startTime));
    AtOrAfter(AvailableTimes, TimeToMinutes(startTime))
  }

  /** For a grid start time the offered end times are the grid from that
      slot on: the start itself first. */
  lemma FilteredEndTimesOfGridStart(i: nat)
    requires i < |AvailableTimes|
    ensures FilteredEndTimes(AvailableTimes[i]) == AvailableTimes[i..]
  {
    var g := AvailableTimes;
    GridSlot(i);
    var keep := NotBeforeStart(TimeToMinutes(g[i]));
    forall k | 0 <= k < |g| ensures keep(g[k]) <==> i <= k <= |g| - 1 {
      GridSlot(k);
    }
    FilterBlock(g, keep, i, |g| - 1);
  }

  /** `indexOf`: the first position of `t` in `s`, or -1. */
  function IndexOf(s: seq<string>, t: string): (k: int)
    ensures -1 <= k < |s|
    ensures k == -1 <==> t !in s
    ensures k >= 0 ==> s[k] == t && forall j :: 0 <= j < k ==> s[j] != t
  {
    if s == [] then -1
    else if s[0] == t then 0
    else
      var k := IndexOf(s[1..], t);
      assert forall j :: 1 <= j < |s| ==> s[j] == s[1..][j - 1];
      if k == -1 then -1 else k + 1
  }

  /** `slice(k)` for `k` in -1..|s|-1: from position k on, and for -1 the
      last element alone. */
  function SliceFrom(s: seq<string>, k: int): seq<string>
    requires s != [] && -1 <= k < |s|
  {
    if k == -1 then s[|s| - 1..] else s[k..]
  }

  /** The end time the correction picks for `startTime`: the first grid
      entry at or after it (the last entry when there is none) is on the
      grid, not before the start whenever some entry is not, and (for a
      start on the grid) at or after the start's position. */
  lemma FirstAtOrAfter(startTime: string)
    ensures var valid := AtOrAfter(AvailableTimes, TimeToMinutes(startTime));
      var e := if |valid| > 0 then valid[0] else AvailableTimes[|AvailableTimes| - 1];
      && ((exists t :: t in AvailableTimes && TimeToMinutes(t) >= TimeToMinutes(startTime)) ==> TimeToMinutes(e) >= TimeToMinutes(startTime))
      && e in AvailableTimes
      && (startTime in AvailableTimes ==> e in AvailableTimes[IndexOf(AvailableTimes, startTime)..])
  {
    var grid := AvailableTimes;
    var startM := TimeToMinutes(startTime);
    var valid := AtOrAfter(grid, startM);
    AtOrAfterMembers(grid, startM);
    if |valid| > 0 {
      assert valid[0] in valid;
    }
    if startTime in grid {
      var k := IndexOf(grid, startTime);
      FilteredEndTimesOfGridStart(k);
      assert valid == grid[k..];
      assert grid[k..][0] == startTime;
    }
  }

  /** The admin's chosen time range. */
  class TimeRangeForm {
    var startTime: string
    var endTime: string

    constructor ()
      ensures startTime == AvailableTimes[0] && endTime == AvailableTimes[|AvailableTimes| - 1]
    {
      startTime := AvailableTimes[0];
      endTime := AvailableTimes[|AvailableTimes| - 1];
    }

    /** The end-time correction effect: when the end lies before the start,
        or is not among the grid entries from the start's position on, it
        becomes the first grid entry at or after the start (or the last
        entry when there is none). */
    method CorrectEndTime()
      modifies this`endTime
      ensures (exists t :: t in AvailableTimes && TimeToMinutes(t) >= TimeToMinutes(startTime)) ==>
        TimeToMinutes(endTime) >= TimeToMinutes(startTime)
      ensures endTime == old(endTime) || endTime in AvailableTimes
      ensures startTime in AvailableTimes ==> endTime in AvailableTimes[IndexOf(AvailableTimes, startTime)..]
      ensures (TimeToMinutes(startTime) <= TimeToMinutes(old(endTime))
        && old(endTime) in SliceFrom(AvailableTimes, IndexOf(AvailableTimes, startTime))) ==> endTime == old(endTime)
      ensures (TimeToMinutes(startTime) > TimeToMinutes(old(endTime))
        || old(endTime) !in SliceFrom(AvailableTimes, IndexOf(AvailableTimes, startTime))) ==>
        endTime == (var valid := FilteredEndTimes(startTime);
                    if |valid| > 0 then valid[0] else AvailableTimes[|AvailableTimes| - 1])
    {
      var grid := AvailableTimes;
      var startM := TimeToMinutes(startTime);
      var endM := TimeToMinutes(endTime);
      if startM > endM || endTime !in SliceFrom(grid, IndexOf(grid, startTime)) {
        var validEndTimes := AtOrAfter(grid, startM);
        FirstAtOrAfter(startTime);
        endTime := if |validEndTimes| > 0 then validEndTimes[0] else grid[|grid| - 1];
      }
    }
  }
}
