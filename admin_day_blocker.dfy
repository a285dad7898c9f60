/** The admin's day blocker: guarded blocking and unblocking of single
    dates, the sorted list of blocked dates from today on, and the bulk
    unblock that goes through that list one date at a time. */
module AdminDayBlocker {
  import opened Wrappers
  import opened Strings
  import opened FirebaseService

  datatype BlockOutcome = InvalidDate | AlreadyBlocked | DayBlocked

  /** `handleBlockDateAction`: an empty or malformed date, or one the live
      set already holds, is refused without a write; otherwise the day is
      blocked. */
  method HandleBlockDateAction(db: Database, blockedDays: set<string>, date: string) returns (outcome: BlockOutcome)
    requires db.Valid()
    modifies db`blockedDays
    ensures db.Valid()
    ensures outcome == InvalidDate <==> !IsYMD(date)
    ensures outcome == AlreadyBlocked <==> IsYMD(date) && date in blockedDays
    ensures outcome == DayBlocked <==> IsYMD(date) && date !in blockedDays
    ensures db.blockedDays == if outcome == DayBlocked then old(db.blockedDays) + {date} else old(db.blockedDays)
  {
    if date == "" || !IsYMD(date) {
      return InvalidDate;
    }
    if date in blockedDays {
      return AlreadyBlocked;
    }
    var _ := db.BlockDay(date);
    return DayBlocked;
  }

  datatype UnblockOutcome = NotBlocked | DayUnblocked | UnblockFailed(error: StoreError)

  /** `handleUnblockDateFromList`: a date the live set does not hold is
      refused without a write; otherwise the store's `unblockDay` runs and
      its format error is reported. */
  method HandleUnblockDateFromList(db: Database, blockedDays: set<string>, date: string) returns (outcome: UnblockOutcome)
    requires db.Valid()
    modifies db`blockedDays
    ensures db.Valid()
    ensures outcome == NotBlocked <==> date !in blockedDays
    ensures outcome == DayUnblocked <==> date in blockedDays && IsYMD(date)
    ensures outcome.UnblockFailed? ==> outcome.error == InvalidDateFormat
    ensures db.blockedDays == if outcome == DayUnblocked then old(db.blockedDays) - {date} else old(db.blockedDays)
  {
    if date !in blockedDays {
      return NotBlocked;
    }
    var result := db.UnblockDay(date);
    if result.Err? {
      return UnblockFailed(result.error);
    }
    return DayUnblocked;
  }

  /** `displayedBlockedDays`: the blocked dates not before today, ascending
      and without repetition. */
  ghost function DisplayedBlockedDays(blockedDays: set<string>, todayIso: string): (r: seq<string>)
    ensures forall d :: d in r <==> d in blockedDays && !StrLt(d, todayIso)
    ensures forall i, j :: 0 <= i < j < |r| ==> StrLt(r[i], r[j])
  {
    SortedStrings(set d | d in blockedDays && !StrLt(d, todayIso))
  }

  /** An unblock call fails when the write is lost (`failing` says which
      dates) or the store refuses a malformed date. */
  predicate UnblockFails(date: string, failing: set<string>) {
    date in failing || !IsYMD(date)
  }

  function CountFailures(dates: seq<string>, failing: set<string>): (n: nat)
    ensures n <= |dates|
  {
    if dates == [] then 0
    else CountFailures(dates[..|dates| - 1], failing) + (if UnblockFails(dates[|dates| - 1], failing) then 1 else 0)
  }

  /** The listed dates whose unblock call succeeds. */
  function Succeeded(dates: seq<string>, failing: set<string>): set<string> {
    set i | 0 <= i < |dates| && !UnblockFails(dates[i], failing) :: dates[i]
  }

  datatype BulkOutcome = NothingListed | NotConfirmed | Finished(unblocked: nat, failed: nat)

  /** `handleUnblockAllFutureDays`: with an empty list nothing happens;
      otherwise, once confirmed, every listed date is unblocked in list order,
      a failure is counted and the loop goes on. `calls` are the dates the
      store was asked to unblock, in order. */
  method HandleUnblockAllFutureDays(db: Database, displayed: seq<string>, confirmed: bool, failing: set<string>)
    returns (outcome: BulkOutcome, calls: seq<string>)
    requires db.Valid()
    modifies db`blockedDays
    ensures db.Valid()
    ensures |displayed| == 0 ==> outcome == NothingListed
    ensures |displayed| > 0 && !confirmed ==> outcome == NotConfirmed
    ensures !outcome.Finished? ==> calls == [] && db.blockedDays == old(db.blockedDays)
    ensures outcome.Finished? ==> (calls == displayed
      && outcome.failed == CountFailures(displayed, failing)
      && outcome.unblocked + outcome.failed == |displayed|
      && db.blockedDays == old(db.blockedDays) - Succeeded(displayed, failing))
  {
    calls := [];
    if |displayed| == 0 {
      return NothingListed, calls;
    }
    if !confirmed {
      return NotConfirmed, calls;
    }
    var unblockCount, failedCount := 0, 0;
    var i := 0;
    while i < |displayed|
      invariant 0 <= i <= |displayed|
      invariant db.Valid()
      invariant calls == displayed[..i]
      invariant failedCount == CountFailures(displayed[..i], failing)
      invariant unblockCount + failedCount == i
      invariant db.blockedDays == old(db.blockedDays) - Succeeded(displayed[..i], failing)
    {
      var dateToUnblock := displayed[i];
      calls := calls + [dateToUnblock];
      assert displayed[..i + 1][..i] == displayed[..i];
      if dateToUnblock in failing {
        failedCount := failedCount + 1;
      } else {
        var result := db.UnblockDay(dateToUnblock);
        if result.Ok? {
          unblockCount := unblockCount + 1;
        } else {
          failedCount := failedCount + 1;
        }
      }
      assert Succeeded(displayed[..i + 1], failing)
        == Succeeded(displayed[..i], failing) + (if UnblockFails(dateToUnblock, failing) then {} else {dateToUnblock});
      i := i + 1;
    }
    assert displayed[..i] == displayed;
    return Finished(unblockCount, failedCount), calls;
  }

  /** Three listed dates where the second call fails: two unblocked, one
      failed, and the first and third dates leave the store. */
  lemma BulkExample()
    ensures var dates := ["2025-06-10", "2025-06-11", "2025-06-12"];
      && CountFailures(dates, {"2025-06-11"}) == 1
      && |dates| - CountFailures(dates, {"2025-06-11"}) == 2
      && Succeeded(dates, {"2025-06-11"}) == {"2025-06-10", "2025-06-12"}
  {
    var dates := ["2025-06-10", "2025-06-11", "2025-06-12"];
    assert IsYMD(dates[0]) && IsYMD(dates[1]) && IsYMD(dates[2]);
    assert dates[0] != "2025-06-11" && dates[2] != "2025-06-11";
    assert dates[..2][..1] == dates[..1];
    assert dates[..3][..2] == dates[..2] && dates[..3] == dates;
    assert CountFailures(dates[..1], {"2025-06-11"}) == 0;
    assert CountFailures(dates[..2], {"2025-06-11"}) == 1;
    var s := Succeeded(dates, {"2025-06-11"});
    assert dates[0] in s && dates[2] in s;
  }

  /** Unblocking the displayed list, with no call failing, clears every
      blocked date from today on and keeps every earlier one. */
  lemma BulkUnblockClearsFuture(blockedDays: set<string>, todayIso: string)
    requires forall d :: d in blockedDays ==> IsYMD(d)
    ensures blockedDays - Succeeded(DisplayedBlockedDays(blockedDays, todayIso), {})
      == set d | d in blockedDays && StrLt(d, todayIso)
  {
    var shown := DisplayedBlockedDays(blockedDays, todayIso);
    forall d | d in shown ensures d in Succeeded(shown, {}) {
      var i :| 0 <= i < |shown| && shown[i] == d;
      assert !UnblockFails(shown[i], {});
    }
  }
}
