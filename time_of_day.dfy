/** Times of day: the `timeToMinutes` reading of a time string and the fixed
    grid of bookable half-hour slots shared by the client and the admin tools. */
module TimeOfDay {
  import opened Wrappers
  import opened Strings

  /** `timeToMinutes`: hours * 60 + minutes of the leftmost `\d{2}:\d{2}` in
      the string, or -1 when there is none. */
  function TimeToMinutes(s: string): (r: int)
    ensures r != -1 ==> 0 <= r <= 99 * 60 + 99
    ensures IsHHMM(s) ==> r == TwoDigits(s, 0) * 60 + TwoDigits(s, 3)
  {
    match FindHHMM(s, 0)
    case None => -1
    case Some(i) => TwoDigits(s, i) * 60 + TwoDigits(s, i + 3)
  }

  /** -1 means exactly that the string holds no `\d{2}:\d{2}` anywhere. */
  lemma NoMatchIsMinusOne(s: string)
    ensures TimeToMinutes(s) == -1 <==> forall j :: !HHMMAt(s, j)
  {
    FindHHMMLeftmost(s, 0);
  }

  /** The bookable slots, 09:00 to 19:00 in steps of 30 minutes. */
  const AvailableTimes: seq<string> := [
    "09:00", "09:30", "10:00", "10:30", "11:00", "11:30",
    "12:00", "12:30", "13:00", "13:30", "14:00", "14:30",
    "15:00", "15:30", "16:00", "16:30", "17:00", "17:30",
    "18:00", "18:30", "19:00"
  ]

  const FirstSlotMinutes := 9 * 60
  const SlotLength := 30

  /** Slot `i` of the grid is a well-formed `HH:MM` time lying `30 * i`
      minutes after 09:00. */
  lemma GridSlot(i: nat)
    requires i < |AvailableTimes|
    ensures IsHHMM(AvailableTimes[i])
    ensures TimeToMinutes(AvailableTimes[i]) == FirstSlotMinutes + SlotLength * i
  {
    if i < 7 { MorningSlot(i); } else if i < 14 { MiddaySlot(i); } else { EveningSlot(i); }
  }

  lemma MorningSlot(i: nat)
    requires i < 7
    ensures IsHHMM(AvailableTimes[i])
    ensures TwoDigits(AvailableTimes[i], 0) * 60 + TwoDigits(AvailableTimes[i], 3) == FirstSlotMinutes + SlotLength * i
  {
  }

  lemma MiddaySlot(i: nat)
    requires 7 <= i < 14
    ensures IsHHMM(AvailableTimes[i])
    ensures TwoDigits(AvailableTimes[i], 0) * 60 + TwoDigits(AvailableTimes[i], 3) == FirstSlotMinutes + SlotLength * i
  {
  }

  lemma EveningSlot(i: nat)
    requires 14 <= i < |AvailableTimes|
    ensures IsHHMM(AvailableTimes[i])
    ensures TwoDigits(AvailableTimes[i], 0) * 60 + TwoDigits(AvailableTimes[i], 3) == FirstSlotMinutes + SlotLength * i
  {
  }

  /** Every grid entry is a well-formed `HH:MM` time. */
  lemma GridWellFormed()
    ensures forall t :: t in AvailableTimes ==> IsHHMM(t)
  {
    forall t | t in AvailableTimes ensures IsHHMM(t) {
      var k :| 0 <= k < |AvailableTimes| && AvailableTimes[k] == t;
      GridSlot(k);
    }
  }

  /** The grid is strictly increasing in minutes, so its order is time order. */
  lemma GridIncreasing(i: nat, j: nat)
    requires i < j < |AvailableTimes|
    ensures TimeToMinutes(AvailableTimes[i]) < TimeToMinutes(AvailableTimes[j])
  {
    GridSlot(i);
    GridSlot(j);
  }
}
