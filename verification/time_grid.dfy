/** The slot grid of the booking form (`TimeGrid`): the fixed list of
    half-hour start times, whether a slot is full for the chosen space, and
    whether a slot lies in the range being picked. Like the component, the
    model compares times as `HH:MM` texts; the lemmas show that these
    comparisons agree with comparing minutes. */
module TimeGrid {
  import opened Wrappers
  import opened Text
  import opened Clock
  import opened TimeRules
  import opened Records
  import Arith

  // ---------------------------------------------------------------------
  // generateSlots
  // ---------------------------------------------------------------------

  const FirstHour := 9
  const LastHour := 18
  const SlotCount := 19

  /** Slot `k` starts `k` half hours after 09:00. */
  function SlotTime(k: nat): Minute
    requires k < SlotCount
  {
    540 + 30 * k
  }

  /** The first `|slots|` slots of the grid. */
  predicate GridPrefix(slots: seq<string>) {
    |slots| <= SlotCount && forall k :: 0 <= k < |slots| ==> slots[k] == FormatTime(SlotTime(k))
  }

  /** Exactly the slots 09:00, 09:30, ..., 18:00, in that order. */
  predicate IsGrid(slots: seq<string>) {
    GridPrefix(slots) && |slots| == SlotCount
  }

  lemma GridPrefixAppend(slots: seq<string>, text: string)
    requires GridPrefix(slots) && |slots| < SlotCount && text == FormatTime(SlotTime(|slots|))
    ensures GridPrefix(slots + [text])
  {
    var longer := slots + [text];
    forall k | 0 <= k < |longer| ensures longer[k] == FormatTime(SlotTime(k)) {
      if k < |slots| {
        assert longer[k] == slots[k];
      } else {
        assert longer[k] == text;
      }
    }
  }

  /** The full-hour text the loop builds for `hour` is slot
      `2 * (hour - 9)`. */
  lemma WholeHourSlot(hour: nat)
    requires FirstHour <= hour <= LastHour
    ensures Pad2(hour) + ":00" == FormatTime(SlotTime(2 * (hour - FirstHour)))
  {
    assert SlotTime(2 * (hour - FirstHour)) == 60 * hour;
    ColonZero();
    FormatTimeText(hour, 0, ":00");
  }

  /** The texts of the first and the last hour. */
  lemma HourTexts()
    ensures Pad2(FirstHour) == "09" && Pad2(LastHour) == "18"
    ensures Pad2(FirstHour) + ":00" == "09:00" && Pad2(LastHour) + ":00" == "18:00"
  {
    assert Pad2(FirstHour) == [DigitChar(0), DigitChar(9)];
    assert Pad2(LastHour) == [DigitChar(1), DigitChar(8)];
  }

  /** The half-hour text is the slot after it. */
  lemma HalfHourSlot(hour: nat)
    requires FirstHour <= hour < LastHour
    ensures Pad2(hour) + ":30" == FormatTime(SlotTime(2 * (hour - FirstHour) + 1))
  {
    assert SlotTime(2 * (hour - FirstHour) + 1) == 60 * hour + 30;
    ColonThirty();
    FormatTimeText(hour, 30, ":30");
  }

  /** `generateSlots`: for each hour from 9 to 18, the full hour and, but
      for 18, the half hour. */
  method GenerateSlots() returns (slots: seq<string>)
    ensures IsGrid(slots)
  {
    slots := [];
    var hour := FirstHour;
    while hour <= LastHour
      invariant FirstHour <= hour <= LastHour + 1
      invariant |slots| == if hour <= LastHour then 2 * (hour - FirstHour) else SlotCount
      invariant GridPrefix(slots)
    {
      var h := Pad2(hour);
      WholeHourSlot(hour);
      GridPrefixAppend(slots, h + ":00");
      slots := slots + [h + ":00"];
      HourTexts();
      if h != "18" {
        HalfHourSlot(hour);
        GridPrefixAppend(slots, h + ":30");
        slots := slots + [h + ":30"];
      } else {
        Pad2Injective(hour, LastHour);
      }
      hour := hour + 1;
    }
  }

  /** The grid runs from 09:00 to 18:00. */
  lemma GridEnds(slots: seq<string>)
    requires IsGrid(slots)
    ensures slots[0] == "09:00" && slots[SlotCount - 1] == "18:00"
  {
    assert slots[0] == FormatTime(SlotTime(0));
    assert slots[SlotCount - 1] == FormatTime(SlotTime(SlotCount - 1));
    WholeHourSlot(FirstHour);
    WholeHourSlot(LastHour);
    HourTexts();
  }

  /** The half hour after the last full hour is left out. */
  lemma GridStopsAtSix(slots: seq<string>)
    requires IsGrid(slots)
    ensures "18:30" !in slots
  {
    FormatTimeText(18, 30, ":30");
    HourTexts();
    forall k | 0 <= k < |slots| ensures slots[k] != "18:30" {
      FormatTimeInjective(SlotTime(k), 60 * 18 + 30);
    }
  }

  /** Every slot is a start time the default rules accept. */
  lemma GridOnStep(k: nat)
    requires k < SlotCount
    ensures OnStep(DefaultConfig, SlotTime(k))
  {
    Arith.DivModUnique(SlotTime(k), 30, 18 + k, 0);
  }

  /** The slots are strictly increasing as texts, hence as times. */
  lemma GridOrdered(slots: seq<string>)
    requires IsGrid(slots)
    ensures forall i, j :: 0 <= i < j < |slots| ==> LexLess(slots[i], slots[j])
  {
    forall i, j | 0 <= i < j < |slots| ensures LexLess(slots[i], slots[j]) {
      FormatTimeOrder(SlotTime(i), SlotTime(j));
    }
  }

  // ---------------------------------------------------------------------
  // checkOccupancy
  // ---------------------------------------------------------------------

  /** The selected space, as far as the grid uses it. */
  datatype Space = Space(id: int, capacity: int)

  /** Row `a` counts against slot `time`: same space, and
      `time >= startTime && time < endTime` as texts. */
  predicate Covers(a: Appointment, spaceId: int, time: string)
    ensures Covers(a, spaceId, time) ==> a.spaceId == spaceId
    ensures time == FormatTime(a.endTime) ==> !Covers(a, spaceId, time)
    ensures a.spaceId == spaceId && a.startTime < a.endTime && time == FormatTime(a.startTime) ==>
              Covers(a, spaceId, time)
  {
    FormatTimeOrder(a.startTime, a.endTime);
    LexLessIrreflexive(FormatTime(a.startTime));
    a.spaceId == spaceId && !LexLess(time, FormatTime(a.startTime)) && LexLess(time, FormatTime(a.endTime))
  }

  function CoversAt(spaceId: int, time: string): Appointment -> bool {
    (a: Appointment) => Covers(a, spaceId, time)
  }

  /** `checkOccupancy(time)`: with no space selected nothing is full;
      otherwise a slot is full once as many rows cover it as the space
      holds. */
  function CheckOccupancy(appts: seq<Appointment>, selected: Option<Space>, time: string): (busy: bool)
    ensures selected.None? ==> !busy
  {
    match selected
    case None => false
    case Some(space) => |Keep(appts, CoversAt(space.id, time))| >= space.capacity
  }

  /** On a formatted slot the text test is half-open containment in
      minutes: a row counts from its start time up to, but not at, its end
      time. */
  lemma CoversMinute(a: Appointment, spaceId: int, t: Minute)
    ensures Covers(a, spaceId, FormatTime(t)) <==> a.spaceId == spaceId && a.startTime <= t < a.endTime
    ensures !Covers(a, spaceId, FormatTime(a.endTime))
  {
    FormatTimeOrder(t, a.startTime);
    FormatTimeOrder(t, a.endTime);
    LexLessIrreflexive(FormatTime(a.endTime));
  }

  /** The rows of `spaceId` whose range contains minute `t`, counted over
      minutes. */
  function CountCovering(appts: seq<Appointment>, spaceId: int, t: Minute): (n: nat)
    ensures n <= |appts|
  {
    if appts == [] then 0
    else (if appts[0].spaceId == spaceId && appts[0].startTime <= t < appts[0].endTime then 1 else 0)
         + CountCovering(appts[1..], spaceId, t)
  }

  /** The component's count on a formatted slot is the minute count. */
  lemma {:induction false} OccupancyCount(appts: seq<Appointment>, spaceId: int, t: Minute)
    ensures |Keep(appts, CoversAt(spaceId, FormatTime(t)))| == CountCovering(appts, spaceId, t)
    decreases |appts|
  {
    if appts != [] {
      CoversMinute(appts[0], spaceId, t);
      OccupancyCount(appts[1..], spaceId, t);
    }
  }

  /** A slot is full exactly when the minute count reaches the capacity. */
  lemma OccupancyByMinutes(appts: seq<Appointment>, space: Space, t: Minute)
    ensures CheckOccupancy(appts, Some(space), FormatTime(t)) <==> CountCovering(appts, space.id, t) >= space.capacity
  {
    OccupancyCount(appts, space.id, t);
  }

  /** More room never fills a free slot. */
  lemma CapacityMonotone(appts: seq<Appointment>, space: Space, capacity: int, time: string)
    requires space.capacity <= capacity
    ensures CheckOccupancy(appts, Some(space.(capacity := capacity)), time) ==> CheckOccupancy(appts, Some(space), time)
  {
  }

  /** Another booking never frees a full slot. */
  lemma BookingMonotone(appts: seq<Appointment>, a: Appointment, selected: Option<Space>, time: string)
    ensures CheckOccupancy(appts, selected, time) ==> CheckOccupancy(appts + [a], selected, time)
  {
    if selected.Some? {
      KeepAppend(appts, [a], CoversAt(selected.value.id, time));
    }
  }

  // ---------------------------------------------------------------------
  // isSelected
  // ---------------------------------------------------------------------

  /** `isSelected(time)` for the picked `startTime` and `endTime`, where an
      empty text stands for a value not picked yet. */
  function IsSelected(time: string, startTime: string, endTime: string): (sel: bool)
    ensures startTime == [] ==> !sel
    ensures startTime != [] && (time == startTime || time == endTime) ==> sel
    ensures startTime != [] && endTime != [] && LexLess(startTime, time) && LexLess(time, endTime) ==> sel
  {
    if startTime == [] then false
    else if time == startTime then true
    else if endTime != [] && LexLess(startTime, time) && LexLess(time, endTime) then true
    else if time == endTime then true
    else false
  }

  /** On formatted times, a slot is highlighted exactly when it is the
      start, the end, or strictly between them; so with the end not before
      the start, exactly when it lies in the closed range. */
  lemma SelectedMinutes(t: Minute, s: Minute, e: Minute)
    ensures IsSelected(FormatTime(t), FormatTime(s), FormatTime(e)) <==> t == s || t == e || s < t < e
    ensures s <= e ==> (IsSelected(FormatTime(t), FormatTime(s), FormatTime(e)) <==> s <= t <= e)
  {
    FormatTimeInjective(t, s);
    FormatTimeInjective(t, e);
    FormatTimeOrder(s, t);
    FormatTimeOrder(t, e);
  }

  /** Before an end is picked, only the start slot is highlighted. */
  lemma SelectedWithoutEnd(t: Minute, s: Minute)
    ensures IsSelected(FormatTime(t), FormatTime(s), []) <==> t == s
  {
    FormatTimeInjective(t, s);
  }
}
