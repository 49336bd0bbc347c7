/** `checkScheduleConflict`: the exact-slot clash test. A new booking
    clashes when some row already sits on the same date at the same start
    time; how long either booking lasts, and which space it uses, play no
    part. */
module Validators {
  import opened Wrappers
  import opened Clock
  import opened Records

  predicate SameSlot(a: Appointment, date: string, startTime: Minute) {
    a.date == date && a.startTime == startTime
  }

  /** `findFirst({ where: { date, startTime } })`. */
  function FirstAt(appts: seq<Appointment>, date: string, startTime: Minute): (r: Option<Appointment>)
    ensures r.Some? ==> r.value in appts && SameSlot(r.value, date, startTime)
    ensures r.None? ==> forall a :: a in appts ==> !SameSlot(a, date, startTime)
  {
    if appts == [] then None
    else if SameSlot(appts[0], date, startTime) then Some(appts[0])
    else FirstAt(appts[1..], date, startTime)
  }

  /** `!!existing`: a clash exactly when some row is on that date at that
      start time, so never on an empty table. */
  function CheckScheduleConflict(appts: seq<Appointment>, date: string, startTime: Minute): (clash: bool)
    ensures clash <==> exists a :: a in appts && SameSlot(a, date, startTime)
    ensures appts == [] ==> !clash
  {
    FirstAt(appts, date, startTime).Some?
  }

  /** Rows that agree on date and start time, whatever their end times and
      spaces, give the same answer. */
  lemma {:induction false} ConflictIgnoresEndAndSpace(s: seq<Appointment>, t: seq<Appointment>, date: string, startTime: Minute)
    requires |s| == |t|
    requires forall i :: 0 <= i < |s| ==> s[i].date == t[i].date && s[i].startTime == t[i].startTime
    ensures CheckScheduleConflict(s, date, startTime) == CheckScheduleConflict(t, date, startTime)
    decreases |s|
  {
    if |s| > 0 {
      ConflictIgnoresEndAndSpace(s[1..], t[1..], date, startTime);
      assert FirstAt(s, date, startTime).Some? == (SameSlot(s[0], date, startTime) || FirstAt(s[1..], date, startTime).Some?);
      assert FirstAt(t, date, startTime).Some? == (SameSlot(t[0], date, startTime) || FirstAt(t[1..], date, startTime).Some?);
    }
  }

  /** A booking that overlaps an existing one but starts at a different
      time is not a clash, even in the same space on the same date. */
  lemma OverlapIsNoConflict(a: Appointment, startTime: Minute)
    requires a.startTime < startTime < a.endTime
    ensures !CheckScheduleConflict([a], a.date, startTime)
  {
  }
}
