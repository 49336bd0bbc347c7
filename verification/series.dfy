/** `createSeries`: weekly occurrences of one booking, each checked for
    availability against the table as it stands and inserted before the next
    one is considered. A conflict stops the run; the occurrences already
    inserted stay. */
module Series {
  import opened Wrappers
  import opened Clock
  import opened Calendar
  import opened Records

  /** The fields every occurrence shares (`baseData`). */
  datatype Template = Template(title: string, clientName: string, startTime: Minute, endTime: Minute, spaceId: int)

  /** The outcome of a run: the table afterwards, the rows it created, and
      the error that stopped it, if any. */
  datatype Run = Run(store: Store, created: seq<Appointment>, failure: Option<Failure>)

  /** The text date of occurrence `k`: `start` plus `7 * k` days. */
  function OccurrenceDate(start: Date, k: nat): string
    requires Valid(start)
  {
    FormatDate(AddDays(start, 7 * k))
  }

  /** Iteration `k` of a series starting on `start` is dated `start + 7k`. */
  function WeeklyDates(start: Date): nat -> string
    requires Valid(start)
  {
    (k: nat) => OccurrenceDate(start, k)
  }

  function OccurrenceQuery(t: Template, date: string): Query {
    Query(t.spaceId, date, t.startTime, t.endTime, None)
  }

  function OccurrenceDraft(t: Template, date: string, parentId: int): Draft {
    Draft(t.title, t.clientName, date, t.startTime, t.endTime, t.spaceId, true, Some(parentId))
  }

  /** The row occurrence `k` becomes when it is inserted with id `id`. */
  function Occurrence(t: Template, start: Date, k: nat, id: int, parentId: int): Appointment
    requires Valid(start)
  {
    RowOf(id, OccurrenceDraft(t, OccurrenceDate(start, k), parentId))
  }

  /** The rows a run inserts when nothing stops it: occurrence `k` gets the
      `k`-th id from `firstId` on. */
  function Planned(t: Template, start: Date, n: nat, firstId: int, parentId: int): (r: seq<Appointment>)
    requires Valid(start)
    ensures |r| == n
  {
    seq(n, k requires 0 <= k < n => Occurrence(t, start, k, firstId + k, parentId))
  }

  /** Iterations `i .. numWeeks-1` of the loop; `dateOf(k)` is the date
      text of iteration `k`. Whatever happens, the run only appends to the
      table, and never more rows than weeks remain. */
  function SeriesLoop(st: Store, t: Template, dateOf: nat -> string, i: nat, numWeeks: int, parentId: int, avail: Availability)
    : (r: Run)
    ensures r.store.appts == st.appts + r.created
    ensures r.store.nextId == st.nextId + |r.created|
    ensures i + |r.created| <= numWeeks || r.created == []
    decreases numWeeks - i
  {
    if i >= numWeeks then Run(st, [], None)
    else
      var date := dateOf(i);
      if !avail(st.appts, OccurrenceQuery(t, date)) then
        Run(st, [], Some(CapacityConflict(date)))
      else
        var (st', a) := Create(st, OccurrenceDraft(t, date, parentId));
        var rest := SeriesLoop(st', t, dateOf, i + 1, numWeeks, parentId, avail);
        var created := [a] + rest.created;
        assert |created| == |rest.created| + 1;
        Run(rest.store, created, rest.failure)
  }

  /** Row `k` is occurrence `i + k` with the `k`-th id from `firstId`. */
  predicate RowsFollowPlan(created: seq<Appointment>, t: Template, dateOf: nat -> string, i: nat, firstId: int, parentId: int) {
    forall k :: 0 <= k < |created| ==>
      created[k] == RowOf(firstId + k, OccurrenceDraft(t, dateOf(i + k), parentId))
  }

  /** Row `k` was found available against `base` plus the rows before it. */
  predicate EachCheckedFirst(base: seq<Appointment>, created: seq<Appointment>, t: Template, dateOf: nat -> string, i: nat, avail: Availability) {
    forall k :: 0 <= k < |created| ==>
      avail(base + created[..k], OccurrenceQuery(t, dateOf(i + k)))
  }

  /** A run either reaches the last week or stops on the first occurrence
      that is not available, naming its date. */
  predicate StopsOnlyOnConflict(r: Run, t: Template, dateOf: nat -> string, i: nat, numWeeks: int, avail: Availability) {
    && (r.failure.None? ==> i + |r.created| >= numWeeks)
    && (r.failure.Some? ==>
          && i + |r.created| < numWeeks
          && r.failure.value == CapacityConflict(dateOf(i + |r.created|))
          && !avail(r.store.appts, OccurrenceQuery(t, dateOf(i + |r.created|))))
  }

  lemma {:induction false} LoopRows(st: Store, t: Template, dateOf: nat -> string, i: nat, numWeeks: int, parentId: int, avail: Availability)
    ensures RowsFollowPlan(SeriesLoop(st, t, dateOf, i, numWeeks, parentId, avail).created, t, dateOf, i, st.nextId, parentId)
    decreases numWeeks - i
  {
    if i < numWeeks {
      var date := dateOf(i);
      if avail(st.appts, OccurrenceQuery(t, date)) {
        var (st', a) := Create(st, OccurrenceDraft(t, date, parentId));
        LoopRows(st', t, dateOf, i + 1, numWeeks, parentId, avail);
        var rest := SeriesLoop(st', t, dateOf, i + 1, numWeeks, parentId, avail);
        var r := SeriesLoop(st, t, dateOf, i, numWeeks, parentId, avail);
        assert r.created == [a] + rest.created;
        forall k | 1 <= k < |r.created|
          ensures r.created[k] == RowOf(st.nextId + k, OccurrenceDraft(t, dateOf(i + k), parentId))
        {
          var j := k - 1;
          assert r.created[k] == rest.created[j];
          assert i + 1 + j == i + k && st'.nextId + j == st.nextId + k;
        }
      }
    }
  }

  lemma {:induction false} LoopChecks(st: Store, t: Template, dateOf: nat -> string, i: nat, numWeeks: int, parentId: int, avail: Availability)
    ensures EachCheckedFirst(st.appts, SeriesLoop(st, t, dateOf, i, numWeeks, parentId, avail).created, t, dateOf, i, avail)
    decreases numWeeks - i
  {
    if i < numWeeks {
      var date := dateOf(i);
      if avail(st.appts, OccurrenceQuery(t, date)) {
        var (st', a) := Create(st, OccurrenceDraft(t, date, parentId));
        LoopChecks(st', t, dateOf, i + 1, numWeeks, parentId, avail);
        var rest := SeriesLoop(st', t, dateOf, i + 1, numWeeks, parentId, avail);
        var r := SeriesLoop(st, t, dateOf, i, numWeeks, parentId, avail);
        assert r.created == [a] + rest.created;
        forall k | 1 <= k < |r.created|
          ensures avail(st.appts + r.created[..k], OccurrenceQuery(t, dateOf(i + k)))
        {
          var j := k - 1;
          assert r.created[..k] == [a] + rest.created[..j];
          assert st.appts + r.created[..k] == st'.appts + rest.created[..j];
          assert i + 1 + j == i + k;
        }
        assert st.appts + r.created[..0] == st.appts;
      }
    }
  }

  lemma {:induction false} LoopStops(st: Store, t: Template, dateOf: nat -> string, i: nat, numWeeks: int, parentId: int, avail: Availability)
    ensures StopsOnlyOnConflict(SeriesLoop(st, t, dateOf, i, numWeeks, parentId, avail), t, dateOf, i, numWeeks, avail)
    decreases numWeeks - i
  {
    if i < numWeeks {
      var date := dateOf(i);
      if avail(st.appts, OccurrenceQuery(t, date)) {
        var (st', a) := Create(st, OccurrenceDraft(t, date, parentId));
        LoopStops(st', t, dateOf, i + 1, numWeeks, parentId, avail);
        var rest := SeriesLoop(st', t, dateOf, i + 1, numWeeks, parentId, avail);
        var r := SeriesLoop(st, t, dateOf, i, numWeeks, parentId, avail);
        assert r.created == [a] + rest.created;
        assert i + |r.created| == i + 1 + |rest.created|;
      }
    }
  }

  /** `createSeries(prisma, baseData, startDate, numWeeks, parentId)`.
      The start date is read once; the source re-reads the same text on
      every iteration, which gives the same date each time. Whatever the
      outcome, the table only grows by the rows the run reports. */
  function CreateSeries(st: Store, t: Template, startDate: string, numWeeks: int, parentId: int, avail: Availability)
    : (r: Run)
    ensures r.store.appts == st.appts + r.created
    ensures r.store.nextId == st.nextId + |r.created|
    ensures numWeeks <= 0 ==> r == Run(st, [], None)
    ensures numWeeks > 0 && ParseDate(startDate).None? ==> r == Run(st, [], Some(InvalidDate(startDate)))
    ensures |r.created| <= (if numWeeks > 0 then numWeeks else 0)
  {
    if numWeeks <= 0 then Run(st, [], None)
    else
      match ParseDate(startDate)
      case None => Run(st, [], Some(InvalidDate(startDate)))
      case Some(start) => SeriesLoop(st, t, WeeklyDates(start), 0, numWeeks, parentId, avail)
  }

  /** What a run does with a readable start date: it creates a prefix of the
      plan, each occurrence only after finding it available against the
      table at that moment; it creates all `numWeeks` of them unless it
      stops, and it stops at the first unavailable occurrence, naming its
      date. */
  lemma CreateSeriesSpec(st: Store, t: Template, startDate: string, numWeeks: int, parentId: int, avail: Availability)
    requires ParseDate(startDate).Some?
    ensures RowsFollowPlan(CreateSeries(st, t, startDate, numWeeks, parentId, avail).created,
                           t, WeeklyDates(ParseDate(startDate).value), 0, st.nextId, parentId)
    ensures EachCheckedFirst(st.appts, CreateSeries(st, t, startDate, numWeeks, parentId, avail).created,
                             t, WeeklyDates(ParseDate(startDate).value), 0, avail)
    ensures numWeeks > 0 ==>
              StopsOnlyOnConflict(CreateSeries(st, t, startDate, numWeeks, parentId, avail),
                                  t, WeeklyDates(ParseDate(startDate).value), 0, numWeeks, avail)
  {
    if numWeeks > 0 {
      var start := ParseDate(startDate).value;
      LoopRows(st, t, WeeklyDates(start), 0, numWeeks, parentId, avail);
      LoopChecks(st, t, WeeklyDates(start), 0, numWeeks, parentId, avail);
      LoopStops(st, t, WeeklyDates(start), 0, numWeeks, parentId, avail);
    }
  }

  /** Against the reference plan: a run with a readable start creates the
      first rows of the plan, all `numWeeks` of them when nothing stops it. */
  lemma CreateSeriesFollowsPlan(st: Store, t: Template, startDate: string, numWeeks: int, parentId: int, avail: Availability)
    requires ParseDate(startDate).Some? && numWeeks > 0
    ensures CreateSeries(st, t, startDate, numWeeks, parentId, avail).created
            == Planned(t, ParseDate(startDate).value, |CreateSeries(st, t, startDate, numWeeks, parentId, avail).created|, st.nextId, parentId)
    ensures CreateSeries(st, t, startDate, numWeeks, parentId, avail).failure.None? ==>
              CreateSeries(st, t, startDate, numWeeks, parentId, avail).created
              == Planned(t, ParseDate(startDate).value, numWeeks, st.nextId, parentId)
  {
    var r := CreateSeries(st, t, startDate, numWeeks, parentId, avail);
    CreateSeriesSpec(st, t, startDate, numWeeks, parentId, avail);
    PlanPrefix(r.created, t, ParseDate(startDate).value, st.nextId, parentId);
  }

  /** Rows that follow the weekly plan from its first week are that plan. */
  lemma PlanPrefix(created: seq<Appointment>, t: Template, start: Date, firstId: int, parentId: int)
    requires Valid(start) && RowsFollowPlan(created, t, WeeklyDates(start), 0, firstId, parentId)
    ensures created == Planned(t, start, |created|, firstId, parentId)
  {
    var plan := Planned(t, start, |created|, firstId, parentId);
    forall k | 0 <= k < |created| ensures created[k] == plan[k] {
      assert created[k] == RowOf(firstId + k, OccurrenceDraft(t, WeeklyDates(start)(0 + k), parentId));
      assert WeeklyDates(start)(0 + k) == OccurrenceDate(start, k);
      assert plan[k] == Occurrence(t, start, k, firstId + k, parentId);
    }
    assert |plan| == |created|;
  }

  /** Every row a run creates is a recurring row of series `parentId`. */
  lemma CreatedInSeries(st: Store, t: Template, startDate: string, numWeeks: int, parentId: int, avail: Availability)
    ensures forall a :: a in CreateSeries(st, t, startDate, numWeeks, parentId, avail).created ==>
              a.parentId == Some(parentId) && a.isRecurring
  {
    var created := CreateSeries(st, t, startDate, numWeeks, parentId, avail).created;
    if ParseDate(startDate).Some? {
      CreateSeriesSpec(st, t, startDate, numWeeks, parentId, avail);
      forall a | a in created ensures a.parentId == Some(parentId) && a.isRecurring {
        var k :| 0 <= k < |created| && created[k] == a;
      }
    }
  }

  /** Occurrence `k` reads back as `start + 7k` days, which is `7k` days
      after `start` by day count. */
  lemma OccurrenceDateSpec(start: Date, k: nat)
    requires Valid(start)
    ensures ParseDate(OccurrenceDate(start, k)) == Some(AddDays(start, 7 * k))
    ensures Ordinal(AddDays(start, 7 * k)) == Ordinal(start) + 7 * k
  {
    ParseFormatDate(AddDays(start, 7 * k));
    AddDaysOrdinal(start, 7 * k);
  }

  /** Row `k` is dated `7k` days after `start`. */
  predicate DatedWeekly(created: seq<Appointment>, start: Date)
    requires Valid(start)
  {
    forall k :: 0 <= k < |created| ==> ParseDate(created[k].date) == Some(AddDays(start, 7 * k))
  }

  /** The dates a run creates are weekly from the start date. */
  lemma SeriesDatesAreWeekly(st: Store, t: Template, startDate: string, numWeeks: int, parentId: int, avail: Availability)
    requires ParseDate(startDate).Some?
    ensures DatedWeekly(CreateSeries(st, t, startDate, numWeeks, parentId, avail).created, ParseDate(startDate).value)
  {
    var r := CreateSeries(st, t, startDate, numWeeks, parentId, avail);
    var start := ParseDate(startDate).value;
    CreateSeriesSpec(st, t, startDate, numWeeks, parentId, avail);
    forall k | 0 <= k < |r.created|
      ensures ParseDate(r.created[k].date) == Some(AddDays(start, 7 * k))
    {
      assert r.created[k].date == OccurrenceDate(start, k);
      OccurrenceDateSpec(start, k);
    }
  }

  /** Row `a` carries a readable date whose day number is `n`. */
  predicate OnDay(a: Appointment, n: int) {
    ParseDate(a.date).Some? && Ordinal(ParseDate(a.date).value) == n
  }

  /** Row `k` is a readable date `7k` days after day number `first`. */
  predicate WeeklyDays(rows: seq<Appointment>, first: int) {
    forall k :: 0 <= k < |rows| ==> OnDay(rows[k], first + 7 * k)
  }

  lemma DatedWeeklyDays(rows: seq<Appointment>, start: Date)
    requires Valid(start) && DatedWeekly(rows, start)
    ensures WeeklyDays(rows, Ordinal(start))
  {
    forall k | 0 <= k < |rows| ensures OnDay(rows[k], Ordinal(start) + 7 * k) {
      AddDaysOrdinal(start, 7 * k);
    }
  }

  /** A row dated on day `first`, followed by rows weekly from one week
      later, is weekly from `first`. */
  lemma WeeklyDaysCons(head: Appointment, rows: seq<Appointment>, first: int, second: int)
    requires OnDay(head, first) && second == first + DaysPerWeek
    requires WeeklyDays(rows, second)
    ensures WeeklyDays([head] + rows, first)
  {
    var all := [head] + rows;
    forall k | 0 <= k < |all| ensures OnDay(all[k], first + 7 * k) {
      if k > 0 {
        ShiftDay(rows, k - 1, first);
        assert all[k] == rows[k - 1];
      }
    }
  }

  /** Row `j` of a run starting a week after `first` is `j + 1` weeks after
      `first`. */
  lemma ShiftDay(rows: seq<Appointment>, j: int, first: int)
    requires 0 <= j < |rows| && WeeklyDays(rows, first + DaysPerWeek)
    ensures OnDay(rows[j], first + 7 * (j + 1))
  {
  }

  /** Weekly rows are in strictly increasing calendar order, each exactly
      one week after the one before. */
  lemma WeeklyDaysIncrease(rows: seq<Appointment>, first: int)
    requires WeeklyDays(rows, first)
    ensures forall k :: 0 < k < |rows| ==>
              Ordinal(ParseDate(rows[k].date).value) == Ordinal(ParseDate(rows[k - 1].date).value) + DaysPerWeek
    ensures forall k :: 0 < k < |rows| ==>
              Before(ParseDate(rows[k - 1].date).value, ParseDate(rows[k].date).value)
  {
    forall k | 0 < k < |rows|
      ensures Before(ParseDate(rows[k - 1].date).value, ParseDate(rows[k].date).value)
    {
      OrdinalOrder(ParseDate(rows[k - 1].date).value, ParseDate(rows[k].date).value);
    }
  }

  /** A run that links its rows to an existing series keeps the table well
      formed, whether it completes or stops. */
  lemma CreateSeriesWellFormed(st: Store, t: Template, startDate: string, numWeeks: int, parentId: int, avail: Availability)
    requires WellFormed(st) && 1 <= parentId < st.nextId
    ensures WellFormed(CreateSeries(st, t, startDate, numWeeks, parentId, avail).store)
  {
    var r := CreateSeries(st, t, startDate, numWeeks, parentId, avail);
    if ParseDate(startDate).Some? {
      CreateSeriesSpec(st, t, startDate, numWeeks, parentId, avail);
      PlannedIds(r.created, t, WeeklyDates(ParseDate(startDate).value), 0, st.nextId, parentId);
      AppendFreshWellFormed(st, r.created);
    }
  }

  /** Rows that follow the plan carry consecutive ids and the series id. */
  lemma PlannedIds(created: seq<Appointment>, t: Template, dateOf: nat -> string, i: nat, firstId: int, parentId: int)
    requires RowsFollowPlan(created, t, dateOf, i, firstId, parentId)
    ensures forall k :: 0 <= k < |created| ==> created[k].id == firstId + k && created[k].parentId == Some(parentId)
  {
  }

  /** The date one week after `date` (the next occurrence after the first
      row of a new series, or after the last row of a series being
      extended). */
  function NextWeek(date: string): (r: Option<string>)
    ensures r.Some? <==> ParseDate(date).Some?
    ensures r.Some? ==> ParseDate(r.value) == Some(AddWeek(ParseDate(date).value))
  {
    match ParseDate(date)
    case None => None
    case Some(d) =>
      ParseFormatDate(AddWeek(d));
      Some(FormatDate(AddWeek(d)))
  }

  /** The next occurrence is seven days after the one it follows. */
  lemma NextWeekOrdinal(date: string)
    requires ParseDate(date).Some?
    ensures NextWeek(date).Some? && ParseDate(NextWeek(date).value).Some?
    ensures Ordinal(ParseDate(NextWeek(date).value).value) == Ordinal(ParseDate(date).value) + DaysPerWeek
  {
    AddWeekOrdinal(ParseDate(date).value);
  }
}
