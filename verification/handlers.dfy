/** The appointment request handlers (POST, PUT and DELETE on
    `/appointments`, and the `seriesCount` field of the listing) as
    transitions of the appointment table. Each returns the table afterwards
    and the failure the request reports, if any. There is no transaction: a
    failure part-way leaves the writes made before it in place. */
module Handlers {
  import opened Wrappers
  import opened Text
  import opened Clock
  import opened Calendar
  import opened TimeRules
  import opened Records
  import opened Series

  datatype Outcome = Outcome(store: Store, failure: Option<Failure>)

  // ---------------------------------------------------------------------
  // POST /appointments
  // ---------------------------------------------------------------------

  /** The body of a POST. `weeks` is `parseInt(weeks)`; an unparseable
      value is read as 0, which fails the `> 1` test just as `NaN` does.
      Every field is taken to be present. */
  datatype NewBooking = NewBooking(
    title: string,
    clientName: string,
    date: string,
    startTime: Minute,
    endTime: Minute,
    spaceId: int,
    isRecurring: bool,
    weeks: int)

  function BookingTemplate(b: NewBooking): Template {
    Template(b.title, b.clientName, b.startTime, b.endTime, b.spaceId)
  }

  /** The availability question for the first (or only) occurrence. */
  function FirstQuery(b: NewBooking): Query {
    Query(b.spaceId, b.date, b.startTime, b.endTime, None)
  }

  /** The first row is created outside any series. */
  function FirstDraft(b: NewBooking): Draft {
    Draft(b.title, b.clientName, b.date, b.startTime, b.endTime, b.spaceId, b.isRecurring, None)
  }

  predicate WantsSeries(b: NewBooking) {
    b.isRecurring && b.weeks > 1
  }

  /** The first row of a new series, once linked to itself. */
  function SeriesHead(st: Store, b: NewBooking): Appointment {
    RowOf(st.nextId, FirstDraft(b)).(parentId := Some(st.nextId))
  }

  /** `update({ where: { id }, data: { parentId: id } })`. */
  function LinkToSelf(appts: seq<Appointment>, id: int): (r: seq<Appointment>)
    ensures |r| == |appts|
    ensures forall i :: 0 <= i < |appts| ==>
              r[i] == (if appts[i].id == id then appts[i].(parentId := Some(id)) else appts[i])
  {
    MapWhere(appts, WithId(id), (a: Appointment) => a.(parentId := Some(id)))
  }

  /** The table once the first row is created and linked to itself. */
  function LinkedStore(st: Store, b: NewBooking): Store {
    var (st1, first) := Create(st, FirstDraft(b));
    Store(LinkToSelf(st1.appts, first.id), st1.nextId)
  }

  /** The occurrences after the first: `weeks - 1`. */
  function Remaining(b: NewBooking): int {
    b.weeks - 1
  }

  function RunOutcome(run: Run): Outcome {
    Outcome(run.store, run.failure)
  }

  /** `POST /appointments`: validate the times, check the first date,
      create the first row; for a recurring booking of more than one week,
      link that row to itself and create the remaining `weeks - 1`
      occurrences from one week later. A request that breaks a time rule or
      finds the first date full changes nothing, and every request that
      succeeds passed both checks. */
  function Post(cfg: Config, st: Store, b: NewBooking, avail: Availability): (r: Outcome)
    ensures ValidateRange(cfg, b.startTime, b.endTime).Rejected? ==>
              r == Outcome(st, Some(InvalidRange(ValidateRange(cfg, b.startTime, b.endTime).reason)))
    ensures ValidateRange(cfg, b.startTime, b.endTime).Accepted? && !avail(st.appts, FirstQuery(b)) ==>
              r == Outcome(st, Some(CapacityConflict(b.date)))
    ensures r.failure.None? ==>
              ValidateRange(cfg, b.startTime, b.endTime).Accepted? && avail(st.appts, FirstQuery(b))
    ensures r.store.nextId >= st.nextId
  {
    match ValidateRange(cfg, b.startTime, b.endTime)
    case Rejected(e) => Outcome(st, Some(InvalidRange(e)))
    case Accepted =>
      if !avail(st.appts, FirstQuery(b)) then Outcome(st, Some(CapacityConflict(b.date)))
      else if !WantsSeries(b) then Outcome(Create(st, FirstDraft(b)).0, None)
      else
        match NextWeek(b.date)
        case None => Outcome(LinkedStore(st, b), Some(InvalidDate(b.date)))
        case Some(next) =>
          RunOutcome(CreateSeries(LinkedStore(st, b), BookingTemplate(b), next, Remaining(b), Create(st, FirstDraft(b)).1.id, avail))
  }

  /** Whether a POST gets past both checks. */
  predicate Admitted(cfg: Config, st: Store, b: NewBooking, avail: Availability) {
    ValidateRange(cfg, b.startTime, b.endTime).Accepted? && avail(st.appts, FirstQuery(b))
  }

  /** A single booking appends exactly one row, outside any series, with
      the next id and the requested fields. */
  lemma PostSingle(cfg: Config, st: Store, b: NewBooking, avail: Availability)
    requires Admitted(cfg, st, b, avail) && !WantsSeries(b)
    ensures Post(cfg, st, b, avail).failure.None?
    ensures Post(cfg, st, b, avail).store == Store(st.appts + [RowOf(st.nextId, FirstDraft(b))], st.nextId + 1)
    ensures RowOf(st.nextId, FirstDraft(b)).parentId.None?
  {
  }

  /** Linking the row just created to itself touches no other row. */
  lemma LinkNewRow(st: Store, b: NewBooking)
    requires WellFormed(st)
    ensures LinkedStore(st, b) == Store(st.appts + [SeriesHead(st, b)], st.nextId + 1)
  {
    var appts := Create(st, FirstDraft(b)).0.appts;
    var linked := LinkToSelf(appts, st.nextId);
    forall i | 0 <= i < |st.appts| ensures linked[i] == st.appts[i] {
      assert appts[i] == st.appts[i] && st.appts[i] in st.appts;
    }
  }

  /** A series request whose date text is not a calendar day fails after
      the first row was created and linked; that row stays. */
  lemma PostBadDate(cfg: Config, st: Store, b: NewBooking, avail: Availability)
    requires WellFormed(st)
    requires Admitted(cfg, st, b, avail) && WantsSeries(b) && ParseDate(b.date).None?
    ensures Post(cfg, st, b, avail) == Outcome(Store(st.appts + [SeriesHead(st, b)], st.nextId + 1), Some(InvalidDate(b.date)))
  {
    LinkNewRow(st, b);
  }

  /** A series request with a readable date is the run that starts one
      week after the requested date, on the table with the linked first
      row added. */
  lemma PostSeriesRun(cfg: Config, st: Store, b: NewBooking, avail: Availability)
    requires Admitted(cfg, st, b, avail) && WantsSeries(b) && ParseDate(b.date).Some?
    ensures NextWeek(b.date).Some?
    ensures Post(cfg, st, b, avail)
            == RunOutcome(CreateSeries(LinkedStore(st, b), BookingTemplate(b), NextWeek(b.date).value, Remaining(b), st.nextId, avail))
  {
  }

  /** The second date the POST handler computes, as written: local
      midnight of `date`, seven days on, then `toISOString()`, which reads
      that instant in UTC. `offset` is how many minutes the server's zone
      is ahead of UTC at that instant. Ahead of UTC, local midnight is
      still the previous day in UTC. A text `ParseDate` rejects gives no
      date here; `new Date` would instead roll an overflowing day such as
      `2025-02-30` over to 2 March, and only a text it cannot read at all
      makes `toISOString()` throw. */
  function IsoNextWeek(date: string, offset: int): (r: Option<string>)
    requires -1440 < offset < 1440
    ensures r.Some? <==> ParseDate(date).Some?
  {
    match ParseDate(date)
    case None => None
    case Some(d) =>
      if offset > 0 then Some(FormatDate(PrevDay(AddWeek(d)))) else Some(FormatDate(AddWeek(d)))
  }

  /** On a server ahead of UTC (Madrid, say, at +60) the second occurrence
      of a new series lands six days after the first, not seven. */
  lemma IsoNextWeekEastOfUtc(date: string, offset: int)
    requires ParseDate(date).Some? && 0 < offset < 1440
    ensures ParseDate(IsoNextWeek(date, offset).value).Some?
    ensures Ordinal(ParseDate(IsoNextWeek(date, offset).value).value) == Ordinal(ParseDate(date).value) + 6
    ensures IsoNextWeek(date, offset) != NextWeek(date)
  {
    var d := ParseDate(date).value;
    ParseFormatDate(PrevDay(AddWeek(d)));
    PrevDayOrdinal(AddWeek(d));
    AddWeekOrdinal(d);
    NextWeekOrdinal(date);
  }

  /** At UTC or behind it the handler's date is the intended one. */
  lemma IsoNextWeekWestOfUtc(date: string, offset: int)
    requires -1440 < offset <= 0
    ensures IsoNextWeek(date, offset) == NextWeek(date)
  {
  }

  /** A run that continues a series begun by the table's newest row: the
      series consists of that row and the rows the run created. */
  lemma NewSeriesMembers(st: Store, st2: Store, head: Appointment, t: Template, next: string, n: int, avail: Availability)
    requires WellFormed(st) && head.parentId == Some(st.nextId) && st2.appts == st.appts + [head]
    ensures Members(CreateSeries(st2, t, next, n, st.nextId, avail).store.appts, st.nextId)
            == [head] + CreateSeries(st2, t, next, n, st.nextId, avail).created
  {
    NoSeriesAtNextId(st);
    CreatedInSeries(st2, t, next, n, st.nextId, avail);
    RunAfterHead(st.appts, head, CreateSeries(st2, t, next, n, st.nextId, avail), st.nextId);
  }

  /** A head and the rows of a run, appended to rows outside the series,
      are the whole series. */
  lemma RunAfterHead(base: seq<Appointment>, head: Appointment, run: Run, id: int)
    requires run.store.appts == (base + [head]) + run.created
    requires forall a :: a in base ==> a.parentId != Some(id)
    requires head.parentId == Some(id)
    requires forall a :: a in run.created ==> a.parentId == Some(id)
    ensures Members(run.store.appts, id) == [head] + run.created
  {
    assert run.store.appts == base + ([head] + run.created);
    FreshSeriesMembers(base, [head] + run.created, id);
  }

  lemma AppendedSeries(base: seq<Appointment>, head: Appointment, run: Run, id: int)
    requires run.store.appts == (base + [head]) + run.created
    requires Members(run.store.appts, id) == [head] + run.created
    ensures run.store.appts == base + Members(run.store.appts, id)
  {
  }

  /** After such a run the table is its old rows followed by the series. */
  lemma NewSeriesAtEnd(st: Store, st2: Store, head: Appointment, t: Template, next: string, n: int, avail: Availability)
    requires WellFormed(st) && head.parentId == Some(st.nextId) && st2.appts == st.appts + [head]
    ensures CreateSeries(st2, t, next, n, st.nextId, avail).store.appts
            == st.appts + Members(CreateSeries(st2, t, next, n, st.nextId, avail).store.appts, st.nextId)
  {
    NewSeriesMembers(st, st2, head, t, next, n, avail);
    AppendedSeries(st.appts, head, CreateSeries(st2, t, next, n, st.nextId, avail), st.nextId);
  }

  /** Such a run, started one week after the series' first row, either
      completes the series to `n + 1` rows, one every seven days from the
      first, or stops on a full date. */
  lemma NewSeriesComplete(st: Store, st2: Store, head: Appointment, t: Template, next: string, n: int, avail: Availability)
    requires WellFormed(st) && head.parentId == Some(st.nextId) && st2.appts == st.appts + [head] && n > 0
    requires ParseDate(head.date).Some? && NextWeek(head.date) == Some(next)
    ensures CreateSeries(st2, t, next, n, st.nextId, avail).failure.None? ==>
              && |Members(CreateSeries(st2, t, next, n, st.nextId, avail).store.appts, st.nextId)| == n + 1
              && WeeklyDays(Members(CreateSeries(st2, t, next, n, st.nextId, avail).store.appts, st.nextId),
                            Ordinal(ParseDate(head.date).value))
    ensures CreateSeries(st2, t, next, n, st.nextId, avail).failure.Some? ==>
              CreateSeries(st2, t, next, n, st.nextId, avail).failure.value.CapacityConflict?
  {
    NewSeriesMembers(st, st2, head, t, next, n, avail);
    CreateSeriesSpec(st2, t, next, n, st.nextId, avail);
    if CreateSeries(st2, t, next, n, st.nextId, avail).failure.None? {
      SeriesDatesAreWeekly(st2, t, next, n, st.nextId, avail);
      DatedWeeklyDays(CreateSeries(st2, t, next, n, st.nextId, avail).created, ParseDate(next).value);
      AddWeekOrdinal(ParseDate(head.date).value);
      WeeklyDaysCons(head, CreateSeries(st2, t, next, n, st.nextId, avail).created,
                     Ordinal(ParseDate(head.date).value), Ordinal(ParseDate(next).value));
    }
  }

  /** A series request with a readable date: the table keeps its rows and
      ends with the new series `st.nextId`, which begins with the linked
      first row. If nothing stopped the run the series has `weeks` rows,
      one every seven days from the requested date; otherwise a later date
      was full. */
  lemma PostSeries(cfg: Config, st: Store, b: NewBooking, avail: Availability)
    requires WellFormed(st)
    requires Admitted(cfg, st, b, avail) && WantsSeries(b) && ParseDate(b.date).Some?
    ensures Post(cfg, st, b, avail).store.appts == st.appts + Members(Post(cfg, st, b, avail).store.appts, st.nextId)
    ensures Members(Post(cfg, st, b, avail).store.appts, st.nextId)[..1] == [SeriesHead(st, b)]
    ensures Post(cfg, st, b, avail).failure.None? ==>
              && |Members(Post(cfg, st, b, avail).store.appts, st.nextId)| == b.weeks
              && WeeklyDays(Members(Post(cfg, st, b, avail).store.appts, st.nextId), Ordinal(ParseDate(b.date).value))
    ensures Post(cfg, st, b, avail).failure.Some? ==> Post(cfg, st, b, avail).failure.value.CapacityConflict?
  {
    PostSeriesRun(cfg, st, b, avail);
    LinkNewRow(st, b);
    NewSeriesMembers(st, LinkedStore(st, b), SeriesHead(st, b), BookingTemplate(b), NextWeek(b.date).value, Remaining(b), avail);
    NewSeriesAtEnd(st, LinkedStore(st, b), SeriesHead(st, b), BookingTemplate(b), NextWeek(b.date).value, Remaining(b), avail);
    NewSeriesComplete(st, LinkedStore(st, b), SeriesHead(st, b), BookingTemplate(b), NextWeek(b.date).value, Remaining(b), avail);
  }

  // ---------------------------------------------------------------------
  // PUT /appointments/:id
  // ---------------------------------------------------------------------

  /** The body of a PUT. `weeks` is `parseInt(weeks)`, with an unparseable
      value read as 0 (never above the current count, as with `NaN`). */
  datatype Change = Change(
    title: string,
    clientName: string,
    date: string,
    startTime: Minute,
    endTime: Minute,
    spaceId: int,
    editAllSeries: bool,
    weeks: int)

  function ChangeTemplate(c: Change): Template {
    Template(c.title, c.clientName, c.startTime, c.endTime, c.spaceId)
  }

  /** The columns a whole-series edit rewrites: all but the date. */
  function Restyle(a: Appointment, c: Change): (r: Appointment)
    ensures r.id == a.id && r.date == a.date && r.isRecurring == a.isRecurring && r.parentId == a.parentId
    ensures r.title == c.title && r.clientName == c.clientName
    ensures r.startTime == c.startTime && r.endTime == c.endTime && r.spaceId == c.spaceId
  {
    a.(title := c.title, clientName := c.clientName, startTime := c.startTime, endTime := c.endTime, spaceId := c.spaceId)
  }

  /** The columns a single edit rewrites: those and the date. */
  function Revise(a: Appointment, c: Change): (r: Appointment)
    ensures r.id == a.id && r.isRecurring == a.isRecurring && r.parentId == a.parentId
    ensures r.date == c.date && r.title == c.title && r.clientName == c.clientName
    ensures r.startTime == c.startTime && r.endTime == c.endTime && r.spaceId == c.spaceId
  {
    Restyle(a, c).(date := c.date)
  }

  /** `findFirst({ where, orderBy: { date: 'desc' } })`: a row whose date
      text is greatest in string order; of equal dates, the earliest row. */
  function Latest(rows: seq<Appointment>): (r: Option<Appointment>)
    ensures r.None? <==> rows == []
    ensures r.Some? ==> r.value in rows && forall a :: a in rows ==> !LexLess(r.value.date, a.date)
  {
    if rows == [] then None
    else
      match Latest(rows[1..])
      case None =>
        LexLessIrreflexive(rows[0].date);
        assert rows == [rows[0]] + rows[1..];
        Some(rows[0])
      case Some(b) =>
        if LexLess(rows[0].date, b.date) then
          LexLessAsymmetric(rows[0].date, b.date);
          assert rows == [rows[0]] + rows[1..];
          Some(b)
        else
          LexLessIrreflexive(rows[0].date);
          forall a | a in rows[1..] ensures !LexLess(rows[0].date, a.date) {
            LexLessTotal(rows[0].date, b.date);
            if LexLess(rows[0].date, a.date) && LexLess(b.date, rows[0].date) {
              LexLessTransitive(b.date, rows[0].date, a.date);
            }
          }
          assert rows == [rows[0]] + rows[1..];
          Some(rows[0])
  }

  /** `updateMany({ where: { parentId: p }, data })` with the new common
      columns. */
  function Restyled(st: Store, p: int, c: Change): (r: Store)
    ensures r.nextId == st.nextId && |r.appts| == |st.appts|
    ensures forall i :: 0 <= i < |st.appts| ==>
              r.appts[i] == (if st.appts[i].parentId == Some(p) then Restyle(st.appts[i], c) else st.appts[i])
  {
    Store(MapWhere(st.appts, InSeries(p), (a: Appointment) => Restyle(a, c)), st.nextId)
  }

  /** Scenario A, the whole series `p`: rewrite every member but its date,
      then, when more weeks are asked for than the series has, continue it
      one week after its latest member. */
  function PutSeries(st: Store, p: int, c: Change, avail: Availability): (r: Outcome)
    ensures r.store.nextId >= st.nextId
  {
    var st1 := Restyled(st, p, c);
    if c.weeks <= |Members(st1.appts, p)| then Outcome(st1, None)
    else Continue(st1, p, ChangeTemplate(c), Shortfall(st1, p, c), avail)
  }

  /** The weeks still missing from series `p`: `weeks - count`. */
  function Shortfall(st: Store, p: int, c: Change): int {
    c.weeks - |Members(st.appts, p)|
  }

  /** Continue series `p` by `k` rows from one week after its latest
      member. */
  function Continue(st: Store, p: int, t: Template, k: int, avail: Availability): (r: Outcome)
    ensures r.store.nextId >= st.nextId
    ensures !Resumes(st, p) ==> r.store == st && r.failure.Some?
  {
    match Latest(Members(st.appts, p))
    case None => Outcome(st, Some(NotFound))
    case Some(last) =>
      match NextWeek(last.date)
      case None => Outcome(st, Some(InvalidDate(last.date)))
      case Some(next) => RunOutcome(CreateSeries(st, t, next, k, p, avail))
  }

  /** Scenario B, one row: check the new range against the others, then
      rewrite that row. */
  function PutOne(st: Store, n: int, c: Change, avail: Availability): (r: Outcome)
    ensures !avail(st.appts, Query(c.spaceId, c.date, c.startTime, c.endTime, Some(n))) ==> r == Outcome(st, Some(SpaceTaken))
    ensures r.failure.None? ==> avail(st.appts, Query(c.spaceId, c.date, c.startTime, c.endTime, Some(n)))
  {
    if !avail(st.appts, Query(c.spaceId, c.date, c.startTime, c.endTime, Some(n))) then Outcome(st, Some(SpaceTaken))
    else Outcome(Store(MapWhere(st.appts, WithId(n), (a: Appointment) => Revise(a, c)), st.nextId), None)
  }

  /** `PUT /appointments/:id`. An id that is not an integer makes the
      lookup fail; an unknown id is reported as not found; both leave the
      table alone. The whole series is edited only when asked for and the
      row belongs to one (a `parentId` other than `null` and 0); otherwise
      only the row itself. The single edit does not apply the time rules. */
  function Put(st: Store, id: Option<int>, c: Change, avail: Availability): (r: Outcome)
    ensures id.None? ==> r == Outcome(st, Some(InvalidId))
    ensures id.Some? && Find(st.appts, id.value).None? ==> r == Outcome(st, Some(NotFound))
    ensures r.store.nextId >= st.nextId
  {
    match id
    case None => Outcome(st, Some(InvalidId))
    case Some(n) =>
      match Find(st.appts, n)
      case None => Outcome(st, Some(NotFound))
      case Some(orig) =>
        if c.editAllSeries && Linked(orig.parentId) then PutSeries(st, orig.parentId.value, c, avail)
        else PutOne(st, n, c, avail)
  }

  /** Which scenario a PUT on an existing row takes. */
  lemma PutRoutes(st: Store, n: int, c: Change, avail: Availability)
    requires Find(st.appts, n).Some?
    ensures c.editAllSeries && Linked(Find(st.appts, n).value.parentId) ==>
              Put(st, Some(n), c, avail) == PutSeries(st, Find(st.appts, n).value.parentId.value, c, avail)
    ensures !(c.editAllSeries && Linked(Find(st.appts, n).value.parentId)) ==>
              Put(st, Some(n), c, avail) == PutOne(st, n, c, avail)
  {
  }

  /** The series edit rewrites exactly the members of `p`, all but their
      dates, and leaves every other row as it was; rows are only ever
      appended after that. */
  lemma PutSeriesRewrites(st: Store, p: int, c: Change, avail: Availability)
    ensures |PutSeries(st, p, c, avail).store.appts| >= |st.appts|
    ensures forall i :: 0 <= i < |st.appts| ==>
              PutSeries(st, p, c, avail).store.appts[i]
              == (if st.appts[i].parentId == Some(p) then Restyle(st.appts[i], c) else st.appts[i])
    ensures forall i :: 0 <= i < |st.appts| ==>
              PutSeries(st, p, c, avail).store.appts[i].date == st.appts[i].date
  {
    var st1 := Restyled(st, p, c);
    var r := PutSeries(st, p, c, avail);
    assert r.store.appts[..|st.appts|] == st1.appts;
    forall i | 0 <= i < |st.appts|
      ensures r.store.appts[i] == st1.appts[i]
    {
      assert r.store.appts[..|st.appts|][i] == r.store.appts[i];
    }
  }

  /** The rewrite moves no row in or out of series `p`. */
  lemma RestyleKeepsSize(st: Store, p: int, c: Change)
    ensures |Members(Restyled(st, p, c).appts, p)| == |Members(st.appts, p)|
  {
    MapWhereKeepsSeries(st.appts, InSeries(p), (a: Appointment) => Restyle(a, c), p);
  }

  /** Whether series `p` can be continued: it has a latest member and that
      member's date is readable. */
  predicate Resumes(st: Store, p: int) {
    && Latest(Members(st.appts, p)).Some?
    && NextWeek(Latest(Members(st.appts, p)).value.date).Some?
  }

  /** The date of the latest member of a series that can be continued. */
  function LastDay(st: Store, p: int): (d: Date)
    requires Resumes(st, p)
    ensures Valid(d)
  {
    ParseDate(Latest(Members(st.appts, p)).value.date).value
  }

  /** Asking for no more weeks than the series has is the rewrite alone. */
  lemma PutSeriesStays(st: Store, p: int, c: Change, avail: Availability)
    requires c.weeks <= |Members(st.appts, p)|
    ensures PutSeries(st, p, c, avail) == Outcome(Restyled(st, p, c), None)
  {
    RestyleKeepsSize(st, p, c);
  }

  /** Asking for more continues the rewritten series by the difference. */
  lemma PutSeriesContinues(st: Store, p: int, c: Change, avail: Availability)
    requires c.weeks > |Members(st.appts, p)|
    ensures PutSeries(st, p, c, avail) == Continue(Restyled(st, p, c), p, ChangeTemplate(c), Shortfall(Restyled(st, p, c), p, c), avail)
  {
    RestyleKeepsSize(st, p, c);
  }

  /** A series that can be continued gets the run that starts one week
      after its latest member. */
  lemma ContinueRuns(st: Store, p: int, t: Template, k: int, avail: Availability)
    requires Resumes(st, p)
    ensures Continue(st, p, t, k, avail)
            == RunOutcome(CreateSeries(st, t, NextWeek(Latest(Members(st.appts, p)).value.date).value, k, p, avail))
  {
  }

  /** A run that continues series `p` adds exactly the rows it creates to
      the series. */
  lemma RunExtendsSeries(st: Store, t: Template, next: string, k: int, p: int, avail: Availability)
    ensures Members(CreateSeries(st, t, next, k, p, avail).store.appts, p)
            == Members(st.appts, p) + CreateSeries(st, t, next, k, p, avail).created
  {
    CreatedInSeries(st, t, next, k, p, avail);
    KeepAll(CreateSeries(st, t, next, k, p, avail).created, InSeries(p));
    MembersAppend(st.appts, CreateSeries(st, t, next, k, p, avail).created, p);
  }

  /** A run with a readable start that nothing stops creates all `k`
      rows. */
  lemma RunCreatesAll(st: Store, t: Template, next: string, k: int, p: int, avail: Availability)
    requires k > 0 && ParseDate(next).Some? && CreateSeries(st, t, next, k, p, avail).failure.None?
    ensures |CreateSeries(st, t, next, k, p, avail).created| == k
  {
    CreateSeriesSpec(st, t, next, k, p, avail);
  }

  /** Continuing never shrinks the series. */
  lemma ContinueKeeps(st: Store, p: int, t: Template, k: int, avail: Availability)
    ensures |Members(Continue(st, p, t, k, avail).store.appts, p)| >= |Members(st.appts, p)|
  {
    if Resumes(st, p) {
      ContinueRuns(st, p, t, k, avail);
      RunExtendsSeries(st, t, NextWeek(Latest(Members(st.appts, p)).value.date).value, k, p, avail);
    }
  }

  /** A continuation that does not fail grows the series by exactly `k`. */
  lemma ContinueFills(st: Store, p: int, t: Template, k: int, avail: Availability)
    requires k > 0 && Continue(st, p, t, k, avail).failure.None?
    ensures |Members(Continue(st, p, t, k, avail).store.appts, p)| == |Members(st.appts, p)| + k
  {
    if Resumes(st, p) {
      ContinueRuns(st, p, t, k, avail);
      RunExtendsSeries(st, t, NextWeek(Latest(Members(st.appts, p)).value.date).value, k, p, avail);
      RunCreatesAll(st, t, NextWeek(Latest(Members(st.appts, p)).value.date).value, k, p, avail);
    }
  }

  /** The series edit never shrinks the series. */
  lemma PutSeriesGrows(st: Store, p: int, c: Change, avail: Availability)
    ensures |Members(PutSeries(st, p, c, avail).store.appts, p)| >= |Members(st.appts, p)|
  {
    RestyleKeepsSize(st, p, c);
    if c.weeks > |Members(st.appts, p)| {
      PutSeriesContinues(st, p, c, avail);
      ContinueKeeps(Restyled(st, p, c), p, ChangeTemplate(c), Shortfall(Restyled(st, p, c), p, c), avail);
    } else {
      PutSeriesStays(st, p, c, avail);
    }
  }

  /** Asked for more weeks than it has, the series edit that nothing stops
      ends with exactly `weeks` members. */
  lemma PutSeriesFills(st: Store, p: int, c: Change, avail: Availability)
    requires c.weeks > |Members(st.appts, p)| && PutSeries(st, p, c, avail).failure.None?
    ensures |Members(PutSeries(st, p, c, avail).store.appts, p)| == c.weeks
  {
    RestyleKeepsSize(st, p, c);
    PutSeriesContinues(st, p, c, avail);
    ContinueFills(Restyled(st, p, c), p, ChangeTemplate(c), Shortfall(Restyled(st, p, c), p, c), avail);
  }

  lemma DropAppend(a: seq<Appointment>, b: seq<Appointment>)
    ensures (a + b)[|a|..] == b
  {
  }

  /** A run that starts one week after `d` appends rows dated weekly from
      that day. */
  lemma RunAppendsWeekly(st: Store, t: Template, d: Date, next: string, k: int, p: int, avail: Availability)
    requires Valid(d) && ParseDate(next) == Some(AddWeek(d))
    ensures WeeklyDays(CreateSeries(st, t, next, k, p, avail).store.appts[|st.appts|..], Ordinal(d) + DaysPerWeek)
  {
    DropAppend(st.appts, CreateSeries(st, t, next, k, p, avail).created);
    SeriesDatesAreWeekly(st, t, next, k, p, avail);
    DatedWeeklyDays(CreateSeries(st, t, next, k, p, avail).created, AddWeek(d));
    AddWeekOrdinal(d);
  }

  /** The rows a continuation appends are dated weekly from one week after
      the series' latest member. */
  lemma ContinueDates(st: Store, p: int, t: Template, k: int, avail: Availability)
    requires Resumes(st, p)
    ensures WeeklyDays(Continue(st, p, t, k, avail).store.appts[|st.appts|..], Ordinal(LastDay(st, p)) + DaysPerWeek)
  {
    ContinueRuns(st, p, t, k, avail);
    RunAppendsWeekly(st, t, LastDay(st, p), NextWeek(Latest(Members(st.appts, p)).value.date).value, k, p, avail);
  }

  /** When the series edit continues the series, the rows it appends are
      dated weekly from one week after the latest member. */
  lemma PutSeriesDates(st: Store, p: int, c: Change, avail: Availability)
    requires c.weeks > |Members(st.appts, p)| && Resumes(Restyled(st, p, c), p)
    ensures WeeklyDays(PutSeries(st, p, c, avail).store.appts[|st.appts|..],
                       Ordinal(LastDay(Restyled(st, p, c), p)) + DaysPerWeek)
  {
    PutSeriesContinues(st, p, c, avail);
    ContinueDates(Restyled(st, p, c), p, ChangeTemplate(c), Shortfall(Restyled(st, p, c), p, c), avail);
  }

  /** The single edit, when the range is free, rewrites the row with that
      id and no other; looking the id up afterwards gives the revised row. */
  lemma PutOneSpec(st: Store, n: int, c: Change, avail: Availability)
    requires UniqueIds(st.appts) && Find(st.appts, n).Some?
    requires avail(st.appts, Query(c.spaceId, c.date, c.startTime, c.endTime, Some(n)))
    ensures PutOne(st, n, c, avail).failure.None?
    ensures |PutOne(st, n, c, avail).store.appts| == |st.appts|
    ensures forall i :: 0 <= i < |st.appts| ==>
              PutOne(st, n, c, avail).store.appts[i] == (if st.appts[i].id == n then Revise(st.appts[i], c) else st.appts[i])
    ensures Find(PutOne(st, n, c, avail).store.appts, n) == Some(Revise(Find(st.appts, n).value, c))
  {
    var r := PutOne(st, n, c, avail).store.appts;
    var i :| 0 <= i < |st.appts| && st.appts[i] == Find(st.appts, n).value;
    FindUnique(st.appts, i);
    assert UniqueIds(r) by {
      forall j, k | 0 <= j < k < |r| ensures r[j].id != r[k].id {
        assert r[j].id == st.appts[j].id && r[k].id == st.appts[k].id;
      }
    }
    FindUnique(r, i);
  }

  /** Continuing a series of a well-formed table keeps it well formed. */
  lemma ContinueWellFormed(st: Store, p: int, t: Template, k: int, avail: Availability)
    requires WellFormed(st) && 1 <= p < st.nextId
    ensures WellFormed(Continue(st, p, t, k, avail).store)
  {
    if Resumes(st, p) {
      ContinueRuns(st, p, t, k, avail);
      CreateSeriesWellFormed(st, t, NextWeek(Latest(Members(st.appts, p)).value.date).value, k, p, avail);
    }
  }

  /** The series edit keeps a well-formed table well formed. */
  lemma PutSeriesWellFormed(st: Store, p: int, c: Change, avail: Availability)
    requires WellFormed(st) && 1 <= p < st.nextId
    ensures WellFormed(PutSeries(st, p, c, avail).store)
  {
    MapWhereWellFormed(st, InSeries(p), (a: Appointment) => Restyle(a, c));
    if c.weeks > |Members(st.appts, p)| {
      PutSeriesContinues(st, p, c, avail);
      ContinueWellFormed(Restyled(st, p, c), p, ChangeTemplate(c), Shortfall(Restyled(st, p, c), p, c), avail);
    } else {
      PutSeriesStays(st, p, c, avail);
    }
  }

  /** Every PUT keeps the table well formed. */
  lemma PutWellFormed(st: Store, id: Option<int>, c: Change, avail: Availability)
    requires WellFormed(st)
    ensures WellFormed(Put(st, id, c, avail).store)
  {
    if id.Some? && Find(st.appts, id.value).Some? {
      var orig := Find(st.appts, id.value).value;
      PutRoutes(st, id.value, c, avail);
      if c.editAllSeries && Linked(orig.parentId) {
        PutSeriesWellFormed(st, orig.parentId.value, c, avail);
      } else {
        MapWhereWellFormed(st, WithId(id.value), (a: Appointment) => Revise(a, c));
      }
    }
  }

  // ---------------------------------------------------------------------
  // DELETE /appointments/:id
  // ---------------------------------------------------------------------

  /** `DELETE /appointments/:id?deleteAll=...`. An id that is not an
      integer, or that no row has, deletes nothing. With `deleteAll` equal
      to the text `true` and a row in a series (a `parentId` other than
      `null` and 0), the whole series goes; otherwise the row alone. Only
      rows are removed: nothing is added or rewritten. */
  function Delete(st: Store, id: Option<int>, deleteAll: string): (r: Outcome)
    ensures id.None? ==> r == Outcome(st, Some(InvalidId))
    ensures id.Some? && Find(st.appts, id.value).None? ==> r == Outcome(st, Some(NotFound))
    ensures r.store.nextId == st.nextId
    ensures forall a :: a in r.store.appts ==> a in st.appts
  {
    match id
    case None => Outcome(st, Some(InvalidId))
    case Some(n) =>
      match Find(st.appts, n)
      case None => Outcome(st, Some(NotFound))
      case Some(a) =>
        if deleteAll == "true" && Linked(a.parentId) then Outcome(Store(Keep(st.appts, OutsideSeries(a.parentId.value)), st.nextId), None)
        else Outcome(Store(Keep(st.appts, WithoutId(n)), st.nextId), None)
  }

  /** Deleting a whole series removes exactly its members and leaves no
      member behind. */
  lemma DeleteSeries(st: Store, n: int)
    requires Find(st.appts, n).Some? && Linked(Find(st.appts, n).value.parentId)
    ensures Delete(st, Some(n), "true").failure.None?
    ensures forall a :: a in Delete(st, Some(n), "true").store.appts <==>
              a in st.appts && a.parentId != Find(st.appts, n).value.parentId
    ensures Members(Delete(st, Some(n), "true").store.appts, Find(st.appts, n).value.parentId.value) == []
  {
    var p := Find(st.appts, n).value.parentId.value;
    KeepNone(Delete(st, Some(n), "true").store.appts, InSeries(p));
  }

  /** Deleting one row removes the rows with that id and no other; with
      unique ids that is exactly one row. */
  lemma DeleteOne(st: Store, n: int, deleteAll: string)
    requires Find(st.appts, n).Some? && !(deleteAll == "true" && Linked(Find(st.appts, n).value.parentId))
    ensures Delete(st, Some(n), deleteAll).failure.None?
    ensures forall a :: a in Delete(st, Some(n), deleteAll).store.appts <==> a in st.appts && a.id != n
    ensures UniqueIds(st.appts) ==> |Delete(st, Some(n), deleteAll).store.appts| == |st.appts| - 1
  {
    if UniqueIds(st.appts) {
      KeepRemovesOne(st.appts, n);
    }
  }

  /** Every DELETE keeps the table well formed. */
  lemma DeleteWellFormed(st: Store, id: Option<int>, deleteAll: string)
    requires WellFormed(st)
    ensures WellFormed(Delete(st, id, deleteAll).store)
  {
    if id.Some? && Find(st.appts, id.value).Some? {
      var a := Find(st.appts, id.value).value;
      if deleteAll == "true" && Linked(a.parentId) {
        KeepWellFormed(st, OutsideSeries(a.parentId.value));
      } else {
        KeepWellFormed(st, WithoutId(id.value));
      }
    }
  }

  /** Every POST keeps the table well formed, including one that stops
      part-way. */
  lemma PostWellFormed(cfg: Config, st: Store, b: NewBooking, avail: Availability)
    requires WellFormed(st)
    ensures WellFormed(Post(cfg, st, b, avail).store)
  {
    if Admitted(cfg, st, b, avail) {
      CreateWellFormed(st, FirstDraft(b));
      if WantsSeries(b) {
        LinkNewRow(st, b);
        AppendFreshWellFormed(st, [SeriesHead(st, b)]);
        if ParseDate(b.date).Some? {
          PostSeriesRun(cfg, st, b, avail);
          CreateSeriesWellFormed(LinkedStore(st, b), BookingTemplate(b), NextWeek(b.date).value, Remaining(b), st.nextId, avail);
        }
      }
    }
  }

  // ---------------------------------------------------------------------
  // seriesCount
  // ---------------------------------------------------------------------

  /** `seriesCount` of a listed row: the size of its series, or 1 for a row
      outside any series (a `parentId` of `null` or 0). */
  function SeriesCount(appts: seq<Appointment>, a: Appointment): (n: int)
    ensures n >= 0
    ensures !Linked(a.parentId) ==> n == 1
  {
    if Linked(a.parentId) then |Members(appts, a.parentId.value)| else 1
  }

  /** Every listed row counts itself. */
  lemma SeriesCountPositive(appts: seq<Appointment>, a: Appointment)
    requires a in appts
    ensures SeriesCount(appts, a) >= 1
  {
    if Linked(a.parentId) {
      assert a in Members(appts, a.parentId.value);
    }
  }

  /** After a series POST that nothing stopped, every row of the series
      reports `weeks` as its count. */
  lemma PostSeriesCount(cfg: Config, st: Store, b: NewBooking, avail: Availability, a: Appointment)
    requires WellFormed(st)
    requires Admitted(cfg, st, b, avail) && WantsSeries(b) && ParseDate(b.date).Some?
    requires Post(cfg, st, b, avail).failure.None?
    requires a in Members(Post(cfg, st, b, avail).store.appts, st.nextId)
    ensures SeriesCount(Post(cfg, st, b, avail).store.appts, a) == b.weeks
  {
    PostSeries(cfg, st, b, avail);
  }
}
