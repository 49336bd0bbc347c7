# MiCalendario booking core in Dafny

This project models the booking logic of MiCalendario, a small appointment
calendar. Bookings are made in spaces that take a limited number of
simultaneous appointments, and a booking may repeat weekly as a series. The
model covers:

- `createSeries`: weekly occurrences, each checked for availability and
  inserted before the next is considered. A conflict stops the run and
  keeps what was already inserted.
- the backend's time rules (`validarHoras` and its two configuration values);
- the POST, PUT and DELETE handlers on `/appointments`, as transitions of
  the appointment table;
- the `seriesCount` field of the listing;
- the exact-slot clash test `checkScheduleConflict`;
- the booking form's slot grid (`generateSlots`, `checkOccupancy`,
  `isSelected`).

The table is a `Store`: rows in insertion order plus the next
auto-increment id. Every handler is a pure function from a table and a
request to an `Outcome`: the table afterwards and the failure reported, if
any. Nothing runs in a transaction, so a failure part-way leaves earlier
writes in place, and the model says so.

Dates are kept as `YYYY-MM-DD` texts, as in the source. `Calendar` gives
them a meaning (`ParseDate`, `FormatDate`, calendar-day addition) and an
independent day count (`Ordinal`) to check that meaning against. Times of
day are minutes since midnight. The grid compares `HH:MM` texts as
JavaScript does, and lemmas show that this string order agrees with minute
order.

The space-capacity rule `checkSpaceAvailability` is imported by the
handlers, but `backend/utils/validators.js` does not define it, so its
definition is not part of this model. Every handler takes it as a
parameter `avail`: any verdict computed from the current rows and a query.
Each call sees the table as it stands at that moment.

Modules, in dependency order:

- `Wrappers`: `Option`.
- `Text`: string order (JavaScript `<` on strings), decimal digits, `padStart(2, '0')` and `split`.
- `Arith`: division facts.
- `Calendar`: dates.
- `Clock`: times of day.
- `TimeRules`: `validarHoras`.
- `Records`: rows and table operations.
- `Series`: `createSeries`.
- `Validators`: `checkScheduleConflict`.
- `Handlers`: the routes.
- `TimeGrid`: the slot grid.

Notes on the source's behaviour that the model follows:

- **The step rule.** It is checked on the minute of the hour
  (`getMinutes() % RANGO_PASO`), not on minutes from midnight. The two
  agree only when the step divides an hour (`OnStep`); with a
  45-minute step, 01:30 is rejected although 90 is a multiple of 45
  (`StepIsPerHour`).
- **A series POST whose date text the model's `ParseDate` rejects.** The
  model fails it after the first row was created and linked to itself, and
  that row stays (`PostBadDate`). The source does the same for a text
  `new Date` cannot read, whose `toISOString()` throws. A text with an
  overflowing day is read differently by the source (see "Left out").
- **The whole-series PUT.** Its rewrite of the existing members checks no
  availability; only the rows the extension adds are checked, one by one,
  by `createSeries`. It counts the members after the rewrite. `RestyleKeepsSize` shows that count equals
  the count before.
- **`isSelected`.** It highlights the end slot even when the end is before
  the start (`SelectedMinutes`).
- **`checkScheduleConflict`.** It looks only at date and start time. An
  overlapping booking that starts at a different time is no clash
  (`OverlapIsNoConflict`).

## Model

| member | source | states |
|---|---|---|
| TimeRules.ConfigFromEnv | backend/index.js:16-17 | each setting is the parsed value when it is a non-zero number, else the default 60 / 30; neither is ever 0 |
| TimeRules.ValidateRange | backend/index.js:20-34 | an accepted range lasts at least the minimum; an off-step start is reported as the step error; a too-short verdict names the configured minimum |
| TimeRules.ValidateRangeCases | backend/index.js:24-33 | accepted iff both ends are on the step and the duration reaches the minimum; the step error iff an end is off-step (checked first); the duration error iff both are on-step and the range is too short |
| TimeRules.AcceptedRangeIsForward | backend/index.js:28-31 | with a positive minimum, an accepted range has start before end, and an empty or reversed range is rejected |
| TimeRules.OnStep | backend/index.js:24 | the minute-of-hour step test; when the step divides 60 it is the same as "a multiple of the step from midnight" |
| TimeRules.DefaultRule | backend/index.js:16-34 | under the defaults, accepted iff both ends are on the half hour and the range lasts an hour or more |
| TimeRules.StepIsPerHour | backend/index.js:24 | with a 45-minute step, 01:30 (90 minutes) is off-step although 90 is a multiple of 45 |
| Records.Create | backend/index.js:98-105 | the new row gets the next id, is appended, and the next id advances by one |
| Records.Find | backend/index.js:140 | a found row is in the table with that id; nothing is found iff no row has that id |
| Records.FindUnique | backend/index.js:140 | with unique ids, looking up a row's id finds that row |
| Records.Members | backend/index.js:153-155 | the rows of series `p` (`where: { parentId }`) are exactly the table's rows whose series id is `p` |
| Records.MapWhere | backend/index.js:147-150 | every selected row is rewritten, every other row is unchanged, and the rows keep their places |
| Records.Keep | backend/index.js:234-236 | the rows kept are exactly the table's rows the filter accepts |
| Records.KeepRemovesOne | backend/index.js:239-241 | with unique ids, deleting by an existing id removes exactly one row |
| Records.MapWhereKeepsSeries | backend/index.js:147-155 | an update that leaves `parentId` alone does not change any series' size |
| Text.LexLess | frontend/src/components/TimeGrid.jsx:40-41 | JavaScript `<` on strings is strict: no text is below itself (its agreement with time order is `FormatTimeOrder`) |
| Text.Split | backend/utils/appointmentHelpers.js:11 | `split` gives at least one piece, and a text without the separator is its own only piece |
| Text.Pad2 | backend/utils/appointmentHelpers.js:21-22 | a number below 100 is written as its tens digit then its units digit, so below 10 with a leading zero |
| Text.ParseNat | backend/utils/appointmentHelpers.js:11 | a piece is read as a number iff it is a non-empty run of decimal digits |
| Calendar.AddDays | backend/utils/appointmentHelpers.js:18 | adding days to a calendar day gives a calendar day, strictly later when at least one day is added |
| Calendar.ParseDate | backend/utils/appointmentHelpers.js:11-15 | a date read from a `YYYY-MM-DD` text is a real calendar day: month 1 to 12, day within the month, leap years counted |
| Calendar.FormatDate | backend/utils/appointmentHelpers.js:20-23 | the text is as long as the year's digits plus six, with a dash six and three characters from its end, as in `YYYY-MM-DD` |
| Calendar.AddDaysOrdinal | backend/utils/appointmentHelpers.js:18 | adding `n` calendar days, across month and year ends and leap days, moves the day count by exactly `n` |
| Calendar.AddDaysCompose | backend/utils/appointmentHelpers.js:18 | adding `a` days then `b` days is adding `a + b` days |
| Calendar.OrdinalOrder | backend/utils/appointmentHelpers.js:15-18 | the calendar order and the day count agree, and distinct dates have distinct day counts |
| Calendar.AddWeek | backend/index.js:169-172 | one week later is a valid date after the given one |
| Calendar.AddWeekOrdinal | backend/index.js:169-172 | one week later is exactly seven days later by day count |
| Calendar.AddWeekIsSevenDays | backend/index.js:169-172 | the one-step week equals seven one-day steps |
| Calendar.ParseFormatDate | backend/utils/appointmentHelpers.js:11-23 | reading back a formatted `YYYY-MM-DD` text gives the same year, month and day |
| Calendar.FormatDateInjective | backend/utils/appointmentHelpers.js:20-23 | different dates get different texts |
| Calendar.FormatDateOrder | backend/index.js:159-162 | for years of equal digit count, string order of the texts (the `orderBy: { date: 'desc' }` order) is calendar order |
| Clock.FormatTimeOrder | frontend/src/components/TimeGrid.jsx:40-41 | string order of two `HH:MM` texts is the order of the times |
| Clock.FormatTimeInjective | frontend/src/components/TimeGrid.jsx:56-58 | two times have equal texts iff they are equal |
| Clock.FormatTime | frontend/src/components/TimeGrid.jsx:19-22 | a time is written in five characters with the colon in the middle, as `HH:MM` |
| Series.SeriesLoop | backend/utils/appointmentHelpers.js:9-45 | the loop only appends the rows it reports, advances the id by their number, and never creates more rows than weeks remain |
| Series.LoopRows | backend/utils/appointmentHelpers.js:32-44 | row `k` of the loop is occurrence `i + k` with the `k`-th id, the template's fields, `isRecurring` and the series id |
| Series.LoopChecks | backend/utils/appointmentHelpers.js:27-32 | each row was found available against the table plus the rows inserted before it |
| Series.LoopStops | backend/utils/appointmentHelpers.js:27-30 | the loop either reaches the last week or stops at the first unavailable occurrence, naming its date |
| Series.CreateSeries | backend/utils/appointmentHelpers.js:4-47 | no weeks changes nothing; an unreadable start date fails before any row; otherwise only the created rows are appended, at most `numWeeks` of them |
| Series.CreateSeriesSpec | backend/utils/appointmentHelpers.js:9-45 | with a readable start, the created rows follow the weekly plan, each was checked first, and the run stops only on a conflict |
| Series.CreateSeriesFollowsPlan | backend/utils/appointmentHelpers.js:9-44 | the created rows are the first rows of the reference plan, all `numWeeks` of them when nothing stops the run |
| Series.CreatedInSeries | backend/utils/appointmentHelpers.js:40-41 | every created row is recurring and carries the series id |
| Series.OccurrenceDateSpec | backend/utils/appointmentHelpers.js:11-23 | occurrence `k`'s text reads back as the start plus `7k` days, which is `7k` days later by day count |
| Series.SeriesDatesAreWeekly | backend/utils/appointmentHelpers.js:11-23 | created row `k` is dated `7k` days after the start |
| Series.WeeklyDaysIncrease | backend/utils/appointmentHelpers.js:18 | weekly rows are in strictly increasing date order, each exactly seven days after the previous |
| Series.CreateSeriesWellFormed | backend/utils/appointmentHelpers.js:32-44 | a run linking to an existing series keeps ids unique and all ids and series ids below the next id |
| Series.NextWeek | backend/index.js:166-178 | a next date exists iff the date text is readable, and it reads back as one week later |
| Series.NextWeekOrdinal | backend/index.js:166-178 | the next occurrence is seven days after the one it follows |
| Validators.FirstAt | backend/utils/validators.js:5-10 | a row found is in the table on that date at that start time; none is found only when no row is |
| Validators.CheckScheduleConflict | backend/utils/validators.js:3-14 | a clash iff some row has that date and start time; never on an empty table |
| Validators.ConflictIgnoresEndAndSpace | backend/utils/validators.js:5-13 | tables that agree on every row's date and start time give the same answer whatever the end times and spaces |
| Validators.OverlapIsNoConflict | backend/utils/validators.js:5-13 | a booking inside an existing one but starting later is not a clash |
| Handlers.Post | backend/index.js:78-131 | a time-rule violation or a full first date changes nothing and reports that failure; success implies both checks passed; the next id never decreases |
| Handlers.PostSingle | backend/index.js:98-105 | an admitted single booking appends exactly one row outside any series, with the next id and the requested fields |
| Handlers.LinkNewRow | backend/index.js:110-113 | creating the first row and linking it to itself appends one row whose series id is its own id, and changes no other row |
| Handlers.LinkToSelf | backend/index.js:110-113 | exactly the row with that id gets its own id as series id; every other row is unchanged and no row moves |
| Handlers.PostBadDate | backend/index.js:108-130 | a series request whose date text the model's `ParseDate` rejects fails with the linked first row left in the table |
| Handlers.IsoNextWeek | backend/index.js:116-118 | the handler's second date as written: it exists iff the date is readable |
| Handlers.IsoNextWeekEastOfUtc | backend/index.js:116-118 | on a server ahead of UTC the second date is six days after the first, not the intended one |
| Handlers.IsoNextWeekWestOfUtc | backend/index.js:116-118 | at UTC or behind it, the second date is the intended one week later |
| Handlers.NewSeriesMembers | backend/index.js:110-122 | the new series consists of the linked first row followed by the rows the run created |
| Handlers.NewSeriesAtEnd | backend/index.js:110-122 | after a series POST run the table is its old rows followed by the new series |
| Handlers.NewSeriesComplete | backend/index.js:108-123 | a run that is not stopped gives the series `n + 1` rows, one every seven days from the first; a stopped run failed on a full date |
| Handlers.PostSeries | backend/index.js:107-123 | a series POST keeps the old rows and ends with the new series, headed by the linked first row; unstopped, the series has `weeks` rows a week apart from the requested date; otherwise a later date was full |
| Handlers.PostWellFormed | backend/index.js:78-131 | every POST, even one that stops part-way, keeps ids unique and ids and series ids below the next id |
| Handlers.Latest | backend/index.js:159-162 | nothing is found only in an empty series; the row found is a member, and no member's date text is greater |
| Handlers.PutSeries | backend/index.js:143-191 | the next id never decreases; the rewrite and the extension are stated by the lemmas below |
| Handlers.Continue | backend/index.js:159-188 | the next id never decreases; a series without a readable latest date is left as it is, with a failure |
| Handlers.Put | backend/index.js:133-211 | a non-integer id reports a failure and an unknown id reports not found, both changing nothing; the next id never decreases |
| Handlers.PutSeriesRewrites | backend/index.js:147-150 | every member of the series gets the new common columns, all other rows are unchanged, no date changes, and rows are only appended |
| Handlers.Restyle | backend/index.js:147-150 | a series member takes the new title, client, start and end time and space, and keeps its id, date, recurrence flag and series id |
| Handlers.Restyled | backend/index.js:147-150 | exactly the rows of series `p` are restyled; every other row, the row order and the next id are unchanged |
| Handlers.RestyleKeepsSize | backend/index.js:147-155 | the rewrite moves no row in or out of the series, so the count after it is the count before |
| Handlers.PutSeriesStays | backend/index.js:156-158 | asking for no more weeks than the series has is the rewrite alone |
| Handlers.PutSeriesContinues | backend/index.js:153-188 | asking for more extends the rewritten series by `weeks - count` |
| Handlers.RunExtendsSeries | backend/index.js:182-188 | an extension run adds exactly its created rows to the series |
| Handlers.RunCreatesAll | backend/index.js:182-188 | an unstopped extension run with a readable start creates all `k` rows |
| Handlers.ContinueKeeps | backend/index.js:158-189 | extending never shrinks the series |
| Handlers.ContinueFills | backend/index.js:182-188 | an extension that does not fail grows the series by exactly `k` |
| Handlers.PutSeriesGrows | backend/index.js:152-189 | the series edit never shrinks the series |
| Handlers.PutSeriesFills | backend/index.js:152-189 | asked for more weeks than it has, an unstopped series edit leaves exactly `weeks` members |
| Handlers.RunAppendsWeekly | backend/index.js:182-188 | a run starting one week after a date appends rows dated weekly from one week after it |
| Handlers.ContinueDates | backend/index.js:164-188 | the rows an extension appends are dated weekly from one week after the latest member |
| Handlers.PutSeriesDates | backend/index.js:158-188 | when the series edit extends the series, the appended rows are weekly from one week after its latest member |
| Handlers.PutOne | backend/index.js:194-205 | a range that is not available for that row reports the space as taken and changes nothing; success implies it was available |
| Handlers.PutOneSpec | backend/index.js:195-205 | when available, exactly the row with that id gets the new columns and date; looking it up afterwards gives the revised row |
| Handlers.Revise | backend/index.js:201-204 | the edited row takes the new title, client, date, start and end time and space, and keeps its id, recurrence flag and series id |
| Handlers.ContinueWellFormed | backend/index.js:182-188 | extending a series keeps the table well formed |
| Handlers.PutSeriesWellFormed | backend/index.js:143-191 | the series edit keeps the table well formed |
| Handlers.PutWellFormed | backend/index.js:133-211 | every PUT keeps the table well formed |
| Handlers.Delete | backend/index.js:214-247 | a non-integer or unknown id deletes nothing and reports why; every remaining row was there before; the next id is unchanged |
| Handlers.DeleteSeries | backend/index.js:233-237 | deleting with `deleteAll=true` from a series removes exactly the rows of that series and leaves no member |
| Handlers.DeleteOne | backend/index.js:238-242 | otherwise exactly the rows with that id go, which with unique ids is one row |
| Handlers.DeleteWellFormed | backend/index.js:214-247 | every DELETE keeps the table well formed |
| Handlers.SeriesCount | backend/index.js:61-69 | a row outside any series (a `parentId` of `null` or 0) reports 1 |
| Handlers.SeriesCountPositive | backend/index.js:61-69 | every listed row counts at least itself |
| Handlers.PostSeriesCount | backend/index.js:61-69 | after an unstopped series POST every row of the new series reports `weeks` |
| TimeGrid.WholeHourSlot | frontend/src/components/TimeGrid.jsx:19-20 | the full-hour text built for `hour` is grid slot `2(hour - 9)` |
| TimeGrid.HalfHourSlot | frontend/src/components/TimeGrid.jsx:21-22 | the half-hour text is the slot after it |
| TimeGrid.GenerateSlots | frontend/src/components/TimeGrid.jsx:16-25 | the result is exactly the 19 slots 09:00, 09:30, ..., 18:00, in order |
| TimeGrid.GridEnds | frontend/src/components/TimeGrid.jsx:18-23 | the grid starts at 09:00 and ends at 18:00 |
| TimeGrid.GridStopsAtSix | frontend/src/components/TimeGrid.jsx:21-22 | 18:30 is not a slot |
| TimeGrid.GridOnStep | frontend/src/components/TimeGrid.jsx:16-25 | every slot is a start time the default time rules accept |
| TimeGrid.GridOrdered | frontend/src/components/TimeGrid.jsx:16-25 | the slots are strictly increasing as strings |
| TimeGrid.CheckOccupancy | frontend/src/components/TimeGrid.jsx:32-48 | with no space selected no slot is full |
| TimeGrid.Covers | frontend/src/components/TimeGrid.jsx:38-42 | a row fills a slot only in its own space; it fills its start slot when it ends later, and never its end slot |
| TimeGrid.CoversMinute | frontend/src/components/TimeGrid.jsx:38-42 | on a formatted slot the text test is half-open containment in minutes: a row counts from its start up to, but not at, its end |
| TimeGrid.OccupancyCount | frontend/src/components/TimeGrid.jsx:36-43 | the number of rows the filter keeps equals an independent minute count |
| TimeGrid.OccupancyByMinutes | frontend/src/components/TimeGrid.jsx:32-48 | a slot is full iff the minute count reaches the capacity |
| TimeGrid.CapacityMonotone | frontend/src/components/TimeGrid.jsx:47 | more capacity never fills a free slot |
| TimeGrid.BookingMonotone | frontend/src/components/TimeGrid.jsx:36-47 | another booking never frees a full slot |
| TimeGrid.IsSelected | frontend/src/components/TimeGrid.jsx:54-60 | nothing is highlighted without a start; the start and end slots are; so is every slot strictly between them |
| TimeGrid.SelectedMinutes | frontend/src/components/TimeGrid.jsx:54-60 | on formatted times, highlighted iff the start, the end, or strictly between; with the end not before the start, iff in the closed range |
| TimeGrid.SelectedWithoutEnd | frontend/src/components/TimeGrid.jsx:55-58 | before an end is picked only the start slot is highlighted |

## Left out

- `checkSpaceAvailability`: not defined in `backend/utils/validators.js`, so it is a parameter (`Availability`) and nothing is proved about capacity itself.
- Time strings: handlers take minutes. A malformed `HH:MM` text (an `Invalid Date` in `validarHoras`) is not modelled.
- JavaScript `Date` normalisation: `ParseDate` rejects a text whose month or day is out of range, such as `2025-02-30`. The source reads such texts with `new Date` in three places, and each rolls the day over to a later one instead of failing. `new Date(y, m - 1, d, 12, 0, 0)` does so in `createSeries` (backend/utils/appointmentHelpers.js:15) and in the PUT extension (backend/index.js:169). `new Date(date + "T00:00:00")` does so for the POST's second date (backend/index.js:116), so the source creates the series from 2 March. A text with no digits gives `NaN-NaN-NaN` in the first two. In the model all of these fail with `InvalidDate`; in the POST this happens after the linked first row, before any row of the run.
- Text.ParseNat: only a non-empty run of digits is read. JavaScript's `Number` also reads an empty piece as 0 and accepts surrounding spaces, a sign, a fraction or an exponent; `new Date` then rolls such a date over or makes it invalid. The model rejects these texts with `InvalidDate`.
- `parseInt`: `NaN` is read as 0 for `weeks`, which gives the same branch, and as `None` for an id. The Prisma error that a `NaN` id causes in PUT is reported as `InvalidId`.
- HTTP status codes, response bodies, messages and `console` logging: only the kind of failure is kept.
- Concurrency: requests are modelled one at a time. Two interleaved requests can both pass an availability check, and that is not modelled.
- The GET routes other than `seriesCount`, the notes routes, the seed script and the React views other than `TimeGrid`: outside the booking core.
- The POST body's extra fields (`...rest`) and the `space` relation are not modelled.
- Handlers.PutSeries: its own contract states only that the next id never decreases. Its behaviour is stated by PutSeriesStays, PutSeriesContinues and the lemmas after them.
- Handlers.Continue: its own contract states the next id and the stopped case only. What a run adds is stated by ContinueKeeps, ContinueFills and ContinueDates.
- Handlers.Latest: when several members share the greatest date, the model picks the earliest such row. The database leaves that choice open.
- The branch in which an extended series has no latest member cannot be reached from `Put`, because the edited row is itself a member. The model reports `NotFound` there.
- Years 0 to 99: `new Date(y, m - 1, d, 12, 0, 0)` (backend/utils/appointmentHelpers.js:15, backend/index.js:169) reads them as 1900 to 1999. The model rejects year 0 and keeps years 1 to 99 as written.
- Years past 275760: the source's `Date` is then an invalid date and the text written is `NaN-NaN-NaN`. The model's years are unbounded.
- Calendar.FormatDateOrder: the date-text order agrees with calendar order only for years of equal digit count, and the lemma is stated for those only.
- Handlers.Post: every POST body field is assumed present (Handlers.NewBooking). In the source a body without `spaceId` gives `rest.spaceId` as `undefined` to the availability rule and then creates the row with `parseInt(undefined)`, which is `NaN`; Prisma rejects that, the handler answers 400 (backend/index.js:98-105, 126-129), and no row is created. The model always has a `spaceId`, so once both checks pass it creates the first row.
- Every PUT body field is assumed present (Handlers.Change, Restyle, Revise). In the source a missing field is `undefined`, and Prisma leaves that column unchanged; a missing `spaceId` becomes `parseInt(undefined)`, which is `NaN`, and Prisma rejects it. The model always writes every column.

## Findings

| source | as written | input that shows it | evidently intended | confidence | as-written member | corrected member |
|---|---|---|---|---|---|---|
| backend/index.js:116-118 | the second date of a new series is local midnight of `date` plus seven days, formatted with `toISOString()`, which reads the instant in UTC | on a server at UTC+1 (Madrid in winter), date `2025-03-10`: local midnight of `2025-03-17` is `2025-03-16T23:00Z`, so the series continues on `2025-03-16`, six days later | seven days later, `2025-03-17`, as `createSeries` and the PUT handler compute it from local noon | high; not executed | Handlers.IsoNextWeekEastOfUtc | Series.NextWeekOrdinal |

The POST model uses the corrected date, `NextWeek`, which the PUT handler's
extension also uses.
