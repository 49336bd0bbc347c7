/** The appointment table as the request handlers see it: rows in insertion
    order plus the next value of the auto-increment id, and the handful of
    table operations the handlers use (create, find by id, update where,
    delete where, count where). */
module Records {
  import opened Wrappers
  import opened Clock
  import opened TimeRules

  datatype Appointment = Appointment(
    id: int,
    title: string,
    clientName: string,
    date: string,          // `YYYY-MM-DD`
    startTime: Minute,
    endTime: Minute,
    spaceId: int,
    isRecurring: bool,
    parentId: Option<int>)  // series id; `null` for a standalone booking

  /** The column values of a row about to be created. */
  datatype Draft = Draft(
    title: string,
    clientName: string,
    date: string,
    startTime: Minute,
    endTime: Minute,
    spaceId: int,
    isRecurring: bool,
    parentId: Option<int>)

  datatype Store = Store(appts: seq<Appointment>, nextId: int)

  /** What an availability check is asked: may this space take one more
      booking on this date in this range, not counting `exclude`? */
  datatype Query = Query(spaceId: int, date: string, startTime: Minute, endTime: Minute, exclude: Option<int>)

  /** The space-capacity rule, whose definition is not part of this model:
      any verdict computed from the current rows and the query. */
  type Availability = (seq<Appointment>, Query) -> bool

  /** Everything a request can fail with. */
  datatype Failure =
    | InvalidRange(error: RangeError) // a time rule was broken
    | CapacityConflict(date: string)  // the space is full on that date
    | SpaceTaken                      // a single edit collides with another booking
    | InvalidDate(text: string)       // a date text that is not a calendar day
    | InvalidId                       // the id in the path is not an integer
    | NotFound                        // no appointment with that id

  /** JavaScript truthiness of a `parentId` column: `null` and 0 are falsy. */
  predicate Linked(p: Option<int>) {
    p.Some? && p.value != 0
  }

  function RowOf(id: int, d: Draft): Appointment {
    Appointment(id, d.title, d.clientName, d.date, d.startTime, d.endTime, d.spaceId, d.isRecurring, d.parentId)
  }

  /** `prisma.appointment.create`: the row gets the next id. */
  function Create(st: Store, d: Draft): (r: (Store, Appointment))
    ensures r.1.id == st.nextId && r.0.nextId == st.nextId + 1
    ensures r.0.appts == st.appts + [r.1]
  {
    var a := RowOf(st.nextId, d);
    (Store(st.appts + [a], st.nextId + 1), a)
  }

  /** `findUnique({ where: { id } })`. */
  function Find(appts: seq<Appointment>, id: int): (r: Option<Appointment>)
    ensures r.Some? ==> r.value in appts && r.value.id == id
    ensures r.None? <==> forall a :: a in appts ==> a.id != id
  {
    if |appts| == 0 then None
    else if appts[0].id == id then Some(appts[0])
    else Find(appts[1..], id)
  }

  /** The rows `keep` accepts, in their original order (`findMany`,
      and the complement of `deleteMany`). */
  function Keep(appts: seq<Appointment>, keep: Appointment -> bool): (r: seq<Appointment>)
    ensures |r| <= |appts|
    ensures forall a :: a in r <==> a in appts && keep(a)
  {
    if |appts| == 0 then []
    else (if keep(appts[0]) then [appts[0]] else []) + Keep(appts[1..], keep)
  }

  /** `updateMany`: every row `sel` accepts is rewritten by `edit`, the
      others are untouched, and the rows keep their places. */
  function MapWhere(appts: seq<Appointment>, sel: Appointment -> bool, edit: Appointment -> Appointment)
    : (r: seq<Appointment>)
    ensures |r| == |appts|
    ensures forall i :: 0 <= i < |appts| ==> r[i] == (if sel(appts[i]) then edit(appts[i]) else appts[i])
  {
    if |appts| == 0 then []
    else [if sel(appts[0]) then edit(appts[0]) else appts[0]] + MapWhere(appts[1..], sel, edit)
  }

  /** The `where` filters the handlers use. */
  function WithId(n: int): Appointment -> bool {
    (a: Appointment) => a.id == n
  }

  function WithoutId(n: int): Appointment -> bool {
    (a: Appointment) => a.id != n
  }

  function InSeries(p: int): Appointment -> bool {
    (a: Appointment) => a.parentId == Some(p)
  }

  function OutsideSeries(p: int): Appointment -> bool {
    (a: Appointment) => a.parentId != Some(p)
  }

  /** The rows of series `p` (`where: { parentId: p }`). */
  function Members(appts: seq<Appointment>, p: int): (r: seq<Appointment>)
    ensures forall a :: a in r <==> a in appts && a.parentId == Some(p)
  {
    Keep(appts, InSeries(p))
  }

  lemma {:induction false} KeepAppend(s: seq<Appointment>, t: seq<Appointment>, keep: Appointment -> bool)
    ensures Keep(s + t, keep) == Keep(s, keep) + Keep(t, keep)
    decreases |s|
  {
    if |s| > 0 {
      assert (s + t)[1..] == s[1..] + t;
      KeepAppend(s[1..], t, keep);
    } else {
      assert s + t == t;
    }
  }

  lemma {:induction false} KeepAll(s: seq<Appointment>, keep: Appointment -> bool)
    requires forall a :: a in s ==> keep(a)
    ensures Keep(s, keep) == s
    decreases |s|
  {
    if |s| > 0 {
      KeepAll(s[1..], keep);
    }
  }

  lemma {:induction false} KeepNone(s: seq<Appointment>, keep: Appointment -> bool)
    requires forall a :: a in s ==> !keep(a)
    ensures Keep(s, keep) == []
    decreases |s|
  {
    if |s| > 0 {
      KeepNone(s[1..], keep);
    }
  }

  /** Appending rows to the table grows series `p` by exactly those of the
      new rows that belong to it. */
  lemma MembersAppend(s: seq<Appointment>, t: seq<Appointment>, p: int)
    ensures Members(s + t, p) == Members(s, p) + Members(t, p)
  {
    KeepAppend(s, t, InSeries(p));
  }

  /** No row of a well-formed table belongs to the series its next id
      would start. */
  lemma NoSeriesAtNextId(st: Store)
    requires WellFormed(st)
    ensures forall a :: a in st.appts ==> a.parentId != Some(st.nextId)
  {
  }

  /** Rows appended after a table with no member of series `p`, all of them
      in `p`, are exactly that series. */
  lemma FreshSeriesMembers(base: seq<Appointment>, rows: seq<Appointment>, p: int)
    requires forall a :: a in base ==> a.parentId != Some(p)
    requires forall a :: a in rows ==> a.parentId == Some(p)
    ensures Members(base + rows, p) == rows
  {
    KeepNone(base, InSeries(p));
    KeepAll(rows, InSeries(p));
    MembersAppend(base, rows, p);
  }

  /** Rewriting rows without moving any of them between series keeps the
      size of every series. */
  lemma {:induction false} MapWhereKeepsSeries(s: seq<Appointment>, sel: Appointment -> bool, edit: Appointment -> Appointment, p: int)
    requires forall a :: a in s ==> edit(a).parentId == a.parentId
    ensures |Members(MapWhere(s, sel, edit), p)| == |Members(s, p)|
    decreases |s|
  {
    if |s| > 0 {
      var r := MapWhere(s, sel, edit);
      assert r == [r[0]] + MapWhere(s[1..], sel, edit);
      assert s == [s[0]] + s[1..];
      MapWhereKeepsSeries(s[1..], sel, edit, p);
      MembersAppend([r[0]], MapWhere(s[1..], sel, edit), p);
      MembersAppend([s[0]], s[1..], p);
    }
  }

  // ---------------------------------------------------------------------
  // Table invariant
  // ---------------------------------------------------------------------

  predicate UniqueIds(appts: seq<Appointment>) {
    forall i, j :: 0 <= i < j < |appts| ==> appts[i].id != appts[j].id
  }

  /** Ids are unique, positive and below the next id, and every series id
      was an id when it was written. */
  predicate WellFormed(st: Store) {
    && st.nextId >= 1
    && UniqueIds(st.appts)
    && (forall a :: a in st.appts ==> 1 <= a.id < st.nextId)
    && (forall a :: a in st.appts && a.parentId.Some? ==> 1 <= a.parentId.value < st.nextId)
  }

  lemma {:induction false} KeepUniqueIds(s: seq<Appointment>, keep: Appointment -> bool)
    requires UniqueIds(s)
    ensures UniqueIds(Keep(s, keep))
    decreases |s|
  {
    if |s| > 0 {
      KeepUniqueIds(s[1..], keep);
      var r := Keep(s[1..], keep);
      forall a | a in r ensures a.id != s[0].id {
        var j :| 0 <= j < |s[1..]| && s[1..][j] == a;
        assert s[j + 1] == a;
      }
    }
  }

  /** With unique ids, looking an id up finds the one row that has it. */
  lemma {:induction false} FindUnique(s: seq<Appointment>, i: int)
    requires UniqueIds(s) && 0 <= i < |s|
    ensures Find(s, s[i].id) == Some(s[i])
    decreases |s|
  {
    if i > 0 {
      assert s[0].id != s[i].id;
      assert s[1..][i - 1] == s[i];
      FindUnique(s[1..], i - 1);
    }
  }

  /** With unique ids, deleting by an id that exists removes exactly one
      row. */
  lemma {:induction false} KeepRemovesOne(s: seq<Appointment>, n: int)
    requires UniqueIds(s) && Find(s, n).Some?
    ensures |Keep(s, WithoutId(n))| == |s| - 1
    decreases |s|
  {
    assert s[0] in s;
    if s[0].id == n {
      forall a | a in s[1..] ensures WithoutId(n)(a) {
        var j :| 0 <= j < |s[1..]| && s[1..][j] == a;
        assert s[j + 1] == a;
      }
      KeepAll(s[1..], WithoutId(n));
    } else {
      KeepRemovesOne(s[1..], n);
    }
  }

  /** Deleting rows keeps the table well formed. */
  lemma KeepWellFormed(st: Store, keep: Appointment -> bool)
    requires WellFormed(st)
    ensures WellFormed(Store(Keep(st.appts, keep), st.nextId))
  {
    KeepUniqueIds(st.appts, keep);
  }

  /** Rewriting rows without touching ids, or series ids beyond valid ones,
      keeps the table well formed. */
  lemma MapWhereWellFormed(st: Store, sel: Appointment -> bool, edit: Appointment -> Appointment)
    requires WellFormed(st)
    requires forall a :: a in st.appts ==> edit(a).id == a.id
    requires forall a :: a in st.appts && edit(a).parentId.Some? ==>
               1 <= edit(a).parentId.value < st.nextId
    ensures WellFormed(Store(MapWhere(st.appts, sel, edit), st.nextId))
  {
    var r := MapWhere(st.appts, sel, edit);
    forall a | a in r
      ensures 1 <= a.id < st.nextId
      ensures a.parentId.Some? ==> 1 <= a.parentId.value < st.nextId
    {
      var i :| 0 <= i < |r| && r[i] == a;
      assert st.appts[i] in st.appts;
    }
    forall i, j | 0 <= i < j < |r| ensures r[i].id != r[j].id {
      assert st.appts[i] in st.appts && st.appts[j] in st.appts;
    }
  }

  /** Creating a row whose series id is a valid id keeps the table well
      formed. */
  lemma CreateWellFormed(st: Store, d: Draft)
    requires WellFormed(st)
    requires d.parentId.Some? ==> 1 <= d.parentId.value < st.nextId + 1
    ensures WellFormed(Create(st, d).0)
  {
    var r := Create(st, d).0;
    forall i, j | 0 <= i < j < |r.appts| ensures r.appts[i].id != r.appts[j].id {
      if j < |st.appts| {
        assert r.appts[i] == st.appts[i] && r.appts[j] == st.appts[j];
      } else {
        assert r.appts[i] in st.appts;
      }
    }
  }

  /** Appending rows with the next consecutive ids, each in a series that
      already has a valid id, keeps the table well formed. */
  lemma AppendFreshWellFormed(st: Store, rows: seq<Appointment>)
    requires WellFormed(st)
    requires forall k :: 0 <= k < |rows| ==> rows[k].id == st.nextId + k
    requires forall k :: 0 <= k < |rows| && rows[k].parentId.Some? ==>
               1 <= rows[k].parentId.value < st.nextId + |rows|
    ensures WellFormed(Store(st.appts + rows, st.nextId + |rows|))
  {
    var all := st.appts + rows;
    forall a | a in all
      ensures 1 <= a.id < st.nextId + |rows|
      ensures a.parentId.Some? ==> 1 <= a.parentId.value < st.nextId + |rows|
    {
      if a !in st.appts {
        var k :| 0 <= k < |rows| && rows[k] == a;
      }
    }
    forall i, j | 0 <= i < j < |all| ensures all[i].id != all[j].id {
      if j < |st.appts| {
        assert all[i] == st.appts[i] && all[j] == st.appts[j];
      } else if i < |st.appts| {
        assert all[i] in st.appts;
        assert all[j] == rows[j - |st.appts|];
      } else {
        assert all[i] == rows[i - |st.appts|] && all[j] == rows[j - |st.appts|];
      }
    }
  }
}
