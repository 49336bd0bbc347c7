/** Calendar dates in the proleptic Gregorian calendar and the `YYYY-MM-DD`
    text form the store keeps them in. Weekly series advance a date by
    calendar-day addition; the day count from 0001-01-01 (`Ordinal`) is the
    independent reference that addition is checked against. */
module Calendar {
  import opened Wrappers
  import opened Text
  import Arith

  datatype Date = Date(year: int, month: int, day: int)

  predicate IsLeapYear(y: int) {
    y % 4 == 0 && (y % 100 != 0 || y % 400 == 0)
  }

  function DaysInMonth(y: int, m: int): (n: int)
    requires 1 <= m <= 12
    ensures 28 <= n <= 31
  {
    if m == 2 then (if IsLeapYear(y) then 29 else 28)
    else if m == 4 || m == 6 || m == 9 || m == 11 then 30
    else 31
  }

  function DaysInYear(y: int): int {
    if IsLeapYear(y) then 366 else 365
  }

  /** A real calendar day of year 1 or later. */
  predicate Valid(d: Date) {
    d.year >= 1 && 1 <= d.month <= 12 && 1 <= d.day <= DaysInMonth(d.year, d.month)
  }

  /** Strictly earlier in the calendar: by year, then month, then day. */
  predicate Before(a: Date, b: Date) {
    a.year < b.year
    || (a.year == b.year && a.month < b.month)
    || (a.year == b.year && a.month == b.month && a.day < b.day)
  }

  // ---------------------------------------------------------------------
  // Day addition
  // ---------------------------------------------------------------------

  const DaysPerWeek: nat := 7

  function NextDay(d: Date): (r: Date)
    requires Valid(d)
    ensures Valid(r) && Before(d, r)
  {
    if d.day < DaysInMonth(d.year, d.month) then Date(d.year, d.month, d.day + 1)
    else if d.month < 12 then Date(d.year, d.month + 1, 1)
    else Date(d.year + 1, 1, 1)
  }

  /** `d` advanced by `n` calendar days, rolling over month and year ends. */
  function AddDays(d: Date, n: nat): (r: Date)
    requires Valid(d)
    ensures Valid(r)
    ensures n > 0 ==> Before(d, r)
    decreases n
  {
    if n == 0 then d else AddDays(NextDay(d), n - 1)
  }

  // ---------------------------------------------------------------------
  // Day numbers
  // ---------------------------------------------------------------------

  /** Days in the years 1 .. y-1, by the Gregorian leap rule. */
  function DaysBeforeYear(y: int): int
    requires y >= 1
  {
    var p := y - 1;
    365 * p + p / 4 - p / 100 + p / 400
  }

  /** Days in the months 1 .. m-1 of year `y`. */
  function DaysBeforeMonth(y: int, m: int): int
    requires 1 <= m <= 12
  {
    [0, 31, 59, 90, 120, 151, 181, 212, 243, 273, 304, 334][m - 1]
    + (if m > 2 && IsLeapYear(y) then 1 else 0)
  }

  /** Days elapsed since 0001-01-01. */
  function Ordinal(d: Date): int
    requires Valid(d)
  {
    DaysBeforeYear(d.year) + DaysBeforeMonth(d.year, d.month) + d.day - 1
  }

  /** The month table agrees with the month lengths. */
  lemma DaysBeforeNextMonth(y: int, m: int)
    requires 1 <= m < 12
    ensures DaysBeforeMonth(y, m + 1) == DaysBeforeMonth(y, m) + DaysInMonth(y, m)
  {
  }

  lemma DaysBeforeDecember(y: int)
    ensures DaysBeforeMonth(y, 12) + 31 == DaysInYear(y)
  {
  }

  lemma DaysBeforeNextYear(y: int)
    requires y >= 1
    ensures DaysBeforeYear(y + 1) == DaysBeforeYear(y) + DaysInYear(y)
  {
    var p := y - 1;
    Arith.DivStep(p, 4);
    Arith.DivStep(p, 100);
    Arith.DivStep(p, 400);
  }

  /** The calendar successor is exactly one day later. */
  lemma NextDayOrdinal(d: Date)
    requires Valid(d)
    ensures Ordinal(NextDay(d)) == Ordinal(d) + 1
  {
    if d.day == DaysInMonth(d.year, d.month) && d.month == 12 {
      DaysBeforeDecember(d.year);
      DaysBeforeNextYear(d.year);
    }
  }

  /** Calendar addition of `n` days moves the day number by exactly `n`,
      across month ends, year ends and leap days alike. */
  lemma {:induction false} AddDaysOrdinal(d: Date, n: nat)
    requires Valid(d)
    ensures Ordinal(AddDays(d, n)) == Ordinal(d) + n
    decreases n
  {
    if n > 0 {
      NextDayOrdinal(d);
      AddDaysOrdinal(NextDay(d), n - 1);
    }
  }

  /** Adding `a` days and then `b` days is adding `a + b` days. */
  lemma {:induction false} AddDaysCompose(d: Date, a: nat, b: nat)
    requires Valid(d)
    ensures AddDays(AddDays(d, a), b) == AddDays(d, a + b)
    decreases a
  {
    if a > 0 {
      AddDaysCompose(NextDay(d), a - 1, b);
    }
  }

  lemma DaysBeforeMonthMonotone(y: int, m: int, m': int)
    requires 1 <= m < m' <= 12
    ensures DaysBeforeMonth(y, m) + DaysInMonth(y, m) <= DaysBeforeMonth(y, m')
  {
  }

  lemma DaysInYearBound(d: Date)
    requires Valid(d)
    ensures DaysBeforeMonth(d.year, d.month) + d.day <= DaysInYear(d.year)
  {
  }

  lemma {:induction false} DaysBeforeYearMonotone(y: int, y': int)
    requires 1 <= y < y'
    ensures DaysBeforeYear(y) + DaysInYear(y) <= DaysBeforeYear(y')
    decreases y' - y
  {
    DaysBeforeNextYear(y);
    if y' > y + 1 {
      DaysBeforeYearMonotone(y + 1, y');
      DaysBeforeNextYear(y + 1);
    }
  }

  /** An earlier date has a smaller day number. */
  lemma BeforeOrdinal(x: Date, z: Date)
    requires Valid(x) && Valid(z) && Before(x, z)
    ensures Ordinal(x) < Ordinal(z)
  {
    if x.year < z.year {
      DaysInYearBound(x);
      DaysBeforeYearMonotone(x.year, z.year);
    } else if x.month < z.month {
      DaysBeforeMonthMonotone(x.year, x.month, z.month);
    }
  }

  /** The day number and the calendar agree on which of two dates is
      earlier; in particular different dates have different day numbers. */
  lemma OrdinalOrder(a: Date, b: Date)
    requires Valid(a) && Valid(b)
    ensures Before(a, b) <==> Ordinal(a) < Ordinal(b)
    ensures a == b <==> Ordinal(a) == Ordinal(b)
  {
    if Before(a, b) {
      BeforeOrdinal(a, b);
    } else if Before(b, a) {
      BeforeOrdinal(b, a);
    } else {
      assert a == b;
    }
  }

  /** `setDate(getDate() + 7)`: one week later, rolling over into the next
      month or year when the month runs out. */
  function AddWeek(d: Date): (r: Date)
    requires Valid(d)
    ensures Valid(r) && Before(d, r)
  {
    var n := DaysInMonth(d.year, d.month);
    if d.day + DaysPerWeek <= n then Date(d.year, d.month, d.day + DaysPerWeek)
    else if d.month < 12 then Date(d.year, d.month + 1, d.day + DaysPerWeek - n)
    else Date(d.year + 1, 1, d.day + DaysPerWeek - n)
  }

  /** One week later is seven days later by day count. */
  lemma AddWeekOrdinal(d: Date)
    requires Valid(d)
    ensures Ordinal(AddWeek(d)) == Ordinal(d) + DaysPerWeek
  {
    if d.day + DaysPerWeek > DaysInMonth(d.year, d.month) {
      if d.month < 12 {
        DaysBeforeNextMonth(d.year, d.month);
      } else {
        DaysBeforeDecember(d.year);
        DaysBeforeNextYear(d.year);
      }
    }
  }

  /** The one-step week agrees with seven single-day steps. */
  lemma AddWeekIsSevenDays(d: Date)
    requires Valid(d)
    ensures AddWeek(d) == AddDays(d, DaysPerWeek)
  {
    AddWeekOrdinal(d);
    AddDaysOrdinal(d, DaysPerWeek);
    OrdinalOrder(AddWeek(d), AddDays(d, DaysPerWeek));
  }

  /** The day before `d`, for any day after 0001-01-01. */
  function PrevDay(d: Date): (r: Date)
    requires Valid(d) && d != Date(1, 1, 1)
    ensures Valid(r) && Before(r, d)
  {
    if d.day > 1 then Date(d.year, d.month, d.day - 1)
    else if d.month > 1 then Date(d.year, d.month - 1, DaysInMonth(d.year, d.month - 1))
    else Date(d.year - 1, 12, 31)
  }

  /** The day before is exactly one day earlier. */
  lemma PrevDayOrdinal(d: Date)
    requires Valid(d) && d != Date(1, 1, 1)
    ensures Ordinal(PrevDay(d)) == Ordinal(d) - 1
  {
    if d.day == 1 {
      if d.month > 1 {
        DaysBeforeNextMonth(d.year, d.month - 1);
      } else {
        DaysBeforeDecember(d.year - 1);
        DaysBeforeNextYear(d.year - 1);
      }
    }
  }

  // ---------------------------------------------------------------------
  // Text form
  // ---------------------------------------------------------------------

  /** `${y}-${mm}-${dd}`: the year as written by `getFullYear()`, month and
      day padded to two digits. */
  function FormatDate(d: Date): (s: string)
    requires Valid(d)
    ensures |s| == |Decimal(d.year)| + 6 && s[|s| - 6] == '-' && s[|s| - 3] == '-'
  {
    Decimal(d.year) + "-" + Pad2(d.month) + "-" + Pad2(d.day)
  }

  /** `s.split('-').map(Number)` read as a date: the first three pieces must
      be digit runs naming a real calendar day. */
  function ParseDate(s: string): (r: Option<Date>)
    ensures r.Some? ==> Valid(r.value)
  {
    var parts := Split(s, '-');
    if |parts| < 3 then None
    else
      match (ParseNat(parts[0]), ParseNat(parts[1]), ParseNat(parts[2]))
      case (Some(y), Some(m), Some(d)) =>
        if Valid(Date(y, m, d)) then Some(Date(y, m, d)) else None
      case _ => None
  }

  lemma NoDashInDigits(s: string)
    requires AllDigits(s)
    ensures '-' !in s
  {
  }

  /** Reading a formatted date gives back the same year, month and day. */
  lemma ParseFormatDate(d: Date)
    requires Valid(d)
    ensures ParseDate(FormatDate(d)) == Some(d)
  {
    var ys, ms, ds := Decimal(d.year), Pad2(d.month), Pad2(d.day);
    NoDashInDigits(ys);
    NoDashInDigits(ms);
    NoDashInDigits(ds);
    SplitNoSeparator(ds, '-');
    SplitPrefix(ms, '-', ds);
    SplitPrefix(ys, '-', ms + "-" + ds);
    assert FormatDate(d) == ys + ['-'] + (ms + ['-'] + ds);
    DecimalRoundTrip(d.year);
    Pad2RoundTrip(d.month);
    Pad2RoundTrip(d.day);
  }

  lemma FormatDateInjective(a: Date, b: Date)
    requires Valid(a) && Valid(b) && FormatDate(a) == FormatDate(b)
    ensures a == b
  {
    ParseFormatDate(a);
    ParseFormatDate(b);
  }

  /** When the years are written with the same number of digits (every year
      from 1000 to 9999), comparing the texts as strings agrees with the
      calendar: this is what lets the store order dates by their text. */
  lemma FormatDateOrder(a: Date, b: Date)
    requires Valid(a) && Valid(b)
    requires |Decimal(a.year)| == |Decimal(b.year)|
    ensures LexLess(FormatDate(a), FormatDate(b)) <==> Before(a, b)
  {
    var ya, yb := Decimal(a.year), Decimal(b.year);
    var ra := "-" + Pad2(a.month) + "-" + Pad2(a.day);
    var rb := "-" + Pad2(b.month) + "-" + Pad2(b.day);
    assert FormatDate(a) == ya + ra;
    assert FormatDate(b) == yb + rb;
    LexLessConcat(ya, ra, yb, rb);
    DecimalOrder(a.year, b.year);
    if ya == yb {
      DecimalInjective(a.year, b.year);
    }
    var ma, mb := "-" + Pad2(a.month), "-" + Pad2(b.month);
    assert ra == ma + ("-" + Pad2(a.day));
    assert rb == mb + ("-" + Pad2(b.day));
    LexLessConcat(ma, "-" + Pad2(a.day), mb, "-" + Pad2(b.day));
    LexLessConcat("-", Pad2(a.month), "-", Pad2(b.month));
    LexLessConcat("-", Pad2(a.day), "-", Pad2(b.day));
    LexLessIrreflexive("-");
    Pad2Order(a.month, b.month);
    Pad2Order(a.day, b.day);
    if ma == mb {
      assert Pad2(a.month) == ma[1..] && Pad2(b.month) == mb[1..];
    }
  }
}
