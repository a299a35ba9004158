/**
 * The proleptic Gregorian calendar as Python's `datetime` module computes it:
 * leap years, month lengths, and the day ordinal (`date.toordinal()`, day 1 is
 * 0001-01-01) together with its inverse (`date.fromordinal`).
 */
module Calendar {

  const MinYear := 1
  const MaxYear := 9999

  /** The ordinal of 9999-12-31, the last day a Python `date` can hold. */
  const MaxOrdinal := 3652059

  datatype Date = Date(year: int, month: int, day: int)

  predicate IsLeapYear(year: int) {
    year % 4 == 0 && (year % 100 != 0 || year % 400 == 0)
  }

  function DaysInYear(year: int): int {
    if IsLeapYear(year) then 366 else 365
  }

  function DaysInMonth(year: int, month: int): int
    requires 1 <= month <= 12
  {
    if month == 2 then (if IsLeapYear(year) then 29 else 28)
    else if month == 4 || month == 6 || month == 9 || month == 11 then 30
    else 31
  }

  /** Days in the months of `year` before `month` (Python's `_days_before_month`). */
  function DaysBeforeMonth(year: int, month: int): int
    requires 1 <= month <= 12
  {
    [0, 31, 59, 90, 120, 151, 181, 212, 243, 273, 304, 334][month - 1]
      + (if month > 2 && IsLeapYear(year) then 1 else 0)
  }

  /** Days in the years before `year` (Python's `_days_before_year`). */
  function DaysBeforeYear(year: int): int
    requires year >= 1
  {
    var y := year - 1;
    y * 365 + y / 4 - y / 100 + y / 400
  }

  predicate ValidDate(d: Date) {
    && MinYear <= d.year <= MaxYear
    && 1 <= d.month <= 12
    && 1 <= d.day <= DaysInMonth(d.year, d.month)
  }

  /**
   * Python's `_ymd2ord`: the number of the day, counting 0001-01-01 as day 1.
   * A valid date lies in its own year's block of ordinals.
   */
  function Ordinal(d: Date): (r: int)
    requires ValidDate(d)
    ensures DaysBeforeYear(d.year) < r <= DaysBeforeYear(d.year) + DaysInYear(d.year)
  {
    MonthsBound(d.year, d.month);
    DaysBeforeYear(d.year) + DaysBeforeMonth(d.year, d.month) + d.day
  }

  /** The calendar day after `d` (same year and month where possible). */
  function NextDay(d: Date): Date
    requires ValidDate(d)
  {
    if d.day < DaysInMonth(d.year, d.month) then Date(d.year, d.month, d.day + 1)
    else if d.month < 12 then Date(d.year, d.month + 1, 1)
    else Date(d.year + 1, 1, 1)
  }

  /** Lexicographic order on (year, month, day), the order Python compares dates in. */
  predicate DateBefore(a: Date, b: Date) {
    a.year < b.year
    || (a.year == b.year && a.month < b.month)
    || (a.year == b.year && a.month == b.month && a.day < b.day)
  }

  /** Going from year - 1 to year, each of the three quotients grows by one exactly at a multiple. */
  lemma QuotientStep4(year: int)
    ensures year / 4 == (year - 1) / 4 + (if year % 4 == 0 then 1 else 0)
  {
  }

  lemma QuotientStep100(year: int)
    ensures year / 100 == (year - 1) / 100 + (if year % 100 == 0 then 1 else 0)
  {
  }

  lemma QuotientStep400(year: int)
    ensures year / 400 == (year - 1) / 400 + (if year % 400 == 0 then 1 else 0)
    ensures year % 400 == 0 ==> year % 100 == 0 && year % 4 == 0
    ensures year % 100 == 0 ==> year % 4 == 0
  {
  }

  /** A year contributes exactly its own length to the day count. */
  lemma DaysBeforeYearStep(year: int)
    requires year >= 1
    ensures DaysBeforeYear(year + 1) == DaysBeforeYear(year) + DaysInYear(year)
  {
    QuotientStep4(year);
    QuotientStep100(year);
    QuotientStep400(year);
  }

  lemma {:induction false} DaysBeforeYearMonotonic(a: int, b: int)
    requires 1 <= a <= b
    ensures DaysBeforeYear(a) + 365 * (b - a) <= DaysBeforeYear(b)
    decreases b - a
  {
    if a < b {
      DaysBeforeYearMonotonic(a, b - 1);
      DaysBeforeYearStep(b - 1);
    }
  }

  lemma DaysBeforeMonthStep(year: int, month: int)
    requires 1 <= month <= 12
    ensures month < 12 ==> DaysBeforeMonth(year, month + 1) == DaysBeforeMonth(year, month) + DaysInMonth(year, month)
    ensures month == 12 ==> DaysBeforeMonth(year, month) + DaysInMonth(year, month) == DaysInYear(year)
  {
  }

  lemma {:induction false} MonthsBound(year: int, month: int)
    requires 1 <= month <= 12
    ensures DaysBeforeMonth(year, month) + DaysInMonth(year, month) <= DaysInYear(year)
    decreases 12 - month
  {
    DaysBeforeMonthStep(year, month);
    if month < 12 {
      MonthsBound(year, month + 1);
      DaysBeforeMonthStep(year, month + 1);
    }
  }

  /** Every valid date has an ordinal that a Python `date` accepts. */
  lemma OrdinalRange(d: Date)
    requires ValidDate(d)
    ensures 1 <= Ordinal(d) <= MaxOrdinal
  {
    DaysBeforeYearMonotonic(d.year + 1, MaxYear + 1);
    DaysBeforeYearStep(d.year);
    assert DaysBeforeYear(MaxYear + 1) == MaxOrdinal;
  }

  /** Counting days has no gaps: the next calendar day has the next ordinal. */
  lemma NextDayOrdinal(d: Date)
    requires ValidDate(d) && d != Date(MaxYear, 12, 31)
    ensures ValidDate(NextDay(d)) && Ordinal(NextDay(d)) == Ordinal(d) + 1
  {
    DaysBeforeMonthStep(d.year, d.month);
    if d.day == DaysInMonth(d.year, d.month) && d.month == 12 {
      DaysBeforeYearStep(d.year);
    }
  }

  /** Counting days preserves the calendar order, so no two valid dates share an ordinal. */
  lemma OrdinalOrder(a: Date, b: Date)
    requires ValidDate(a) && ValidDate(b)
    ensures DateBefore(a, b) <==> Ordinal(a) < Ordinal(b)
    ensures Ordinal(a) == Ordinal(b) <==> a == b
  {
    if a.year < b.year {
      OrdinalYearOrder(a, b);
    } else if b.year < a.year {
      OrdinalYearOrder(b, a);
    } else if a.month < b.month {
      OrdinalMonthOrder(a.year, a.month, b.month);
    } else if b.month < a.month {
      OrdinalMonthOrder(a.year, b.month, a.month);
    }
  }

  lemma OrdinalYearOrder(a: Date, b: Date)
    requires ValidDate(a) && ValidDate(b) && a.year < b.year
    ensures Ordinal(a) < Ordinal(b)
  {
    DaysBeforeYearStep(a.year);
    DaysBeforeYearMonotonic(a.year + 1, b.year);
  }

  lemma {:induction false} OrdinalMonthOrder(year: int, m1: int, m2: int)
    requires 1 <= m1 < m2 <= 12
    ensures DaysBeforeMonth(year, m1) + DaysInMonth(year, m1) <= DaysBeforeMonth(year, m2)
    decreases m2 - m1
  {
    DaysBeforeMonthStep(year, m1);
    if m1 + 1 < m2 {
      OrdinalMonthOrder(year, m1 + 1, m2);
      DaysBeforeMonthStep(year, m1 + 1);
    }
  }

  /**
   * The year holding the `n`-th day counted from the start of `year`, and the
   * day's position within it.
   */
  function YearAndDay(year: int, n: int): (r: (int, int))
    requires year >= 1 && n >= 1
    ensures r.0 >= year && 1 <= r.1 <= DaysInYear(r.0)
    ensures DaysBeforeYear(r.0) + r.1 == DaysBeforeYear(year) + n
    decreases n
  {
    DaysBeforeYearStep(year);
    if n <= DaysInYear(year) then (year, n)
    else YearAndDay(year + 1, n - DaysInYear(year))
  }

  /** The month holding the `n`-th day counted from the start of `month`, and the day of that month. */
  function MonthAndDay(year: int, month: int, n: int): (r: (int, int))
    requires 1 <= month <= 12 && 1 <= n <= DaysInYear(year) - DaysBeforeMonth(year, month)
    ensures month <= r.0 <= 12 && 1 <= r.1 <= DaysInMonth(year, r.0)
    ensures DaysBeforeMonth(year, r.0) + r.1 == DaysBeforeMonth(year, month) + n
    decreases 12 - month
  {
    DaysBeforeMonthStep(year, month);
    if n <= DaysInMonth(year, month) then (month, n)
    else MonthAndDay(year, month + 1, n - DaysInMonth(year, month))
  }

  /** Python's `date.fromordinal(n)`: the date whose ordinal is `n`. */
  function FromOrdinal(n: int): (d: Date)
    requires 1 <= n <= MaxOrdinal
    ensures ValidDate(d) && Ordinal(d) == n
  {
    var (year, dayOfYear) := YearAndDay(MinYear, n);
    if year > MaxYear then
      DaysBeforeYearMonotonic(MaxYear + 1, year);
      assert false;
      Date(MaxYear, 12, 31)
    else
      var (month, day) := MonthAndDay(year, 1, dayOfYear);
      Date(year, month, day)
  }

  /** `fromordinal` undoes `toordinal`. */
  lemma FromOrdinalOfOrdinal(d: Date)
    requires ValidDate(d)
    ensures 1 <= Ordinal(d) <= MaxOrdinal && FromOrdinal(Ordinal(d)) == d
  {
    OrdinalRange(d);
    OrdinalOrder(d, FromOrdinal(Ordinal(d)));
  }
}
