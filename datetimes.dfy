/**
 * Python's naive `datetime`: a date and a clock time to the microsecond, the
 * comparison Python applies to two naive values, and the addition of a
 * `timedelta` of whole days.
 */
module DateTimes {
  import opened Wrappers
  import opened Calendar

  const MicrosPerSecond := 1_000_000
  const MicrosPerDay := 86_400_000_000

  /** The largest magnitude of the `days` field of a Python `timedelta`. */
  const MaxDeltaDays := 999_999_999

  datatype DateTime = DateTime(date: Date, hour: int, minute: int, second: int, microsecond: int)

  predicate Valid(t: DateTime) {
    && ValidDate(t.date)
    && 0 <= t.hour < 24
    && 0 <= t.minute < 60
    && 0 <= t.second < 60
    && 0 <= t.microsecond < MicrosPerSecond
  }

  /** Microseconds since midnight. */
  function ClockMicros(t: DateTime): int {
    ((t.hour * 60 + t.minute) * 60 + t.second) * MicrosPerSecond + t.microsecond
  }

  /**
   * The point on the naive timeline that `t` names, in microseconds since
   * 0001-01-01 00:00:00; every Python `datetime` lands in the range below.
   */
  function Instant(t: DateTime): (r: int)
    requires Valid(t)
    ensures 0 <= r < MaxOrdinal * MicrosPerDay
  {
    OrdinalRange(t.date);
    (Ordinal(t.date) - 1) * MicrosPerDay + ClockMicros(t)
  }

  /**
   * `a < b` for two naive datetimes: Python compares the tuples
   * (year, month, day, hour, minute, second, microsecond).
   */
  predicate Before(a: DateTime, b: DateTime) {
    || DateBefore(a.date, b.date)
    || (a.date == b.date && a.hour < b.hour)
    || (a.date == b.date && a.hour == b.hour && a.minute < b.minute)
    || (a.date == b.date && a.hour == b.hour && a.minute == b.minute && a.second < b.second)
    || (a.date == b.date && a.hour == b.hour && a.minute == b.minute && a.second == b.second
        && a.microsecond < b.microsecond)
  }

  /** Python's field-by-field comparison is the order of the instants, and distinct datetimes are distinct instants. */
  lemma BeforeIsInstantOrder(a: DateTime, b: DateTime)
    requires Valid(a) && Valid(b)
    ensures Before(a, b) <==> Instant(a) < Instant(b)
    ensures a == b <==> Instant(a) == Instant(b)
  {
    OrdinalOrder(a.date, b.date);
  }

  /** Whether `timedelta(days=n)` can be built at all (otherwise Python raises OverflowError). */
  predicate DeltaDaysInRange(n: int) {
    -MaxDeltaDays <= n <= MaxDeltaDays
  }

  /**
   * `t + timedelta(days=n)`. Python moves the ordinal of the date by `n`, keeps
   * the clock time, and raises OverflowError ("date value out of range", here
   * None) when the new ordinal is not that of a date in years 1 to 9999.
   */
  function AddDays(t: DateTime, n: int): (r: Option<DateTime>)
    requires Valid(t)
    ensures r.Some? <==> 1 <= Ordinal(t.date) + n <= MaxOrdinal
    ensures r.Some? ==> Valid(r.value) && Instant(r.value) == Instant(t) + n * MicrosPerDay
    ensures r.Some? ==> ClockMicros(r.value) == ClockMicros(t) && Ordinal(r.value.date) == Ordinal(t.date) + n
  {
    var ordinal := Ordinal(t.date) + n;
    if 1 <= ordinal <= MaxOrdinal then Some(t.(date := FromOrdinal(ordinal))) else None
  }
}
