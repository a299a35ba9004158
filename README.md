# Certificate expiry checker — Dafny model

This project models the decision logic of an AWS Lambda that checks a TLS
server's certificate. The Lambda connects to a fixed host, asks
`ssl.match_hostname` whether the certificate names that host, and then asks
`PeerCertificate.is_expiring(days=14)` whether the certificate's `notAfter`
time is within 14 days. Any `PeerCertificateException` raised along the way is
caught once and logged.

The model is pure and has five modules:

- `Wrappers` (wrappers.dfy) holds the `Option` type.
- `Calendar` (calendar.dfy) is the proleptic Gregorian calendar as Python's
  `datetime` computes it. It has leap years, month lengths, and the day ordinal
  `toordinal` together with its inverse `fromordinal`. The lemmas prove that
  the ordinal keeps calendar order, has no gaps and is undone by `fromordinal`.
- `DateTimes` (datetimes.dfy) is Python's naive `datetime`. It covers
  field-by-field comparison (proved to be the order of instants counted in
  microseconds) and `t + timedelta(days=n)` (proved to move the instant by
  exactly `n × 86400` seconds, or to raise OverflowError).
- `StrPTime` (strptime.dfy) is `datetime.strptime(text, '%b %d %H:%M:%S %Y %Z')`
  for a C-locale process whose local zone is UTC. The grammar it accepts is:
  - a month abbreviation `Jan`..`Dec` in any case;
  - a day of 1–2 digits, 1..31;
  - `H:M:S`, each field 1–2 digits, with hour ≤ 23, minute ≤ 59 and second ≤ 61;
  - a 4-digit year;
  - the zone `UTC` or `GMT` in any case, then the end of the text;
  - one or more whitespace characters between fields.

  The datetime stage then rejects year 0, second 60 or 61, and a day the month
  does not have. Its partner is the text OpenSSL writes for a certificate time
  (`Jun  1 12:00:00 2025 GMT`), and the two are proved to round-trip.
- `Checker` (checker.dfy) holds `is_expiring` and `lambda_handler`.

`is_expiring` ends in one of the `Expiry` outcomes:
- `NotExpiring` is its `return False`, the only value it ever returns.
- `Expiring` and `ParseError` are the two `PeerCertificateException`s it raises.
- `Uncaught` covers the exceptions it does not convert. These are
  AttributeError for an unset `self.certificate`, KeyError for a missing
  `notAfter`, and OverflowError when the threshold leaves years 1..9999 or
  `days` is beyond what a `timedelta` holds.

The model has no boolean "expiring" result. The code signals expiry only by
raising, and the model keeps that.

The wall clock `datetime.utcnow()` becomes the parameter `now` (a valid naive
datetime). The outcome of the network connection and the verdict of
`ssl.match_hostname` become the parameters of `LambdaHandler`.

## Model

| member | source | states |
|---|---|---|
| `Calendar.Ordinal` | checker/app.py:59 | `toordinal`, on which the subtraction of a `timedelta` works: the ordinal of a valid date lies in its own year's block, after every day of the earlier years and within the days its year has. |
| `Calendar.OrdinalOrder` | checker/app.py:59-61 | The day ordinal keeps calendar order: one date is before another exactly when its ordinal is smaller, and two valid dates have the same ordinal only if they are the same date. |
| `Calendar.NextDayOrdinal` | checker/app.py:59 | Day counting has no gaps: the calendar day after any date except 9999-12-31 is valid and has the next ordinal. |
| `Calendar.OrdinalRange` | checker/app.py:59 | Every date in years 1..9999 has an ordinal between 1 and 3652059. |
| `Calendar.FromOrdinal` | checker/app.py:59 | `date.fromordinal(n)` returns, for every n in 1..3652059, a valid date whose ordinal is n. |
| `Calendar.FromOrdinalOfOrdinal` | checker/app.py:59 | `fromordinal` undoes `toordinal` on every valid date. |
| `DateTimes.Instant` | checker/app.py:61 | Every valid naive datetime names an instant in microseconds in [0, 3652059 days). |
| `DateTimes.Before` | checker/app.py:61 | Python's `<` on naive datetimes, comparing (year, month, day, hour, minute, second, microsecond) field by field; `>=` is its negation. It has no contract of its own. `BeforeIsInstantOrder` proves what it means. |
| `DateTimes.BeforeIsInstantOrder` | checker/app.py:61 | Python's field-by-field datetime comparison is exactly the order of instants, and distinct datetimes are distinct instants. |
| `DateTimes.AddDays` | checker/app.py:59 | `t + timedelta(days=n)` succeeds exactly when the new ordinal is in 1..3652059. It then keeps the clock time and moves the instant by exactly n × 86400 seconds, with no calendar drift. |
| `StrPTime.Month` | checker/app.py:58 | `%b` accepts exactly a text whose first three characters, lower-cased, are one of `jan`..`dec`, and returns that name's number 1..12. |
| `StrPTime.SkipSpaces` | checker/app.py:58 | A whitespace run is consumed whole: it drops only whitespace, and what is left is empty or starts with a non-space. |
| `StrPTime.DigitRun` | checker/app.py:58 | A numeric field takes its whole run of digits. |
| `StrPTime.Scan` | checker/app.py:58 | The regular-expression stage of `strptime` returns only fields inside the pattern's ranges: day 1..31, hour ≤ 23, minute ≤ 59, second ≤ 61. |
| `StrPTime.Parse` | checker/app.py:58 | Whatever `strptime` returns is a valid naive datetime with microsecond 0. |
| `StrPTime.ParseNamesMonthAndZone` | checker/app.py:58 | An accepted text starts with the English abbreviation of the month it returns. It ends in the zone name `UTC` or `GMT` with whitespace before it, so the zone is a token of exactly those three letters. Any other zone is a ValueError. |
| `StrPTime.ScanText` | checker/app.py:58 | For every text of the OpenSSL shape with two-digit fields, the pattern reads back every field when each is inside the pattern's range, and refuses the text when any is outside it (a ValueError). |
| `StrPTime.ParseText` | checker/app.py:58 | For every text of the OpenSSL shape with two-digit fields, `strptime` returns exactly the datetime the fields name when `datetime()` accepts them, and raises ValueError otherwise. |
| `StrPTime.ParseFormat` | checker/app.py:58 | Parsing the OpenSSL text of a datetime returns that datetime: the parsed instant is the civil date and time written. |
| `StrPTime.ParseRejectsImpossibleTime` | checker/app.py:58 | Text of the right shape naming a time that is not a datetime is a ValueError. Examples are day 0 or 32, hour 24, minute 60, second 60 or 61, year 0, and a day the month does not have. |
| `StrPTime.ParseRejectsFebruary30` | checker/app.py:58 | `Feb 30 12:00:00 2025 GMT` is rejected. |
| `StrPTime.ParseRejectsHour24` | checker/app.py:58 | `Jun  1 24:00:00 2025 GMT` is rejected. |
| `Checker.ThresholdCheck` | checker/app.py:59-62 | Once notAfter has parsed, the only outcomes are `Expiring`, `NotExpiring` (the `return False`) and OverflowError. OverflowError happens exactly when notAfter minus `days` leaves years 1..9999. |
| `Checker.NotAfterText` | checker/app.py:58 | `self.certificate['notAfter']`, present only when the attribute and the key both exist. It has no contract of its own. `IsExpiring` states what follows when it is missing (AttributeError or KeyError escapes). |
| `Checker.IsExpiring` | checker/app.py:55-68 | The outcome is `ParseError` exactly when the notAfter text is present and does not parse. A parseable notAfter hands the decision to `ThresholdCheck`. An unset certificate or a missing `notAfter` key ends in an uncaught exception. |
| `Checker.ExpiringIff` | checker/app.py:59-62 | For an in-range threshold, the decision is `Expiring` iff `now ≥ notAfter − days·86400 s`, equality included. It is `NotExpiring` iff `now` is earlier. |
| `Checker.ExpiredIsExpiring` | checker/app.py:59-62 | A certificate already past notAfter is `Expiring` for every window `days ≥ 0` whose threshold is representable. |
| `Checker.ExpiringMonotoneInDays` | checker/app.py:59-61 | If the decision is `Expiring` for `days`, then for any wider window it is `Expiring`, or OverflowError when the threshold falls before year 1. |
| `Checker.ExpiringMonotoneInTime` | checker/app.py:61 | If the decision is `Expiring` at `now`, it is `Expiring` at every later or equal instant. |
| `Checker.ParseErrorIgnoresClock` | checker/app.py:58-66 | A `ParseError` does not depend on the clock or the window: no comparison is made. |
| `Checker.ExpiryReport` | checker/app.py:22-25 | The handler logs "not due to expire" exactly when `is_expiring` returned. An expiring certificate logs the expiry error and an unparseable notAfter logs the parse error, one record each. An uncaught exception escapes with nothing logged. |
| `Checker.LambdaHandler` | checker/app.py:10-25 | Every run logs the attempt first. At most one exception is handled and logged, and only as the last record. A run that lets an exception escape has logged no error. |
| `Checker.HostMismatchSkipsExpiry` | checker/app.py:15-25 | When `match_host` raises, the run is the same whatever the certificate holds and whatever the clock says, so the expiry check does not run. |
| `Checker.HandlerUsesDefaultWindow` | checker/app.py:13-23 | After a host match, for a parseable notAfter later than 0001-01-14 (ordinal above 14), the handler logs the expiry error exactly when `now` is within 14 days of notAfter (inclusive). Otherwise it logs that the certificate is not due to expire. For a notAfter in 0001-01-01..0001-01-14 the subtraction raises OverflowError and nothing is logged (`ThresholdCheck`). |

## Left out

- `days_until_expiry` (checker/app.py:50-53) is an empty stub, so there is no
  days-remaining value to model. Expiry is signalled by raising, not by a
  returned boolean. Host-name matching is left to `ssl.match_hostname`.
- `PeerCertificate.__init__` (checker/app.py:28-48) is socket and TLS I/O. It
  becomes the `Acquisition` parameter of `LambdaHandler`: a connection
  failure, or a certificate dictionary that is present or absent. Two facts
  about that code are recorded but not modelled:
  - `ssl.SSLError` is a subclass of `socket.error`, so the `SSL error`
    branch is never taken.
  - Line 35 sets `check_host`, not `check_hostname`. The handshake therefore
    still verifies the host name, and a mismatch surfaces as a socket error.
- `match_host` (checker/app.py:70-78) is a wrapper over `ssl.match_hostname`,
  whose code is not part of this model. The handler receives its verdict as a
  boolean. Exceptions other than `ssl.CertificateError` that it might raise are
  not modelled. The AttributeError it raises on an unset certificate is
  modelled.
- Logging text and log levels are not modelled. The handler's log records are
  kept only as events in order.
- `Checker.IsExpiring`: `days` is an integer. A float `days` (a fractional
  timedelta) is not modelled.
- `StrPTime.Parse`: `\d` and `int()` also accept non-ASCII Unicode decimal
  digits. The model accepts only `0`..`9`.
- `StrPTime.Parse`: `%b` is modelled for the C/English locale only. `%Z` is
  modelled as `UTC`/`GMT` only, which is also what a process whose local zone
  is UTC adds. The case folding is ASCII. The one non-ASCII character that
  case-insensitively matches a month letter (`ſ` for `s`) then fails the
  month lookup in Python too.
- `StrPTime.Format`: OpenSSL prints years below 1000 without leading zeros.
  The writer pads them to four digits, because `%Y` needs four.
- The wall clock (`datetime.utcnow()`) is the parameter `now`.
