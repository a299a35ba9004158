/**
 * `datetime.strptime(text, '%b %d %H:%M:%S %Y %Z')` as Python carries it out,
 * and, as its partner, the text OpenSSL writes for a certificate's notAfter
 * time (`Jun  1 12:00:00 2025 GMT`).
 *
 * Python turns the format into a regular expression compiled with IGNORECASE,
 * each blank of the format becoming `\s+`, matches it at the start of the text,
 * demands that nothing is left over ("unconverted data remains"), and then
 * builds the `datetime`, which rejects fields out of range. Both kinds of
 * failure are a ValueError; here they are both None.
 *
 * The grammar accepted, after a run of whitespace between adjacent fields:
 *   %b  three letters naming a month, `jan` .. `dec` in any mix of case
 *   %d  one or two digits, 1 to 31
 *   %H  one or two digits, 0 to 23, then `:`
 *   %M  one or two digits, 0 to 59, then `:`
 *   %S  one or two digits, 0 to 61 (the datetime then allows only 0 to 59)
 *   %Y  exactly four digits (the datetime then rejects year 0)
 *   %Z  `utc` or `gmt` in any mix of case, and nothing after it
 * and the day must exist in that month of that year.
 */
module StrPTime {
  import opened Wrappers
  import opened Calendar
  import opened DateTimes

  /** The characters `\s` matches in a Python str pattern (those for which `str.isspace()` holds). */
  predicate IsSpace(c: char) {
    var k := c as int;
    || 0x09 <= k <= 0x0D
    || 0x1C <= k <= 0x20
    || k == 0x85 || k == 0xA0 || k == 0x1680
    || 0x2000 <= k <= 0x200A
    || k == 0x2028 || k == 0x2029 || k == 0x202F || k == 0x205F || k == 0x3000
  }

  predicate IsDigit(c: char) {
    '0' <= c <= '9'
  }

  predicate AllDigits(s: string) {
    forall i :: 0 <= i < |s| ==> IsDigit(s[i])
  }

  function DigitValue(c: char): nat
    requires IsDigit(c)
  {
    c as int - '0' as int
  }

  function LowerAscii(c: char): char {
    if 'A' <= c <= 'Z' then (c as int + 32) as char else c
  }

  function Lowered(s: string): string {
    seq(|s|, i requires 0 <= i < |s| => LowerAscii(s[i]))
  }

  /** The month names `%b` knows in the C locale, lower-cased as Python keeps them. */
  const MonthAbbreviations: seq<string> :=
    ["jan", "feb", "mar", "apr", "may", "jun", "jul", "aug", "sep", "oct", "nov", "dec"]

  /** The zone names `%Z` knows in a process whose local zone is UTC. */
  const ZoneNames: seq<string> := ["utc", "gmt"]

  /** The month names as OpenSSL writes them. */
  const MonthNames: seq<string> :=
    ["Jan", "Feb", "Mar", "Apr", "May", "Jun", "Jul", "Aug", "Sep", "Oct", "Nov", "Dec"]

  datatype Scanned<T> = Scanned(value: T, rest: string)

  /** The fields as the regular expression matched them, before the datetime checks them. */
  datatype Fields = Fields(year: int, month: int, day: int, hour: int, minute: int, second: int)

  /**
   * The values the pattern's alternatives admit: `%d` 1..31, `%H` 0..23, `%M`
   * 0..59, `%S` 0..61. A run of digits outside them matches no alternative
   * followed by what the format demands next.
   */
  predicate FieldRanges(f: Fields) {
    1 <= f.day <= 31 && f.hour <= 23 && f.minute <= 59 && f.second <= 61
  }

  /** The naive datetime the fields name, if `datetime()` accepts them. */
  function TimeOf(f: Fields): DateTime {
    DateTime(Date(f.year, f.month, f.day), f.hour, f.minute, f.second, 0)
  }

  /** Python's `a_month.index(key)`: the position of a lower-cased name from entry `i` on. */
  function LookUpMonth(key: string, i: nat): (r: Option<int>)
    requires i <= 12
    ensures r.Some? ==> i < r.value <= 12 && MonthAbbreviations[r.value - 1] == key
    ensures r.None? <==> forall j :: i <= j < 12 ==> MonthAbbreviations[j] != key
    decreases 12 - i
  {
    if i == 12 then None
    else if MonthAbbreviations[i] == key then Some(i + 1)
    else LookUpMonth(key, i + 1)
  }

  /** `%b`: the first three characters name a month, whatever their case. */
  function Month(s: string): (r: Option<Scanned<int>>)
    ensures r.Some? <==> |s| >= 3 && Lowered(s[..3]) in MonthAbbreviations
    ensures r.Some? ==>
              && 1 <= r.value.value <= 12 && r.value.rest == s[3..]
              && Lowered(s[..3]) == MonthAbbreviations[r.value.value - 1]
  {
    if |s| < 3 then None
    else match LookUpMonth(Lowered(s[..3]), 0)
      case None => None
      case Some(m) => Some(Scanned(m, s[3..]))
  }

  /** `r` is what is left of `s` after some prefix. */
  predicate IsSuffix(r: string, s: string) {
    |r| <= |s| && r == s[|s| - |r|..]
  }

  lemma SuffixOfSuffix(q: string, r: string, s: string)
    requires IsSuffix(q, r) && IsSuffix(r, s)
    ensures IsSuffix(q, s)
  {
    assert s[|s| - |r|..][|r| - |q|..] == s[|s| - |q|..];
  }

  /** The text left after the leading run of whitespace. */
  function SkipSpaces(s: string): (r: string)
    ensures |r| <= |s| && r == s[|s| - |r|..]
    ensures r == [] || !IsSpace(r[0])
    ensures forall i :: 0 <= i < |s| - |r| ==> IsSpace(s[i])
    decreases |s|
  {
    if |s| > 0 && IsSpace(s[0]) then SkipSpaces(s[1..]) else s
  }

  /** `\s+`: at least one whitespace character, as many as there are. */
  function Spaces(s: string): Option<string> {
    if |s| > 0 && IsSpace(s[0]) then Some(SkipSpaces(s)) else None
  }

  function Literal(c: char, s: string): Option<string> {
    if |s| > 0 && s[0] == c then Some(s[1..]) else None
  }

  /** The length of the leading run of digits. */
  function DigitRun(s: string): (n: nat)
    ensures n <= |s| && AllDigits(s[..n]) && (n == |s| || !IsDigit(s[n]))
    decreases |s|
  {
    if |s| > 0 && IsDigit(s[0]) then
      var n := 1 + DigitRun(s[1..]);
      assert s[..n] == [s[0]] + s[1..][..n - 1];
      n
    else 0
  }

  /** The number a string of decimal digits denotes (Python's `int`). */
  function Value(digits: string): nat
    requires AllDigits(digits)
  {
    if digits == [] then 0
    else 10 * Value(digits[..|digits| - 1]) + DigitValue(digits[|digits| - 1])
  }

  /**
   * A numeric field of `minWidth` to `maxWidth` digits. The field always takes
   * the whole run of digits: what follows a field in this format is never a
   * digit, so a shorter match could not lead to an accepted text.
   */
  function Number(s: string, minWidth: nat, maxWidth: nat): Option<Scanned<nat>> {
    var n := DigitRun(s);
    if minWidth <= n <= maxWidth then Some(Scanned(Value(s[..n]), s[n..])) else None
  }

  /** `%Z`: three characters naming UTC, whatever their case. */
  function Zone(s: string): Option<string> {
    if |s| >= 3 && Lowered(s[..3]) in ZoneNames then Some(s[3..]) else None
  }

  /** `%H:%M:%S`: hour, minute and second as matched, before their ranges are checked. */
  function Clock(s: string): Option<Scanned<(nat, nat, nat)>> {
    var hour :- Number(s, 1, 2);
    var afterHour :- Literal(':', hour.rest);
    var minute :- Number(afterHour, 1, 2);
    var afterMinute :- Literal(':', minute.rest);
    var second :- Number(afterMinute, 1, 2);
    Some(Scanned((hour.value, minute.value, second.value), second.rest))
  }

  /** `%Y %Z` and the end of the text: the year, before it is checked. */
  function YearAndZone(s: string): Option<nat> {
    var year :- Number(s, 4, 4);
    var afterYear :- Spaces(year.rest);
    var afterZone :- Zone(afterYear);
    if afterZone == [] then Some(year.value) else None
  }

  /** The regular-expression stage: the whole text must match, with each field in its pattern's range. */
  function Scan(s: string): (r: Option<Fields>)
    ensures r.Some? ==> FieldRanges(r.value)
  {
    var month :- Month(s);
    var afterMonth :- Spaces(month.rest);
    var day :- Number(afterMonth, 1, 2);
    var afterDay :- Spaces(day.rest);
    var clock :- Clock(afterDay);
    var afterSecond :- Spaces(clock.rest);
    var year :- YearAndZone(afterSecond);
    var (hour, minute, second) := clock.value;
    var f := Fields(year, month.value, day.value, hour, minute, second);
    if FieldRanges(f) then Some(f) else None
  }

  /** `\s+` consumes a prefix of its text and hands on the rest. */
  lemma SpacesRest(s: string)
    requires Spaces(s).Some?
    ensures IsSuffix(Spaces(s).value, s)
  {
  }

  /** What `\s+` consumes is at least one character, all of them whitespace. */
  lemma SpacesConsumed(s: string)
    requires Spaces(s).Some?
    ensures |Spaces(s).value| < |s|
    ensures forall i :: 0 <= i < |s| - |Spaces(s).value| ==> IsSpace(s[i])
  {
    assert Spaces(s).value == SkipSpaces(s[1..]);
  }

  /** A numeric field consumes a prefix of its text. */
  lemma NumberRest(s: string, minWidth: nat, maxWidth: nat)
    requires Number(s, minWidth, maxWidth).Some?
    ensures IsSuffix(Number(s, minWidth, maxWidth).value.rest, s)
  {
  }

  /** `Clock` consumes a prefix of its text. */
  lemma ClockRest(s: string)
    requires Clock(s).Some?
    ensures IsSuffix(Clock(s).value.rest, s)
  {
    var hour := Number(s, 1, 2).value;
    var afterHour := Literal(':', hour.rest).value;
    var minute := Number(afterHour, 1, 2).value;
    var afterMinute := Literal(':', minute.rest).value;
    NumberRest(s, 1, 2);
    NumberRest(afterHour, 1, 2);
    NumberRest(afterMinute, 1, 2);
    SuffixOfSuffix(afterHour, hour.rest, s);
    SuffixOfSuffix(minute.rest, afterHour, s);
    SuffixOfSuffix(afterMinute, minute.rest, s);
    SuffixOfSuffix(Clock(s).value.rest, afterMinute, s);
  }

  /** What `%Y %Z` hands to the zone is the end of its text, and the zone takes all of it. */
  lemma YearAndZoneRest(s: string) returns (afterYear: string)
    requires YearAndZone(s).Some?
    ensures IsSuffix(afterYear, s) && Zone(afterYear) == Some([])
  {
    var year := Number(s, 4, 4).value;
    afterYear := Spaces(year.rest).value;
    NumberRest(s, 4, 4);
    SpacesRest(year.rest);
    SuffixOfSuffix(afterYear, year.rest, s);
  }

  /** `%Y %Z` only matches when the text ends in a zone name `%Z` knows. */
  lemma YearAndZoneEnd(s: string)
    requires YearAndZone(s).Some?
    ensures |s| >= 3 && Lowered(s[|s| - 3..]) in ZoneNames
  {
    var afterYear := YearAndZoneRest(s);
    assert |afterYear| == 3 && afterYear[..3] == afterYear;
    assert afterYear == s[|s| - 3..];
  }

  /** The zone name `%Y %Z` matches is preceded by whitespace, so it is a token of exactly three letters. */
  lemma YearAndZoneSpace(s: string)
    requires YearAndZone(s).Some?
    ensures |s| >= 4 && IsSpace(s[|s| - 4])
  {
    var year := Number(s, 4, 4).value;
    var afterYear := Spaces(year.rest).value;
    NumberRest(s, 4, 4);
    SpacesConsumed(year.rest);
    assert Zone(afterYear) == Some([]);
    assert |afterYear| == 3;
    var k := |year.rest| - 4;
    assert 0 <= k < |year.rest| - |afterYear|;
    assert IsSpace(year.rest[k]);
    assert year.rest[k] == s[|s| - 4];
  }

  /** Whatever text `Scan` accepts, the month it reports is the one `%b` read from the first three letters. */
  lemma ScanNamesMonth(s: string)
    requires Scan(s).Some?
    ensures Month(s).Some? && Scan(s).value.month == Month(s).value.value
  {
    var month := Month(s).value;
    var afterMonth := Spaces(month.rest).value;
    var day := Number(afterMonth, 1, 2).value;
    var afterDay := Spaces(day.rest).value;
    var clock := Clock(afterDay).value;
    var afterSecond := Spaces(clock.rest).value;
    assert YearAndZone(afterSecond).Some?;
    assert Scan(s).value.month == month.value;
  }

  /** The intermediate results of a successful `Scan`. */
  lemma ScanSteps(s: string) returns (month: Scanned<int>, day: Scanned<nat>, clock: Scanned<(nat, nat, nat)>, afterSecond: string)
    requires Scan(s).Some?
    ensures Month(s) == Some(month)
    ensures Spaces(month.rest).Some? && Number(Spaces(month.rest).value, 1, 2) == Some(day)
    ensures Spaces(day.rest).Some? && Clock(Spaces(day.rest).value) == Some(clock)
    ensures Spaces(clock.rest) == Some(afterSecond) && YearAndZone(afterSecond).Some?
  {
    month := Month(s).value;
    var afterMonth := Spaces(month.rest).value;
    day := Number(afterMonth, 1, 2).value;
    var afterDay := Spaces(day.rest).value;
    clock := Clock(afterDay).value;
    afterSecond := Spaces(clock.rest).value;
  }

  /** Each step of a successful scan hands on the end of the text it was given. */
  lemma ScanStepsRest(s: string, month: Scanned<int>, day: Scanned<nat>, clock: Scanned<(nat, nat, nat)>, afterSecond: string)
    requires Month(s) == Some(month)
    requires Spaces(month.rest).Some? && Number(Spaces(month.rest).value, 1, 2) == Some(day)
    requires Spaces(day.rest).Some? && Clock(Spaces(day.rest).value) == Some(clock)
    requires Spaces(clock.rest) == Some(afterSecond)
    ensures IsSuffix(afterSecond, s)
  {
    var afterMonth := Spaces(month.rest).value;
    var afterDay := Spaces(day.rest).value;
    SpacesRest(month.rest);
    NumberRest(afterMonth, 1, 2);
    SpacesRest(day.rest);
    ClockRest(afterDay);
    SpacesRest(clock.rest);
    assert IsSuffix(month.rest, s);
    SuffixOfSuffix(afterMonth, month.rest, s);
    SuffixOfSuffix(day.rest, afterMonth, s);
    SuffixOfSuffix(afterDay, day.rest, s);
    SuffixOfSuffix(clock.rest, afterDay, s);
    SuffixOfSuffix(afterSecond, clock.rest, s);
  }

  /** Whatever text `Scan` accepts ends in whitespace and then `UTC` or `GMT`, in any case. */
  lemma ScanNamesZone(s: string)
    requires Scan(s).Some?
    ensures |s| >= 4 && Lowered(s[|s| - 3..]) in ZoneNames && IsSpace(s[|s| - 4])
  {
    var month, day, clock, afterSecond := ScanSteps(s);
    ScanStepsRest(s, month, day, clock, afterSecond);
    YearAndZoneEnd(afterSecond);
    YearAndZoneSpace(afterSecond);
    assert afterSecond[|afterSecond| - 3..] == s[|s| - 3..];
    assert afterSecond[|afterSecond| - 4] == s[|s| - 4];
  }

  /**
   * `datetime.strptime(s, '%b %d %H:%M:%S %Y %Z')`, None standing for the
   * ValueError. The zone only has to be recognised: the result is naive and
   * its microseconds are 0.
   */
  function Parse(s: string): (r: Option<DateTime>)
    ensures r.Some? ==> Valid(r.value) && r.value.microsecond == 0
  {
    var f :- Scan(s);
    if Valid(TimeOf(f)) then Some(TimeOf(f)) else None
  }

  function Pow10(w: nat): (r: nat)
    ensures r >= 1
  {
    if w == 0 then 1 else 10 * Pow10(w - 1)
  }

  function DigitChar(d: int): (c: char)
    requires 0 <= d < 10
    ensures IsDigit(c) && DigitValue(c) == d
  {
    ('0' as int + d) as char
  }

  /** `n` written with exactly `w` digits, zero-padded on the left (C's `%0wd`). */
  function Digits(n: nat, w: nat): (r: string)
    ensures |r| == w && AllDigits(r)
  {
    if w == 0 then [] else Digits(n / 10, w - 1) + [DigitChar(n % 10)]
  }

  /** The day of the month as C's `%2d` writes it: one space before a single digit. */
  function DayField(day: nat): string
    requires day < 100
  {
    if day < 10 then " " + Digits(day, 1) else Digits(day, 2)
  }

  /**
   * Fields the writer below can print: a month name, a four-digit year, and
   * every other field in two digits, in range or not.
   */
  predicate Printable(f: Fields) {
    && 0 <= f.year <= MaxYear && 1 <= f.month <= 12 && 0 <= f.day <= 99
    && 0 <= f.hour <= 99 && 0 <= f.minute <= 99 && 0 <= f.second <= 99
  }

  /**
   * The notAfter text OpenSSL produces for these fields (ASN1_TIME_print: `%s
   * %2d %02d:%02d:%02d %d GMT`). OpenSSL writes the year without padding, which
   * for years 1000 to 9999 is these four digits; smaller years are padded here.
   */
  function Text(f: Fields): string
    requires Printable(f)
  {
    MonthNames[f.month - 1] + (" " + (DayField(f.day) + (" " + (Digits(f.hour, 2) + (":" +
      (Digits(f.minute, 2) + (":" + (Digits(f.second, 2) + (" " + (Digits(f.year, 4) + " GMT"))))))))))
  }

  function FieldsOf(t: DateTime): Fields {
    Fields(t.date.year, t.date.month, t.date.day, t.hour, t.minute, t.second)
  }

  /** The notAfter text OpenSSL writes for the time `t`. */
  function Format(t: DateTime): string
    requires Valid(t)
  {
    Text(FieldsOf(t))
  }

  /** `w` digits are enough for `n`, and reading them back gives `n`. */
  lemma {:induction false} ValueOfDigits(n: nat, w: nat)
    requires n < Pow10(w)
    ensures Value(Digits(n, w)) == n
  {
    if w > 0 {
      var init := Digits(n / 10, w - 1);
      assert (init + [DigitChar(n % 10)])[..w - 1] == init;
      ValueOfDigits(n / 10, w - 1);
    }
  }

  lemma MonthNameLowered(m: int)
    requires 1 <= m <= 12
    ensures |MonthNames[m - 1]| == 3 && Lowered(MonthNames[m - 1]) == MonthAbbreviations[m - 1]
  {
  }

  /** No month name is listed twice, so `%b` reads back the month that was written. */
  lemma MonthAbbreviationsDistinct(i: int, j: int)
    requires 0 <= i < 12 && 0 <= j < 12 && MonthAbbreviations[i] == MonthAbbreviations[j]
    ensures i == j
  {
  }

  lemma MonthOfName(m: int, rest: string)
    requires 1 <= m <= 12
    ensures Month(MonthNames[m - 1] + rest) == Some(Scanned(m, rest))
  {
    var s := MonthNames[m - 1] + rest;
    MonthNameLowered(m);
    assert s[..3] == MonthNames[m - 1];
    assert s[3..] == rest;
    var r := Month(s);
    assert r.Some?;
    MonthAbbreviationsDistinct(r.value.value - 1, m - 1);
  }

  lemma SpacesOf(w: string, rest: string)
    requires |w| >= 1 && forall i :: 0 <= i < |w| ==> IsSpace(w[i])
    requires rest == [] || !IsSpace(rest[0])
    ensures Spaces(w + rest) == Some(rest)
    decreases |w|
  {
    if |w| > 1 {
      assert (w + rest)[1..] == w[1..] + rest;
      SpacesOf(w[1..], rest);
    } else {
      assert (w + rest)[1..] == rest;
    }
  }

  lemma NumberOf(n: nat, w: nat, rest: string, minWidth: nat, maxWidth: nat)
    requires minWidth <= w <= maxWidth && n < Pow10(w)
    requires rest == [] || !IsDigit(rest[0])
    ensures Number(Digits(n, w) + rest, minWidth, maxWidth) == Some(Scanned(n, rest))
  {
    var s := Digits(n, w) + rest;
    DigitRunOf(Digits(n, w), rest);
    assert s[..w] == Digits(n, w) && s[w..] == rest;
    ValueOfDigits(n, w);
  }

  lemma {:induction false} DigitRunOf(d: string, rest: string)
    requires AllDigits(d) && (rest == [] || !IsDigit(rest[0]))
    ensures DigitRun(d + rest) == |d|
    decreases |d|
  {
    if |d| > 0 {
      assert (d + rest)[1..] == d[1..] + rest;
      DigitRunOf(d[1..], rest);
    } else {
      assert d + rest == rest;
    }
  }

  lemma ClockOf(f: Fields, rest: string)
    requires Printable(f) && (rest == [] || !IsDigit(rest[0]))
    ensures Clock(Digits(f.hour, 2) + (":" + (Digits(f.minute, 2) + (":" + (Digits(f.second, 2) + rest)))))
         == Some(Scanned((f.hour as nat, f.minute as nat, f.second as nat), rest))
  {
    assert Pow10(2) == 100;
    NumberOf(f.hour, 2, ":" + (Digits(f.minute, 2) + (":" + (Digits(f.second, 2) + rest))), 1, 2);
    NumberOf(f.minute, 2, ":" + (Digits(f.second, 2) + rest), 1, 2);
    NumberOf(f.second, 2, rest, 1, 2);
  }

  lemma YearAndZoneOf(year: int)
    requires 0 <= year <= MaxYear
    ensures YearAndZone(Digits(year, 4) + " GMT") == Some(year)
  {
    assert Pow10(4) == 10000;
    NumberOf(year, 4, " GMT", 4, 4);
    SpacesOf(" ", "GMT");
    assert Zone("GMT") == Some([]) by {
      assert "GMT"[..3] == "GMT" && "GMT"[3..] == [];
      assert Lowered("GMT") == "gmt";
    }
  }

  /** The day of the month as OpenSSL writes it, after the blank that follows the month. */
  lemma DayFieldOf(day: int, rest: string)
    requires 0 <= day <= 99 && |rest| > 0 && IsSpace(rest[0])
    ensures Spaces(" " + (DayField(day) + rest)).Some?
    ensures Number(Spaces(" " + (DayField(day) + rest)).value, 1, 2) == Some(Scanned(day as nat, rest))
  {
    if day < 10 {
      var digit := Digits(day, 1);
      var spaced := " " + (DayField(day) + rest);
      assert spaced == "  " + (digit + rest) by {
        assert DayField(day) == " " + digit;
        assert (" " + digit) + rest == " " + (digit + rest);
        assert " " + (" " + (digit + rest)) == (" " + " ") + (digit + rest);
      }
      SpacesOf("  ", digit + rest);
      assert Pow10(1) == 10;
      NumberOf(day, 1, rest, 1, 2);
    } else {
      SpacesOf(" ", Digits(day, 2) + rest);
      assert Pow10(2) == 100;
      NumberOf(day, 2, rest, 1, 2);
    }
  }

  /** `Scan` once each of its steps has matched: the steps are given, not the text. */
  lemma ScanOfSteps(s: string, afterMonth: string, dayRest: string, afterDay: string, afterSecond: string, f: Fields)
    requires Month(s) == Some(Scanned(f.month, afterMonth))
    requires Spaces(afterMonth).Some? && f.day >= 0
    requires Number(Spaces(afterMonth).value, 1, 2) == Some(Scanned(f.day as nat, dayRest))
    requires Spaces(dayRest) == Some(afterDay)
    requires f.hour >= 0 && f.minute >= 0 && f.second >= 0
    requires Clock(afterDay) == Some(Scanned((f.hour as nat, f.minute as nat, f.second as nat), afterSecond))
    requires Spaces(afterSecond).Some? && f.year >= 0 && YearAndZone(Spaces(afterSecond).value) == Some(f.year as nat)
    ensures Scan(s) == if FieldRanges(f) then Some(f) else None
  {
  }

  /** The text OpenSSL writes after the month name. */
  function AfterMonthText(f: Fields): string
    requires Printable(f)
  {
    " " + (DayField(f.day) + (" " + AfterDayText(f)))
  }

  /** The text OpenSSL writes after the day of the month and its blank. */
  function AfterDayText(f: Fields): string
    requires Printable(f)
  {
    Digits(f.hour, 2) + (":" + (Digits(f.minute, 2) + (":" + (Digits(f.second, 2) + (" " + (Digits(f.year, 4) + " GMT"))))))
  }

  /** The day of the month and the whitespace around it read back from what OpenSSL writes. */
  lemma ScanDay(f: Fields)
    requires Printable(f)
    ensures Spaces(AfterMonthText(f)).Some?
    ensures Number(Spaces(AfterMonthText(f)).value, 1, 2) == Some(Scanned(f.day as nat, " " + AfterDayText(f)))
    ensures Spaces(" " + AfterDayText(f)) == Some(AfterDayText(f))
  {
    assert AfterDayText(f) == Digits(f.hour, 2) + AfterDayText(f)[2..];
    DayFieldOf(f.day, " " + AfterDayText(f));
    SpacesOf(" ", AfterDayText(f));
  }

  /** The clock, the year and the zone read back from what OpenSSL writes. */
  lemma ScanClockAndYear(f: Fields)
    requires Printable(f)
    ensures Clock(AfterDayText(f)) == Some(Scanned((f.hour as nat, f.minute as nat, f.second as nat), " " + (Digits(f.year, 4) + " GMT")))
    ensures Spaces(" " + (Digits(f.year, 4) + " GMT")) == Some(Digits(f.year, 4) + " GMT")
    ensures YearAndZone(Digits(f.year, 4) + " GMT") == Some(f.year as nat)
  {
    var afterYear := Digits(f.year, 4) + " GMT";
    ClockOf(f, " " + afterYear);
    SpacesOf(" ", afterYear);
    YearAndZoneOf(f.year);
  }

  /**
   * The regular-expression stage reads back every field of the text, the
   * month name giving its number 1..12, and refuses the text exactly when a
   * field is outside the pattern's ranges.
   */
  lemma ScanText(f: Fields)
    requires Printable(f)
    ensures Scan(Text(f)) == if FieldRanges(f) then Some(f) else None
  {
    var afterMonth := AfterMonthText(f);
    var s := Text(f);
    assert s == MonthNames[f.month - 1] + afterMonth;
    MonthOfName(f.month, afterMonth);
    ScanDay(f);
    ScanClockAndYear(f);
    ScanOfSteps(s, afterMonth, " " + AfterDayText(f), AfterDayText(f), " " + (Digits(f.year, 4) + " GMT"), f);
  }

  /**
   * `strptime` of a text of the format's shape: the datetime the fields name
   * when `datetime()` accepts them, a ValueError otherwise.
   */
  lemma ParseText(f: Fields)
    requires Printable(f)
    ensures Parse(Text(f)) == if Valid(TimeOf(f)) then Some(TimeOf(f)) else None
  {
    ScanText(f);
  }

  /**
   * Reading back what OpenSSL writes gives the same date and time: the parsed
   * instant is the civil date and time written in the text.
   */
  lemma ParseFormat(t: DateTime)
    requires Valid(t) && t.microsecond == 0
    ensures Parse(Format(t)) == Some(t)
  {
    ParseText(FieldsOf(t));
  }

  /**
   * Text of the format's shape that names no real time is refused: a field
   * out of range (day 0 or 32, hour 24, minute 60), a day the month does not
   * have (Feb 30, Feb 29 outside leap years, Apr 31), year 0, or a leap second
   * 60 or 61.
   */
  lemma ParseRejectsImpossibleTime(f: Fields)
    requires Printable(f) && !Valid(TimeOf(f))
    ensures Parse(Text(f)) == None
  {
    ParseText(f);
  }

  /**
   * `strptime` accepts only a text that starts with the English name of the
   * month it returns and ends in the zone name `UTC` or `GMT`: any other zone
   * is a ValueError.
   */
  lemma ParseNamesMonthAndZone(s: string, t: DateTime)
    requires Parse(s) == Some(t)
    ensures |s| >= 3 && Lowered(s[..3]) == MonthAbbreviations[t.date.month - 1]
    ensures Lowered(s[|s| - 3..]) in ZoneNames && |s| >= 4 && IsSpace(s[|s| - 4])
  {
    assert Scan(s).Some?;
    var f := Scan(s).value;
    assert t == DateTime(Date(f.year, f.month, f.day), f.hour, f.minute, f.second, 0);
    ScanNamesMonth(s);
    ScanNamesZone(s);
  }

  /** `Feb 30 12:00:00 2025 GMT` has the format's shape but is a ValueError. */
  lemma ParseRejectsFebruary30()
    ensures Parse(Text(Fields(2025, 2, 30, 12, 0, 0))) == None
  {
    ParseRejectsImpossibleTime(Fields(2025, 2, 30, 12, 0, 0));
  }

  /** `Jun  1 24:00:00 2025 GMT` has the format's shape, but hour 24 matches no alternative of `%H`. */
  lemma ParseRejectsHour24()
    ensures Parse(Text(Fields(2025, 6, 1, 24, 0, 0))) == None
  {
    ParseRejectsImpossibleTime(Fields(2025, 6, 1, 24, 0, 0));
  }
}
