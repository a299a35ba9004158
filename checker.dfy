/**
 * The certificate checker: `PeerCertificate.is_expiring` and the order in which
 * `lambda_handler` runs its checks.
 *
 * A `PeerCertificate` is what its constructor leaves behind: the host and port
 * it connected to and, when the peer presented a non-empty certificate, the
 * dictionary `getpeercert()` returned. The connection itself and
 * `ssl.match_hostname` are not part of this model; the handler receives their
 * outcomes as parameters, and the wall clock (`datetime.utcnow()`) is the
 * parameter `now`.
 */
module Checker {
  import opened Wrappers
  import opened Calendar
  import opened DateTimes
  import opened StrPTime

  /** The window `is_expiring` uses when called without `days`, and the one the handler passes. */
  const DefaultDays := 14

  /** The target the handler checks. */
  const HandlerHost := "greglangford.co.uk"
  const HandlerPort := 80

  /** The key of the expiry time in the dictionary `getpeercert()` returns. */
  const NotAfterKey := "notAfter"

  /** `certificate` is None when the constructor never set `self.certificate` (an empty peer certificate). */
  datatype PeerCertificate = PeerCertificate(host: string, port: int, certificate: Option<map<string, string>>)

  /** Exceptions that `is_expiring` and `match_host` let escape: none of them is a PeerCertificateException. */
  datatype UncaughtError = AttributeError | KeyError | OverflowError

  /**
   * How a call of `is_expiring` ends. `NotExpiring` is its `return False` (it
   * never returns anything else); `Expiring` and `ParseError` are the two
   * PeerCertificateExceptions it raises; `Uncaught` is any other exception.
   */
  datatype Expiry = NotExpiring | Expiring | ParseError | Uncaught(error: UncaughtError)

  /** `self.certificate['notAfter']`, when both the attribute and the key exist. */
  function NotAfterText(p: PeerCertificate): Option<string> {
    if p.certificate.Some? && NotAfterKey in p.certificate.value then Some(p.certificate.value[NotAfterKey])
    else None
  }

  /** The expiry time of the certificate, when its notAfter text is there and parses. */
  function NotAfter(p: PeerCertificate): Option<DateTime> {
    var text :- NotAfterText(p);
    Parse(text)
  }

  /**
   * Whether `expiry - timedelta(days=days)` is a datetime Python can hold:
   * otherwise building the timedelta or subtracting it raises OverflowError.
   */
  predicate ThresholdInRange(expiry: DateTime, days: int)
    requires Valid(expiry)
  {
    1 <= Ordinal(expiry.date) - days <= MaxOrdinal
  }

  /**
   * What `is_expiring` does once notAfter has parsed to `expiry`: build
   * `timedelta(days=days)`, subtract it, and raise `Expiring` when `now` is at
   * or past the result.
   */
  function ThresholdCheck(expiry: DateTime, now: DateTime, days: int): (r: Expiry)
    requires Valid(expiry) && Valid(now)
    ensures r == Expiring || r == NotExpiring || r == Uncaught(OverflowError)
    ensures r != Uncaught(OverflowError) <==> ThresholdInRange(expiry, days)
  {
    if !DeltaDaysInRange(days) then
      OrdinalRange(expiry.date);
      Uncaught(OverflowError)
    else match AddDays(expiry, -days)
      case None => Uncaught(OverflowError)
      case Some(threshold) => if Before(now, threshold) then NotExpiring else Expiring
  }

  /**
   * `p.is_expiring(days)` at the instant `now`: parse notAfter, then decide
   * against the threshold. An unparseable notAfter is `ParseError` and no
   * comparison is made.
   */
  function IsExpiring(p: PeerCertificate, now: DateTime, days: int): (r: Expiry)
    requires Valid(now)
    ensures r == ParseError <==> NotAfterText(p).Some? && Parse(NotAfterText(p).value).None?
    ensures NotAfter(p).Some? ==> r == ThresholdCheck(NotAfter(p).value, now, days)
    ensures NotAfterText(p).None? ==> r.Uncaught?
  {
    match p.certificate
    case None => Uncaught(AttributeError)
    case Some(fields) =>
      if NotAfterKey !in fields then Uncaught(KeyError)
      else match Parse(fields[NotAfterKey])
        case None => ParseError
        case Some(expiry) => ThresholdCheck(expiry, now, days)
  }

  /**
   * For a window Python can subtract, the decision is `Expiring` exactly when
   * `now` has reached notAfter minus `days` times 86400 seconds, equality
   * included, and `NotExpiring` exactly when it has not.
   */
  lemma ExpiringIff(expiry: DateTime, now: DateTime, days: int)
    requires Valid(expiry) && Valid(now) && ThresholdInRange(expiry, days)
    ensures ThresholdCheck(expiry, now, days) == Expiring <==> Instant(now) >= Instant(expiry) - days * MicrosPerDay
    ensures ThresholdCheck(expiry, now, days) == NotExpiring <==> Instant(now) < Instant(expiry) - days * MicrosPerDay
  {
    OrdinalRange(expiry.date);
    assert DeltaDaysInRange(days);
    var threshold := AddDays(expiry, -days).value;
    BeforeIsInstantOrder(now, threshold);
  }

  /** A certificate that has already expired is reported as expiring for every window of zero days or more. */
  lemma ExpiredIsExpiring(expiry: DateTime, now: DateTime, days: int)
    requires Valid(expiry) && Valid(now)
    requires 0 <= days < Ordinal(expiry.date) && Instant(now) >= Instant(expiry)
    ensures ThresholdCheck(expiry, now, days) == Expiring
  {
    OrdinalRange(expiry.date);
    ExpiringIff(expiry, now, days);
  }

  /**
   * A wider window never turns `Expiring` into anything but `Expiring`, unless
   * the threshold falls before year 1 and the subtraction overflows.
   */
  lemma ExpiringMonotoneInDays(expiry: DateTime, now: DateTime, days: int, wider: int)
    requires Valid(expiry) && Valid(now) && days <= wider
    requires ThresholdCheck(expiry, now, days) == Expiring
    ensures ThresholdCheck(expiry, now, wider) == Expiring || ThresholdCheck(expiry, now, wider) == Uncaught(OverflowError)
  {
    ExpiringIff(expiry, now, days);
    if ThresholdInRange(expiry, wider) {
      ExpiringIff(expiry, now, wider);
    }
  }

  /** Once `Expiring`, always `Expiring`: a later (or equal) clock reading gives the same answer. */
  lemma ExpiringMonotoneInTime(expiry: DateTime, now: DateTime, later: DateTime, days: int)
    requires Valid(expiry) && Valid(now) && Valid(later) && !Before(later, now)
    requires ThresholdCheck(expiry, now, days) == Expiring
    ensures ThresholdCheck(expiry, later, days) == Expiring
  {
    BeforeIsInstantOrder(later, now);
    ExpiringIff(expiry, now, days);
    ExpiringIff(expiry, later, days);
  }

  /** A notAfter that does not parse ends in `ParseError` whatever the clock and the window: no comparison is made. */
  lemma ParseErrorIgnoresClock(p: PeerCertificate, now: DateTime, days: int, now': DateTime, days': int)
    requires Valid(now) && Valid(now') && IsExpiring(p, now, days) == ParseError
    ensures IsExpiring(p, now', days') == ParseError
  {
  }

  /** The PeerCertificateExceptions the handler catches and logs, by where they were raised. */
  datatype Failure = ConnectionFailed | HostMismatch | CertificateExpiring | NotAfterUnparseable

  /** The log records `lambda_handler` writes, in order. */
  datatype Event = Attempting | HostMatched | NotDueToExpire | ErrorLogged(failure: Failure)

  /** What the constructor did: it either left a PeerCertificate behind or raised a PeerCertificateException. */
  datatype Acquisition = Acquired(certificate: Option<map<string, string>>) | ConnectFailed

  /** One run of the handler: what it logged, and the exception that escaped it, if any. */
  datatype Invocation = Invocation(events: seq<Event>, uncaught: Option<UncaughtError>)

  predicate IsError(e: Event) {
    e.ErrorLogged?
  }

  /** Only the last record can be an error, so at most one exception is handled. */
  predicate ErrorOnlyLast(events: seq<Event>) {
    forall i :: 0 <= i < |events| - 1 ==> !IsError(events[i])
  }

  /**
   * What the handler does with the outcome of `is_expiring`: log that the
   * certificate is not due to expire (the `not False` branch), log the
   * caught PeerCertificateException, or let any other exception escape.
   */
  function ExpiryReport(outcome: Expiry): (r: Invocation)
    ensures if outcome.Uncaught? then r == Invocation([], Some(outcome.error)) else |r.events| == 1 && r.uncaught == None
    ensures r.events == [NotDueToExpire] <==> outcome == NotExpiring
    ensures outcome == Expiring ==> r.events == [ErrorLogged(CertificateExpiring)]
    ensures outcome == ParseError ==> r.events == [ErrorLogged(NotAfterUnparseable)]
  {
    match outcome
    case NotExpiring => Invocation([NotDueToExpire], None)
    case Expiring => Invocation([ErrorLogged(CertificateExpiring)], None)
    case ParseError => Invocation([ErrorLogged(NotAfterUnparseable)], None)
    case Uncaught(e) => Invocation([], Some(e))
  }

  /**
   * `lambda_handler`: connect, check the host name, then check the expiry with
   * the default window, all inside one `try` that catches only
   * PeerCertificateException. `hostnameMatches` is the verdict of
   * `ssl.match_hostname` on the acquired certificate.
   */
  function LambdaHandler(acquisition: Acquisition, hostnameMatches: bool, now: DateTime): (r: Invocation)
    requires Valid(now)
    ensures |r.events| >= 1 && r.events[0] == Attempting
    ensures ErrorOnlyLast(r.events)
    ensures r.uncaught.Some? ==> forall i :: 0 <= i < |r.events| ==> !IsError(r.events[i])
  {
    match acquisition
    case ConnectFailed => Invocation([Attempting, ErrorLogged(ConnectionFailed)], None)
    case Acquired(certificate) =>
      if certificate.None? then Invocation([Attempting], Some(AttributeError))
      else if !hostnameMatches then Invocation([Attempting, ErrorLogged(HostMismatch)], None)
      else
        var report := ExpiryReport(IsExpiring(PeerCertificate(HandlerHost, HandlerPort, certificate), now, DefaultDays));
        Invocation([Attempting, HostMatched] + report.events, report.uncaught)
  }

  /**
   * When the host check raises, the expiry check does not run: the run is the
   * same whatever the certificate's contents and the clock say.
   */
  lemma HostMismatchSkipsExpiry(fields: map<string, string>, fields': map<string, string>, now: DateTime, now': DateTime)
    requires Valid(now) && Valid(now')
    ensures LambdaHandler(Acquired(Some(fields)), false, now) == LambdaHandler(Acquired(Some(fields')), false, now')
    ensures LambdaHandler(Acquired(Some(fields)), false, now).events == [Attempting, ErrorLogged(HostMismatch)]
  {
  }

  /**
   * After a host match the handler reports the certificate as expiring exactly
   * when `now` is within 14 days of notAfter, and otherwise logs that it is not
   * due to expire.
   */
  lemma HandlerUsesDefaultWindow(fields: map<string, string>, now: DateTime, expiry: DateTime)
    requires Valid(now) && NotAfterKey in fields && Parse(fields[NotAfterKey]) == Some(expiry)
    requires Ordinal(expiry.date) > DefaultDays
    ensures LambdaHandler(Acquired(Some(fields)), true, now).uncaught == None
    ensures LambdaHandler(Acquired(Some(fields)), true, now).events
         == [Attempting, HostMatched,
             if Instant(now) >= Instant(expiry) - 14 * 86_400 * MicrosPerSecond then ErrorLogged(CertificateExpiring)
             else NotDueToExpire]
  {
    var p := PeerCertificate(HandlerHost, HandlerPort, Some(fields));
    assert NotAfter(p) == Some(expiry);
    OrdinalRange(expiry.date);
    ExpiringIff(expiry, now, DefaultDays);
    assert IsExpiring(p, now, DefaultDays) == ThresholdCheck(expiry, now, DefaultDays);
    assert 14 * 86_400 * MicrosPerSecond == DefaultDays * MicrosPerDay;
    var outcome := IsExpiring(p, now, DefaultDays);
    assert outcome == Expiring || outcome == NotExpiring;
  }
}
