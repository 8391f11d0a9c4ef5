/** The TLS certificate inspector (`HealthChecker._check_ssl_certificate`):
    from a handshake outcome and the current instant to the four TLS keys. */
module Certificate {
  import opened Records
  import opened Transport

  const SecondsPerDay: int := 86400

  /** `(expiry - now).days`: whole days until the expiry instant, rounded
      down, so a certificate that expired even a second ago is at -1. */
  function DaysUntil(expiry: int, now: int): (d: int)
    ensures d * SecondsPerDay <= expiry - now < (d + 1) * SecondsPerDay
  {
    (expiry - now) / SecondsPerDay
  }

  /** The days count is negative exactly when the expiry instant has passed. */
  lemma DaysNegativeIffExpired(expiry: int, now: int)
    ensures DaysUntil(expiry, now) < 0 <==> expiry < now
  {
  }

  /** What the inspector reports for a handshake outcome at instant `now`. */
  function SslVerdict(h: Handshake, now: int): (v: SslInfo)
    ensures v.checked
    ensures v.valid <==>
      h.Established? && (h.notAfter.None? || (h.notAfter.value.Stamp? && now <= h.notAfter.value.instant))
    ensures v.daysUntilExpiry.Some? <==> h.Established? && h.notAfter.Some? && h.notAfter.value.Stamp?
    ensures v.expiry.Some? <==> v.daysUntilExpiry.Some?
    ensures v.daysUntilExpiry.Some? ==>
      && v.expiry.value == h.notAfter.value.formatted
      && v.daysUntilExpiry.value == DaysUntil(h.notAfter.value.instant, now)
    ensures v.daysUntilExpiry.Some? && v.daysUntilExpiry.value < 0 ==> !v.valid
  {
    match h
    case Refused(_) => SslInfo(true, false, None, None)
    case Established(None) => SslInfo(true, true, None, None)
    case Established(Some(Unreadable)) => SslInfo(true, false, None, None)
    case Established(Some(Stamp(instant, text))) =>
      var days := DaysUntil(instant, now);
      DaysNegativeIffExpired(instant, now);
      SslInfo(true, days >= 0, Some(text), Some(days))
  }

  /** The inspector as the source runs it: start from "checked, not valid",
      mark valid once the handshake is through, then read `notAfter`. A
      `notAfter` that does not parse raises inside the try block, and the
      catch-all clause marks the certificate invalid. */
  method CheckSslCertificate(h: Handshake, now: int) returns (info: SslInfo)
    ensures info == SslVerdict(h, now)
  {
    info := SslInfo(true, false, None, None);
    match h {
      case Refused(why) =>
        // ssl.SSLError, socket.gaierror and any other exception alike
        info := info.(valid := false);
      case Established(notAfter) =>
        info := info.(valid := true);
        if notAfter.Some? {
          match notAfter.value {
            case Unreadable =>
              info := info.(valid := false);
            case Stamp(instant, text) =>
              info := info.(expiry := Some(text));
              var days := DaysUntil(instant, now);
              info := info.(daysUntilExpiry := Some(days));
              if days < 0 {
                info := info.(valid := false);
              }
          }
        }
    }
  }

  /** Every failure path yields an unvalidated, checked certificate with no expiry data. */
  lemma FailureIsInvalid(why: HandshakeFailure, now: int)
    ensures SslVerdict(Refused(why), now) == SslInfo(true, false, None, None)
  {
  }

  /** A certificate that expired five days ago: checked, not valid, -5 days left. */
  lemma ExpiredFiveDaysAgo(now: int, text: string)
    ensures SslVerdict(Established(Some(Stamp(now - 5 * SecondsPerDay, text))), now)
            == SslInfo(true, false, Some(text), Some(-5))
  {
  }
}
