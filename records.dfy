/** The records a health check produces: the eleven-key result of one check
    and the four TLS keys the certificate inspector hands back. */
module Records {

  datatype Option<T> = None | Some(value: T)

  /** One check of one website (the dictionary built by `check_website_health`).
      `timestamp` is the ISO rendering of the start instant, kept opaque;
      `responseTime` is in seconds. */
  datatype CheckResult = CheckResult(
    url: string,
    timestamp: Option<string>,
    statusCode: Option<int>,
    statusHealthy: bool,
    responseTime: Option<real>,
    finalUrl: string,
    sslChecked: bool,
    sslValid: bool,
    sslExpiry: Option<string>,
    sslDaysUntilExpiry: Option<int>,
    error: Option<string>)

  /** The four keys `_check_ssl_certificate` returns and `check_website_health` merges. */
  datatype SslInfo = SslInfo(checked: bool, valid: bool, expiry: Option<string>, daysUntilExpiry: Option<int>)

  /** A status counts as healthy when it is a 2xx or a 3xx. */
  predicate HealthyStatus(code: int) {
    200 <= code < 400
  }

  /** The four TLS keys at their initial values. */
  predicate SslUntouched(r: CheckResult) {
    !r.sslChecked && !r.sslValid && r.sslExpiry.None? && r.sslDaysUntilExpiry.None?
  }

  /** `result.update(ssl_info)`: overwrite the four TLS keys, keep the other seven. */
  function MergeSsl(r: CheckResult, info: SslInfo): (m: CheckResult)
    ensures SslInfo(m.sslChecked, m.sslValid, m.sslExpiry, m.sslDaysUntilExpiry) == info
    ensures m.url == r.url && m.timestamp == r.timestamp && m.finalUrl == r.finalUrl
    ensures m.statusCode == r.statusCode && m.statusHealthy == r.statusHealthy
    ensures m.responseTime == r.responseTime && m.error == r.error
  {
    r.(sslChecked := info.checked, sslValid := info.valid,
       sslExpiry := info.expiry, sslDaysUntilExpiry := info.daysUntilExpiry)
  }

  /** The field-derivation invariants every record of the engine satisfies:
      health is read off the status code, a status code and a response time
      are recorded together, a record without a status code carries an error,
      a valid certificate was checked, an unchecked certificate carries no
      TLS data, and an expired certificate is never valid. */
  predicate WellFormed(r: CheckResult) {
    && (r.statusHealthy <==> r.statusCode.Some? && HealthyStatus(r.statusCode.value))
    && (r.statusCode.Some? <==> r.responseTime.Some?)
    && (r.statusCode.None? ==> r.error.Some?)
    && (r.sslValid ==> r.sslChecked)
    && (!r.sslChecked ==> SslUntouched(r))
    && (r.sslExpiry.Some? <==> r.sslDaysUntilExpiry.Some?)
    && (r.sslDaysUntilExpiry.Some? && r.sslDaysUntilExpiry.value < 0 ==> !r.sslValid)
  }
}
