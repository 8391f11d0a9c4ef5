/** The single-target check (`HealthChecker.check_website_health`) and the
    batch check (`HealthChecker.check_multiple_websites`). */
module HealthChecker {
  import opened Records
  import opened Decimal
  import opened Transport
  import opened Certificate
  import opened Summary

  /** The record before the request: every key at its default, the final URL
      equal to the input URL, no error. */
  function Initial(url: string, timestamp: string): (r: CheckResult)
    ensures r.url == url && r.finalUrl == url && r.timestamp == Some(timestamp)
    ensures r.statusCode.None? && r.responseTime.None? && !r.statusHealthy
    ensures SslUntouched(r) && r.error.None?
  {
    CheckResult(url, Some(timestamp), None, false, None, url, false, false, None, None, None)
  }

  /** The category each except clause names at the head of its error text. */
  function Label(c: Clause): (l: string)
    ensures |l| >= 2
  {
    match c
    case SslClause => "SSL Error"
    case ConnectionClause => "Connection Error"
    case TimeoutClause => "Timeout Error"
    case RedirectsClause => "Too Many Redirects"
    case RequestClause => "Request Error"
    case CatchAllClause => "Unexpected Error"
  }

  /** What follows the category in an error text: the exception's own text,
      except that a timeout reports the caller's timeout and too many
      redirects a fixed sentence. */
  function Explanation(c: Clause, detail: string, timeout: int): (x: string)
    ensures !c.TimeoutClause? && !c.RedirectsClause? ==> x == detail
  {
    match c
    case TimeoutClause => "Request took longer than " + IntToDecimal(timeout) + " seconds"
    case RedirectsClause => "The request exceeded the maximum number of redirects"
    case _ => detail
  }

  /** The error text each except clause writes: its category, a colon and a
      space, then the explanation. */
  function FailureMessage(c: Clause, detail: string, timeout: int): (m: string)
    ensures Label(c) + ": " <= m
    ensures !c.TimeoutClause? && !c.RedirectsClause? ==> m == Label(c) + ": " + detail
    ensures c == TimeoutClause ==>
              m == Label(c) + ": " + ("Request took longer than " + IntToDecimal(timeout) + " seconds")
    ensures c == RedirectsClause ==>
              m == Label(c) + ": " + "The request exceeded the maximum number of redirects"
  {
    Label(c) + ": " + Explanation(c, detail, timeout)
  }

  /** The error text tells which clause ran: two messages that are equal
      come from the same clause, whatever the details and timeouts. */
  lemma MessageIdentifiesClause(c1: Clause, d1: string, t1: int, c2: Clause, d2: string, t2: int)
    requires FailureMessage(c1, d1, t1) == FailureMessage(c2, d2, t2)
    ensures c1 == c2
  {
    var m := FailureMessage(c1, d1, t1);
    assert Label(c1)[0] == m[0] == Label(c2)[0];
    assert Label(c1)[1] == m[1] == Label(c2)[1];
    if c1 != c2 {
      LabelsDiffer(c1, c2);
    }
  }

  /** No two categories start with the same two characters. */
  lemma LabelsDiffer(c1: Clause, c2: Clause)
    requires c1 != c2
    ensures Label(c1)[0] != Label(c2)[0] || Label(c1)[1] != Label(c2)[1]
  {
  }

  /** The record one check of `url` produces in world `w`. */
  function HealthCheck(url: string, timeout: int, followRedirects: bool, w: World): (r: CheckResult)
    ensures WellFormed(r)
    ensures r.url == url && r.timestamp == Some(w.timestamp)
    ensures r.error.None? <==> w.get(url, timeout, followRedirects).Response?
  {
    var start := Initial(url, w.timestamp);
    match w.get(url, timeout, followRedirects)
    case Response(code, final, elapsed) =>
      var answered := start.(responseTime := Some(elapsed), statusCode := Some(code),
                             finalUrl := final.text, statusHealthy := HealthyStatus(code));
      if final.scheme == "https" then
        MergeSsl(answered, SslVerdict(w.tls(final.hostname, TlsPort(final.port)), w.now))
      else
        answered
    case Failed(e, detail) =>
      var handler := HandlerOf(e);
      var failed := start.(error := Some(FailureMessage(handler, detail, timeout)));
      if handler == SslClause then failed.(sslChecked := true, sslValid := false) else failed
  }

  /** The check as the source runs it: build the default record, then
      overwrite its keys one by one on the branch that ran. The except
      clauses are tried in the order they are written. */
  method CheckWebsiteHealth(url: string, timeout: int, followRedirects: bool, w: World)
    returns (r: CheckResult)
    ensures r == HealthCheck(url, timeout, followRedirects, w)
  {
    r := Initial(url, w.timestamp);
    match w.get(url, timeout, followRedirects) {
      case Response(code, final, elapsed) =>
        r := r.(responseTime := Some(elapsed));
        r := r.(statusCode := Some(code));
        r := r.(finalUrl := final.text);
        r := r.(statusHealthy := 200 <= code < 400);
        if final.scheme == "https" {
          var info := CheckSslCertificate(w.tls(final.hostname, TlsPort(final.port)), w.now);
          r := MergeSsl(r, info);
        }
      case Failed(e, detail) =>
        if Catches(SslClause, e) {
          r := r.(error := Some(FailureMessage(SslClause, detail, timeout)));
          r := r.(sslChecked := true);
          r := r.(sslValid := false);
        } else if Catches(ConnectionClause, e) {
          r := r.(error := Some(FailureMessage(ConnectionClause, detail, timeout)));
        } else if Catches(TimeoutClause, e) {
          r := r.(error := Some(FailureMessage(TimeoutClause, detail, timeout)));
        } else if Catches(RedirectsClause, e) {
          r := r.(error := Some(FailureMessage(RedirectsClause, detail, timeout)));
        } else if Catches(RequestClause, e) {
          r := r.(error := Some(FailureMessage(RequestClause, detail, timeout)));
        } else {
          r := r.(error := Some(FailureMessage(CatchAllClause, detail, timeout)));
        }
    }
  }

  /** On a response, the status code, final URL and response time come from
      it, health is exactly "2xx or 3xx", and there is no error. */
  lemma ResponseRecorded(url: string, timeout: int, followRedirects: bool, w: World)
    requires w.get(url, timeout, followRedirects).Response?
    ensures var o := w.get(url, timeout, followRedirects);
            var r := HealthCheck(url, timeout, followRedirects, w);
            && r.statusCode == Some(o.statusCode)
            && r.responseTime == Some(o.elapsed)
            && r.finalUrl == o.final.text
            && (r.statusHealthy <==> 200 <= o.statusCode < 400)
            && r.error.None?
  {
  }

  /** The certificate is inspected only when the final URL is https, at its
      hostname and its port or 443; otherwise the four TLS keys keep their defaults. */
  lemma TlsOnlyForHttps(url: string, timeout: int, followRedirects: bool, w: World)
    requires w.get(url, timeout, followRedirects).Response?
    ensures var final := w.get(url, timeout, followRedirects).final;
            var r := HealthCheck(url, timeout, followRedirects, w);
            var v := SslVerdict(w.tls(final.hostname, TlsPort(final.port)), w.now);
            && (final.scheme == "https" ==> SslInfo(r.sslChecked, r.sslValid, r.sslExpiry, r.sslDaysUntilExpiry) == v)
            && (final.scheme != "https" ==> SslUntouched(r))
  {
  }

  /** The certificate counts as checked exactly when the final URL is https
      or the request itself failed with an SSLError. */
  lemma SslCheckedIff(url: string, timeout: int, followRedirects: bool, w: World)
    ensures var o := w.get(url, timeout, followRedirects);
            HealthCheck(url, timeout, followRedirects, w).sslChecked
            <==> (o.Response? && o.final.scheme == "https") || (o.Failed? && o.raised.SSLError?)
  {
  }

  /** An SSLError raised by the request: the error starts with "SSL Error: ",
      the certificate is checked and not valid, and the response keys keep
      their defaults. */
  lemma SslErrorBranch(url: string, timeout: int, followRedirects: bool, w: World)
    requires w.get(url, timeout, followRedirects).Failed?
    requires w.get(url, timeout, followRedirects).raised.SSLError?
    ensures var detail := w.get(url, timeout, followRedirects).detail;
            HealthCheck(url, timeout, followRedirects, w)
            == Initial(url, w.timestamp).(error := Some("SSL Error: " + detail), sslChecked := true, sslValid := false)
  {
    assert Label(SslClause) + ": " == "SSL Error: ";
  }

  /** Any other exception sets the error and nothing else. */
  lemma OtherErrorsSetOnlyError(url: string, timeout: int, followRedirects: bool, w: World)
    requires w.get(url, timeout, followRedirects).Failed?
    requires !w.get(url, timeout, followRedirects).raised.SSLError?
    ensures var o := w.get(url, timeout, followRedirects);
            HealthCheck(url, timeout, followRedirects, w)
            == Initial(url, w.timestamp).(error := Some(FailureMessage(HandlerOf(o.raised), o.detail, timeout)))
  {
  }

  /** A timeout is reported with the timeout the caller gave. */
  lemma TimeoutMessageNamesTimeout(url: string, timeout: int, followRedirects: bool, w: World)
    requires w.get(url, timeout, followRedirects).Failed?
    requires w.get(url, timeout, followRedirects).raised in {ReadTimeout, Timeout}
    ensures HealthCheck(url, timeout, followRedirects, w).error
            == Some("Timeout Error: " + ("Request took longer than " + IntToDecimal(timeout) + " seconds"))
  {
    var o := w.get(url, timeout, followRedirects);
    assert HandlerOf(o.raised) == TimeoutClause;
    OtherErrorsSetOnlyError(url, timeout, followRedirects, w);
    assert Label(TimeoutClause) + ": " == "Timeout Error: ";
  }

  /** A healthy status can come with an invalid certificate: an https site
      answering 200 whose certificate expired yesterday. */
  lemma HealthyWithInvalidCertificate(url: string, timeout: int, followRedirects: bool, now: int)
    ensures var final := FinalUrl("https://example.com/", "https", Some("example.com"), None);
            var w := World("t", (u, t, f) => Response(200, final, 0.5),
                           (h, p) => Established(Some(Stamp(now - SecondsPerDay, "expired"))), now);
            var r := HealthCheck(url, timeout, followRedirects, w);
            r.statusHealthy && r.sslChecked && !r.sslValid && r.sslDaysUntilExpiry == Some(-1)
  {
  }

  /** The batch check: one check per URL, in order, appended to the results.
      Check `i` observes world `worlds(i)`. */
  method CheckMultipleWebsites(urls: seq<string>, timeout: int, followRedirects: bool, worlds: nat -> World)
    returns (results: seq<CheckResult>)
    ensures |results| == |urls|
    ensures forall i :: 0 <= i < |urls| ==> results[i] == HealthCheck(urls[i], timeout, followRedirects, worlds(i))
  {
    results := [];
    for i := 0 to |urls|
      invariant |results| == i
      invariant forall k :: 0 <= k < i ==> results[k] == HealthCheck(urls[k], timeout, followRedirects, worlds(k))
    {
      var result := CheckWebsiteHealth(urls[i], timeout, followRedirects, worlds(i));
      results := results + [result];
    }
  }

  /** Every record of a batch keeps the field invariants, so its summary
      never reports a negative number of invalid certificates. */
  lemma BatchSummarySslCounts(urls: seq<string>, timeout: int, followRedirects: bool,
                              worlds: nat -> World, rs: seq<CheckResult>)
    requires urls != [] && |rs| == |urls|
    requires forall i :: 0 <= i < |urls| ==> rs[i] == HealthCheck(urls[i], timeout, followRedirects, worlds(i))
    ensures HealthSummary(rs).Stats?
    ensures 0 <= HealthSummary(rs).sslValidSites <= HealthSummary(rs).sslSitesChecked <= |urls|
  {
    SslInvalidNonNegative(rs);
  }
}
