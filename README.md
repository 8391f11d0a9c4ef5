# Website health-check engine, modelled in Dafny

This project models the decision logic of a website health checker: the
single-target check that classifies one HTTP(S) probe into an eleven-key
result record, the TLS certificate inspector that turns a handshake into a
validity verdict and a days-until-expiry count, the batch check that runs one
check per URL in order, the summary aggregator that computes counts,
percentages and response-time statistics over a list of records, and the API
front door that rejects malformed URLs before any network access.

Everything outside the program is a value passed in. A `World` holds what one
check observes: the start timestamp (an opaque ISO string), the network's
answer to the GET as a function of (URL, timeout, follow-redirects), the
network's answer to a TLS handshake as a function of (hostname, port), and the
current instant in whole seconds. A batch takes `worlds: nat -> World`, and
check `i` observes `worlds(i)`. `urlparse` is a function `split` from the URL
to its scheme and network location (or a parse error).

Modules, one per component:

- `Records` (records.dfy): the result record `CheckResult`, the TLS part
  `SslInfo`, `result.update(ssl_info)` as `MergeSsl`, and `WellFormed`, the
  field-derivation invariants every record satisfies.
- `Decimal` (decimal.dfy): `str(int)`, used for the timeout in the timeout
  error message.
- `Transport` (transport.dfy): the exceptions `requests` raises, with their
  subclass relation, the except clauses in source order, the response and
  handshake outcomes, and `port or 443`.
- `Certificate` (certificate.dfy): `_check_ssl_certificate`.
- `HealthChecker` (health_checker.dfy): `check_website_health` and
  `check_multiple_websites`.
- `Summary` (summary.dfy): `get_health_summary`.
- `HealthCheckerApi` (api.dfy): `_validate_url`, `check_website`,
  `check_multiple_websites` and `get_summary`.

The source builds each record as a dictionary and overwrites its keys one by
one. The model keeps that form in two methods, `CheckSslCertificate` and
`CheckWebsiteHealth`. Each reassigns a local record key by key. Each is proved
equal to a specification function, `SslVerdict` and `HealthCheck`. The pure
API functions and the lemmas use those functions. The two batch operations are
loops that append one record per URL, with the invariants that prove length
and order. The summary is pure and is written as functions.

The exception hierarchy matters because the except clauses are tried in order.
`SSLError` is a `ConnectionError`, so the SSL clause must come first, and it
does. `ConnectTimeout` is both a `ConnectionError` and a `Timeout`, so it is
reported as "Connection Error: ...", not as a timeout. `ExceptOrderDecides`
states both facts.

Where the project's own documentation differs from the code, the model follows
the code:

- The invalid-URL record has `timestamp` set to None, not to the time of the
  check (api.py:75).
- A certificate is valid when its whole-day count is not negative. That is when
  the expiry instant is not before now, so an expiry equal to now is still
  valid (`DaysNegativeIffExpired`).
- A certificate that has no `notAfter` field counts as valid, with no expiry
  data (health_checker.py:124-127).
- A `notAfter` that `strptime` cannot read raises inside the try block. The
  catch-all clause then marks the certificate invalid, with no expiry data.
- A connect timeout is reported as a connection error.

## Model

| member | source | states |
|---|---|---|
| `Decimal.IntToDecimal` | health_checker.py:82 | `str(timeout)`: at least one character, a leading minus exactly for negatives, digits otherwise, and reading the digits back gives the absolute value |
| `Decimal.IntToDecimalCanonical` | health_checker.py:82 | `str(timeout)` has no leading zero: a non-negative number starting with 0 is 0 itself, and no 0 follows the minus sign |
| `Decimal.NatToDecimalRoundTrip` | health_checker.py:82 | reading the decimal spelling of a natural number back gives the number |
| `Transport.FirstCatching` | health_checker.py:73-91 | the handler chosen is a clause that catches the exception, and no clause before it does |
| `Transport.HandlerOf` | health_checker.py:73-91 | the clause run for an exception catches it, and every clause written before it does not |
| `Transport.ExceptOrderDecides` | health_checker.py:73-91 | an SSLError is caught by the SSL clause although it is a ConnectionError; a ConnectTimeout is caught by the connection clause although it is a Timeout; a ReadTimeout by the timeout clause; a non-requests exception by the catch-all |
| `Transport.TlsPort` | health_checker.py:70 | the TLS port is the explicit non-zero port, otherwise 443 |
| `Records.MergeSsl` | health_checker.py:71 | `result.update(ssl_info)`: the four TLS keys become the inspector's four values, and the other seven keys are kept |
| `Certificate.DaysUntil` | health_checker.py:136-138 | the days count is the floor of (expiry - now) / 86400: count * 86400 <= expiry - now < (count + 1) * 86400 |
| `Certificate.DaysNegativeIffExpired` | health_checker.py:137-142 | the days count is negative exactly when the expiry instant is before now |
| `Certificate.SslVerdict` | health_checker.py:106-153 | always checked; valid exactly when the handshake succeeded and the certificate has no `notAfter` or a readable one not before now; expiry and days present together, exactly for a readable `notAfter`, and then they are its rendering and the floor day count; a negative count is never valid |
| `Certificate.CheckSslCertificate` | health_checker.py:106-153 | the step-by-step inspector returns exactly the verdict `SslVerdict` |
| `Certificate.FailureIsInvalid` | health_checker.py:144-151 | every handshake failure (TLS error, name resolution, anything else) yields checked, not valid, no expiry, no days |
| `Certificate.ExpiredFiveDaysAgo` | health_checker.py:136-142 | a certificate that expired five days ago is checked, not valid, at -5 days |
| `HealthChecker.Initial` | health_checker.py:30-42 | the starting record: all keys at their defaults, `final_url == url`, no error |
| `HealthChecker.Explanation` | health_checker.py:74-91 | after the category, the SSL, connection, request and catch-all clauses write the exception's own text |
| `HealthChecker.FailureMessage` | health_checker.py:74-91 | every error text starts with its clause's category and ": "; the SSL, connection, request and catch-all clauses append the exception's text, the timeout clause the caller's timeout in seconds, the redirects clause a fixed sentence |
| `HealthChecker.MessageIdentifiesClause` | health_checker.py:73-91 | equal error texts come from the same except clause, whatever the exception texts and timeouts |
| `HealthChecker.LabelsDiffer` | health_checker.py:74-91 | no two clause categories begin with the same two characters |
| `HealthChecker.HealthCheck` | health_checker.py:30-93 | every record is well formed (health iff 200 <= code < 400, valid implies checked, unchecked means no TLS data, an expired certificate is invalid, no status code means an error); the URL and timestamp are kept; there is no error exactly when a response was received |
| `HealthChecker.CheckWebsiteHealth` | health_checker.py:18-93 | the step-by-step check, with the except clauses tried in source order, returns exactly `HealthCheck` |
| `HealthChecker.ResponseRecorded` | health_checker.py:56-65 | on a response, status code, response time and final URL come from it, health is exactly 200 <= code < 400, and there is no error |
| `HealthChecker.TlsOnlyForHttps` | health_checker.py:67-71 | on a response, the TLS keys are the inspector's verdict at (hostname, port or 443) when the final scheme is https, and stay at their defaults otherwise |
| `HealthChecker.SslCheckedIff` | health_checker.py:68-76 | `ssl_checked` holds exactly when the final scheme is https or the request raised an SSLError |
| `HealthChecker.SslErrorBranch` | health_checker.py:73-76 | an SSLError gives the starting record with error "SSL Error: " + detail, checked, not valid, and nothing else changed |
| `HealthChecker.OtherErrorsSetOnlyError` | health_checker.py:78-91 | every other exception gives the starting record with only the error set, to the message of its handling clause |
| `HealthChecker.TimeoutMessageNamesTimeout` | health_checker.py:81-82 | a timeout's error message embeds the caller's timeout value |
| `HealthChecker.HealthyWithInvalidCertificate` | health_checker.py:65-71 | a healthy status can coexist with an invalid certificate (https, status 200, certificate expired a day ago) |
| `HealthChecker.CheckMultipleWebsites` | health_checker.py:167-171 | the batch has one record per URL, and record i is the check of URL i |
| `HealthChecker.BatchSummarySslCounts` | health_checker.py:194-208 | for a non-empty batch the summary has 0 <= valid <= checked <= number of URLs |
| `Summary.Count` | health_checker.py:187 | a count is at most the list length, equals it exactly when every record has the key set, and is 0 exactly when none has |
| `Summary.CountAppend` | health_checker.py:187 | counting over a concatenation adds the two counts |
| `Summary.CountImplies` | health_checker.py:194-195 | when one key implies another on every record, its count is no larger |
| `Summary.ResponseTimes` | health_checker.py:190 | the collected times are no more than the records, contain every present time, contain only present times, and are empty exactly when no record has one |
| `Summary.ResponseTimesAppend` | health_checker.py:190 | collecting times over a concatenation concatenates the two collections |
| `Summary.RecordWithoutTimeIsSkipped` | health_checker.py:190 | removing a record without a response time leaves the collected times unchanged |
| `Summary.Min` | health_checker.py:210 | the fastest time is one of the times and no larger than any of them |
| `Summary.Max` | health_checker.py:211 | the slowest time is one of the times and no smaller than any of them |
| `Summary.SumBetween` | health_checker.py:191 | a sum of times in [lo, hi] lies between count * lo and count * hi |
| `Summary.QuotientBetween` | health_checker.py:191 | dividing such a sum by its positive count keeps it in [lo, hi] |
| `Summary.Mean` | health_checker.py:191 | the average times the number of response times is their sum; with no response times the average is 0 |
| `Summary.MeanBetweenMinAndMax` | health_checker.py:191 | the average response time lies between the fastest and the slowest |
| `Summary.Percentage` | health_checker.py:204 | the health percentage times the total is 100 times the healthy count; it lies in [0, 100], is 100 exactly when all are healthy and 0 exactly when none is |
| `Summary.HealthSummary` | health_checker.py:183-212 | empty input gives the empty summary and only it does; otherwise total is the length; healthy, SSL-checked, SSL-valid and with-error are the counts of records with those keys set; unhealthy = total - healthy, ssl_invalid = checked - valid; the percentage is `Percentage(healthy, total)`, in [0, 100] and 100 exactly when all are healthy; the average is the `Mean` of the collected response times, and fastest and slowest are their `Min` and `Max`; fastest and slowest are present together, exactly when some record has a response time; otherwise the average is 0, and when present fastest <= average <= slowest |
| `Summary.SslInvalidNonNegative` | health_checker.py:194-208 | over well-formed records the invalid-certificate count is not negative |
| `Summary.TwoSiteSummary` | health_checker.py:183-212 | a healthy site at 0.5 s plus a failed site give total 2, healthy 1, 50 %, average, fastest and slowest 0.5, one site with errors |
| `HealthCheckerApi.ValidateUrl` | api.py:168-172 | a URL is valid exactly when it splits into a non-empty scheme and a non-empty network location; one that cannot be split is invalid |
| `HealthCheckerApi.InvalidUrlRecord` | api.py:71-83 | the invalid-URL record is well formed, keeps the URL as final URL, has error "Invalid URL format", no timestamp, status code or response time, is unhealthy, and its TLS keys are at their defaults |
| `HealthCheckerApi.CheckWebsite` | api.py:70-85 | every record is well formed; a valid URL gets exactly the checker's record for the same URL, timeout and redirect flag; an invalid one the invalid-URL record |
| `HealthCheckerApi.InvalidUrlNeverChecked` | api.py:70-83 | an invalid URL's record does not depend on the network, the timeout or the redirect flag |
| `HealthCheckerApi.CheckMultipleWebsites` | api.py:99-103 | the batch has one record per URL, and record i is `check_website` of URL i |
| `HealthCheckerApi.GetSummary` | api.py:126 | the API summary is the checker's summary of the same records |
| `HealthCheckerApi.InvalidRecordsCounted` | api.py:70-83 | each invalid URL's record adds one to the error count and the unhealthy count and none to the collected response times |
| `HealthCheckerApi.BatchSummaryCountsInvalidUrls` | api.py:99-103 | in the summary of an API batch, sites with errors and unhealthy sites are at least the number of invalid URLs, and the response-time statistics are taken over at most the remaining records |

## Left out

- HTTP requests, redirect following, `socket.create_connection` and the TLS handshake are network I/O. Their outcomes are inputs (`World.get`, `World.tls`); redirect following is whatever `get` answers for the flag it is given.
- `time.time()`, `datetime.now()` and `isoformat()` are clocks and formatting. The elapsed time, the current instant and the timestamp string are inputs.
- `urlparse`, `strptime` and `strftime` are library parsing. The split URL, the `notAfter` instant and its rendering are inputs, and a `notAfter` the parser rejects is the `Unreadable` case.
- Parsing the final URL is assumed not to raise. `requests` has already parsed that URL to send the request, so a malformed port or host there cannot occur.
- The shared `requests.Session` and its `User-Agent` header are connection-pool state with no logic.
- `check_website_json`, `check_multiple_websites_json`, `main` and the `print_*` functions are JSON rendering and command-line output.
- app.py is not part of this model: it is a UI script whose validation and metric sums repeat the API and aggregator logic.
- example_usage.py is not part of this model: it is demonstration code making live requests.
- Floating point is not modelled: response times, the average and the percentage are `real`, and the timeout is an integer (as the API's signature declares).
- `str(e)` of a caught exception is an opaque `detail` string.
- Certificate.DaysUntil: counts from the current instant truncated to whole seconds, whereas `datetime.now()` carries microseconds. Whenever expiry minus the truncated instant is an exact multiple of 86400 seconds and the real instant has a fractional second, the count here is one higher than the source's: an expiry exactly 30 days ahead gives 30 here and 29 in the source, and an expiry less than a second ago gives 0 here and -1 in the source.
