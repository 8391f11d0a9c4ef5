/** The API front door (`HealthCheckerAPI` in api.py): URL validation before
    any network access, delegation to the checker, batches and summaries. */
module HealthCheckerApi {
  import opened Records
  import opened Transport
  import HealthChecker
  import opened Summary

  /** What `urlparse` yields for the validator: the scheme and network
      location it split off, or the ValueError it raised. */
  datatype SplitUrl = Split(scheme: string, netloc: string) | Unsplittable

  /** `_validate_url`: a URL is valid when it has both a scheme and a network
      location; a URL that cannot be split is invalid, never an exception. */
  function ValidateUrl(p: SplitUrl): (ok: bool)
    ensures ok <==> p.Split? && p.scheme != "" && p.netloc != ""
    ensures p.Unsplittable? ==> !ok
  {
    match p
    case Split(scheme, netloc) => scheme != "" && netloc != ""
    case Unsplittable => false
  }

  /** The record returned for a URL that fails validation. */
  function InvalidUrlRecord(url: string): (r: CheckResult)
    ensures WellFormed(r)
    ensures r.url == url && r.finalUrl == url && r.error == Some("Invalid URL format")
    ensures r.timestamp.None? && r.statusCode.None? && r.responseTime.None? && !r.statusHealthy
    ensures SslUntouched(r)
  {
    CheckResult(url, None, None, false, None, url, false, false, None, None, Some("Invalid URL format"))
  }

  /** `check_website`: an invalid URL short-circuits to the invalid-URL
      record; a valid one gets exactly the checker's record for the same
      URL, timeout and redirect flag. `split` stands for `urlparse`. */
  function CheckWebsite(url: string, timeout: int, followRedirects: bool,
                        split: string -> SplitUrl, w: World): (r: CheckResult)
    ensures WellFormed(r) && r.url == url
    ensures ValidateUrl(split(url)) ==> r == HealthChecker.HealthCheck(url, timeout, followRedirects, w)
    ensures !ValidateUrl(split(url)) ==> r == InvalidUrlRecord(url)
  {
    if !ValidateUrl(split(url)) then InvalidUrlRecord(url)
    else HealthChecker.HealthCheck(url, timeout, followRedirects, w)
  }

  /** An invalid URL never reaches the network: its record is the same
      whatever the network would have answered. */
  lemma InvalidUrlNeverChecked(url: string, split: string -> SplitUrl,
                               timeout: int, followRedirects: bool, w: World,
                               timeout': int, followRedirects': bool, w': World)
    requires !ValidateUrl(split(url))
    ensures CheckWebsite(url, timeout, followRedirects, split, w)
            == CheckWebsite(url, timeout', followRedirects', split, w')
  {
  }

  /** `check_multiple_websites`: one API check per URL, in order. Check `i`
      observes world `worlds(i)`. */
  method CheckMultipleWebsites(urls: seq<string>, timeout: int, followRedirects: bool,
                               split: string -> SplitUrl, worlds: nat -> World)
    returns (results: seq<CheckResult>)
    ensures |results| == |urls|
    ensures forall i :: 0 <= i < |urls| ==>
              results[i] == CheckWebsite(urls[i], timeout, followRedirects, split, worlds(i))
  {
    results := [];
    for i := 0 to |urls|
      invariant |results| == i
      invariant forall k :: 0 <= k < i ==>
                  results[k] == CheckWebsite(urls[k], timeout, followRedirects, split, worlds(k))
    {
      var result := CheckWebsite(urls[i], timeout, followRedirects, split, worlds(i));
      results := results + [result];
    }
  }

  /** `get_summary`: the checker's summary of the same records. */
  function GetSummary(results: seq<CheckResult>): (s: Summary)
    ensures s == HealthSummary(results)
  {
    HealthSummary(results)
  }

  /** How many of the URLs fail validation. */
  function InvalidCount(urls: seq<string>, split: string -> SplitUrl): (n: nat)
    ensures n <= |urls|
  {
    if urls == [] then 0
    else (if ValidateUrl(split(urls[0])) then 0 else 1) + InvalidCount(urls[1..], split)
  }

  /** Records for invalid URLs carry an error, are unhealthy and have no
      response time, so each one adds to the error and unhealthy counts and
      takes one record out of the response-time statistics. */
  lemma {:induction false} InvalidRecordsCounted(urls: seq<string>, split: string -> SplitUrl,
                                                 rs: seq<CheckResult>)
    requires |rs| == |urls|
    requires forall i :: 0 <= i < |urls| && !ValidateUrl(split(urls[i])) ==> rs[i] == InvalidUrlRecord(urls[i])
    ensures Count(rs, HasError) >= InvalidCount(urls, split)
    ensures |rs| - Count(rs, Healthy) >= InvalidCount(urls, split)
    ensures |ResponseTimes(rs)| + InvalidCount(urls, split) <= |rs|
  {
    if urls != [] {
      var tail, rest := urls[1..], rs[1..];
      forall i | 0 <= i < |tail| && !ValidateUrl(split(tail[i]))
        ensures rest[i] == InvalidUrlRecord(tail[i])
      {
        assert tail[i] == urls[i + 1] && rest[i] == rs[i + 1];
      }
      InvalidRecordsCounted(tail, split, rest);
      if !ValidateUrl(split(urls[0])) {
        assert rs[0] == InvalidUrlRecord(urls[0]);
      }
    }
  }

  /** In the summary of an API batch, every invalid URL counts as a site
      with an error and as an unhealthy site, and is left out of the
      response-time mean, minimum and maximum. */
  lemma BatchSummaryCountsInvalidUrls(urls: seq<string>, timeout: int, followRedirects: bool,
                                      split: string -> SplitUrl, worlds: nat -> World,
                                      rs: seq<CheckResult>)
    requires urls != [] && |rs| == |urls|
    requires forall i :: 0 <= i < |urls| ==>
               rs[i] == CheckWebsite(urls[i], timeout, followRedirects, split, worlds(i))
    ensures var s := GetSummary(rs);
            && s.sitesWithErrors >= InvalidCount(urls, split)
            && s.unhealthySites >= InvalidCount(urls, split)
            && |ResponseTimes(rs)| <= s.totalSites - InvalidCount(urls, split)
  {
    InvalidRecordsCounted(urls, split, rs);
  }
}
