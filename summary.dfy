/** The summary aggregator (`HealthChecker.get_health_summary`): statistics
    over a list of check records, trusting the keys already on each record. */
module Summary {
  import opened Records

  /** The keys of the summary dictionary; `EmptySummary` is the `{}` returned for no results. */
  datatype Summary =
    | EmptySummary
    | Stats(
        totalSites: nat,
        healthySites: nat,
        unhealthySites: int,
        healthPercentage: real,
        averageResponseTime: real,
        sslSitesChecked: nat,
        sslValidSites: nat,
        sslInvalidSites: int,
        sitesWithErrors: nat,
        fastestResponseTime: Option<real>,
        slowestResponseTime: Option<real>)

  /** The record keys the summary counts over. */
  datatype Flag = Healthy | SslChecked | SslValid | HasError

  predicate Holds(r: CheckResult, f: Flag) {
    match f
    case Healthy => r.statusHealthy
    case SslChecked => r.sslChecked
    case SslValid => r.sslValid
    case HasError => r.error.Some?
  }

  /** `sum(1 for r in results if ...)`: how many records carry the flag. */
  function Count(rs: seq<CheckResult>, f: Flag): (n: nat)
    ensures n <= |rs|
    ensures n == |rs| <==> forall i :: 0 <= i < |rs| ==> Holds(rs[i], f)
    ensures n == 0 <==> forall i :: 0 <= i < |rs| ==> !Holds(rs[i], f)
  {
    if rs == [] then 0
    else
      assert forall i :: 1 <= i < |rs| ==> rs[1..][i - 1] == rs[i];
      (if Holds(rs[0], f) then 1 else 0) + Count(rs[1..], f)
  }

  /** Counting distributes over concatenation. */
  lemma {:induction false} CountAppend(a: seq<CheckResult>, b: seq<CheckResult>, f: Flag)
    ensures Count(a + b, f) == Count(a, f) + Count(b, f)
  {
    if a == [] {
      assert a + b == b;
    } else {
      assert (a + b)[1..] == a[1..] + b;
      CountAppend(a[1..], b, f);
    }
  }

  /** If every record with flag `f` also has flag `g`, fewer records have `f`. */
  lemma {:induction false} CountImplies(rs: seq<CheckResult>, f: Flag, g: Flag)
    requires forall i :: 0 <= i < |rs| ==> Holds(rs[i], f) ==> Holds(rs[i], g)
    ensures Count(rs, f) <= Count(rs, g)
  {
    if rs != [] {
      assert forall i :: 0 <= i < |rs[1..]| ==> rs[1..][i] == rs[i + 1];
      CountImplies(rs[1..], f, g);
    }
  }

  /** `[r['response_time'] for r in results if r['response_time'] is not None]`:
      the present response times, in order. */
  function ResponseTimes(rs: seq<CheckResult>): (ts: seq<real>)
    ensures |ts| <= |rs|
    ensures forall i :: 0 <= i < |rs| && rs[i].responseTime.Some? ==> rs[i].responseTime.value in ts
    ensures forall t :: t in ts ==> exists i :: 0 <= i < |rs| && rs[i].responseTime == Some(t)
    ensures ts == [] <==> forall i :: 0 <= i < |rs| ==> rs[i].responseTime.None?
  {
    if rs == [] then []
    else
      var rest := ResponseTimes(rs[1..]);
      assert forall i :: 1 <= i < |rs| ==> rs[1..][i - 1] == rs[i];
      assert forall t :: t in rest ==> exists i :: 1 <= i < |rs| && rs[i].responseTime == Some(t) by {
        forall t | t in rest ensures exists i :: 1 <= i < |rs| && rs[i].responseTime == Some(t) {
          var j :| 0 <= j < |rs[1..]| && rs[1..][j].responseTime == Some(t);
          assert rs[j + 1].responseTime == Some(t);
        }
      }
      match rs[0].responseTime
      case Some(t) => [t] + rest
      case None => rest
  }

  /** Response times taken over a concatenation are the concatenation of the two. */
  lemma {:induction false} ResponseTimesAppend(a: seq<CheckResult>, b: seq<CheckResult>)
    ensures ResponseTimes(a + b) == ResponseTimes(a) + ResponseTimes(b)
  {
    if a == [] {
      assert a + b == b;
    } else {
      assert (a + b)[1..] == a[1..] + b;
      ResponseTimesAppend(a[1..], b);
    }
  }

  /** A record without a response time contributes nothing to the mean, the minimum or the maximum. */
  lemma RecordWithoutTimeIsSkipped(rs: seq<CheckResult>, i: nat)
    requires i < |rs| && rs[i].responseTime.None?
    ensures ResponseTimes(rs) == ResponseTimes(rs[..i] + rs[i + 1..])
  {
    assert rs == rs[..i] + ([rs[i]] + rs[i + 1..]);
    ResponseTimesAppend(rs[..i], [rs[i]] + rs[i + 1..]);
    ResponseTimesAppend([rs[i]], rs[i + 1..]);
    ResponseTimesAppend(rs[..i], rs[i + 1..]);
  }

  /** `sum(response_times)`. */
  function Sum(ts: seq<real>): (total: real) {
    if ts == [] then 0.0 else ts[0] + Sum(ts[1..])
  }

  /** `min(response_times)`: the smallest time, which is one of them. */
  function Min(ts: seq<real>): (m: real)
    requires ts != []
    ensures m in ts
    ensures forall i :: 0 <= i < |ts| ==> m <= ts[i]
  {
    if |ts| == 1 then ts[0]
    else
      var rest := Min(ts[1..]);
      assert forall i :: 1 <= i < |ts| ==> ts[1..][i - 1] == ts[i];
      if ts[0] <= rest then ts[0] else rest
  }

  /** `max(response_times)`: the largest time, which is one of them. */
  function Max(ts: seq<real>): (m: real)
    requires ts != []
    ensures m in ts
    ensures forall i :: 0 <= i < |ts| ==> ts[i] <= m
  {
    if |ts| == 1 then ts[0]
    else
      var rest := Max(ts[1..]);
      assert forall i :: 1 <= i < |ts| ==> ts[1..][i - 1] == ts[i];
      if ts[0] >= rest then ts[0] else rest
  }

  /** A sum of values in [lo, hi] lies between count * lo and count * hi. */
  lemma {:induction false} SumBetween(ts: seq<real>, lo: real, hi: real)
    requires forall i :: 0 <= i < |ts| ==> lo <= ts[i] <= hi
    ensures |ts| as real * lo <= Sum(ts) <= |ts| as real * hi
  {
    if ts != [] {
      assert forall i :: 0 <= i < |ts[1..]| ==> ts[1..][i] == ts[i + 1];
      SumBetween(ts[1..], lo, hi);
      assert |ts| as real * lo == (|ts| - 1) as real * lo + lo;
      assert |ts| as real * hi == (|ts| - 1) as real * hi + hi;
    }
  }

  /** `sum(ts) / len(ts) if ts else 0`. */
  function Mean(ts: seq<real>): (m: real)
    ensures ts != [] ==> m * |ts| as real == Sum(ts)
    ensures ts == [] ==> m == 0.0
  {
    if ts == [] then 0.0 else Sum(ts) / |ts| as real
  }

  /** The mean of the present times lies between the fastest and the slowest. */
  lemma MeanBetweenMinAndMax(ts: seq<real>)
    requires ts != []
    ensures Min(ts) <= Mean(ts) <= Max(ts)
  {
    SumBetween(ts, Min(ts), Max(ts));
    QuotientBetween(Sum(ts), |ts| as real, Min(ts), Max(ts));
  }

  /** Dividing by a positive count keeps n * lo <= s <= n * hi as lo <= s / n <= hi. */
  lemma QuotientBetween(s: real, n: real, lo: real, hi: real)
    requires n > 0.0 && n * lo <= s <= n * hi
    ensures lo <= s / n <= hi
  {
  }

  /** `healthy_sites / total_sites * 100`. */
  function Percentage(part: nat, whole: nat): (p: real)
    requires 0 < whole && part <= whole
    ensures 0.0 <= p <= 100.0
    ensures p == 100.0 <==> part == whole
    ensures p == 0.0 <==> part == 0
    ensures p * whole as real == 100.0 * part as real
  {
    var q := part as real / whole as real;
    QuotientBetween(part as real, whole as real, 0.0, 1.0);
    assert q == 1.0 ==> part as real == whole as real by {
      assert q * whole as real == part as real;
    }
    assert q == 0.0 ==> part == 0 by {
      assert q * whole as real == part as real;
    }
    q * 100.0
  }

  /** The summary of a list of records. */
  function HealthSummary(rs: seq<CheckResult>): (s: Summary)
    ensures rs == [] <==> s.EmptySummary?
    ensures s.Stats? ==>
      && s.totalSites == |rs|
      && s.healthySites <= s.totalSites
      && s.unhealthySites == s.totalSites - s.healthySites
      && s.sslInvalidSites == s.sslSitesChecked - s.sslValidSites
      && 0.0 <= s.healthPercentage <= 100.0
      && (s.healthPercentage == 100.0 <==> s.healthySites == s.totalSites)
    ensures s.Stats? ==>
      && s.healthySites == Count(rs, Healthy)
      && s.sslSitesChecked == Count(rs, SslChecked)
      && s.sslValidSites == Count(rs, SslValid)
      && s.sitesWithErrors == Count(rs, HasError)
      && s.healthPercentage == Percentage(s.healthySites, s.totalSites)
      && s.averageResponseTime == Mean(ResponseTimes(rs))
      && (ResponseTimes(rs) != [] ==>
            && s.fastestResponseTime == Some(Min(ResponseTimes(rs)))
            && s.slowestResponseTime == Some(Max(ResponseTimes(rs))))
    ensures s.Stats? ==>
      && (s.fastestResponseTime.Some? <==> exists i :: 0 <= i < |rs| && rs[i].responseTime.Some?)
      && (s.fastestResponseTime.Some? <==> s.slowestResponseTime.Some?)
      && (s.fastestResponseTime.None? ==> s.averageResponseTime == 0.0)
      && (s.fastestResponseTime.Some? ==>
            s.fastestResponseTime.value <= s.averageResponseTime <= s.slowestResponseTime.value)
  {
    if rs == [] then EmptySummary
    else
      var total := |rs|;
      var healthy := Count(rs, Healthy);
      var times := ResponseTimes(rs);
      var checked := Count(rs, SslChecked);
      var valid := Count(rs, SslValid);
      var percentage := Percentage(healthy, total);
      if times == [] then
        Stats(total, healthy, total - healthy, percentage, 0.0,
              checked, valid, checked - valid, Count(rs, HasError), None, None)
      else
        MeanBetweenMinAndMax(times);
        Stats(total, healthy, total - healthy, percentage, Mean(times),
              checked, valid, checked - valid, Count(rs, HasError), Some(Min(times)), Some(Max(times)))
  }

  /** For well-formed records the SSL-invalid count is never negative. */
  lemma SslInvalidNonNegative(rs: seq<CheckResult>)
    requires rs != []
    requires forall i :: 0 <= i < |rs| ==> WellFormed(rs[i])
    ensures HealthSummary(rs).sslInvalidSites >= 0
  {
    CountImplies(rs, SslValid, SslChecked);
  }

  /** Two sites, one healthy answering in half a second and one that failed
      with an error and no response time. */
  lemma TwoSiteSummary(a: CheckResult, b: CheckResult)
    requires a.statusHealthy && a.responseTime == Some(0.5) && !a.sslChecked && !a.sslValid && a.error.None?
    requires !b.statusHealthy && b.responseTime.None? && !b.sslChecked && !b.sslValid && b.error.Some?
    ensures HealthSummary([a, b])
            == Stats(2, 1, 1, 50.0, 0.5, 0, 0, 0, 1, Some(0.5), Some(0.5))
  {
  }
}
