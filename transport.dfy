/** What the network hands back to one check, as values: the outcome of the
    HTTP GET (a response, or one of the exceptions `requests` raises), the
    outcome of the raw TLS handshake, and the clock. */
module Transport {
  import opened Records

  /** The exceptions a GET through `requests` may raise, one variant per class
      that the except clauses tell apart. In `requests`, SSLError, ProxyError
      and ConnectTimeout are subclasses of ConnectionError; ConnectTimeout and
      ReadTimeout are subclasses of Timeout; all of these and TooManyRedirects
      are RequestExceptions. OtherException is anything else. */
  datatype Raised =
    | SSLError
    | ProxyError
    | ConnectTimeout
    | ConnectionError
    | ReadTimeout
    | Timeout
    | TooManyRedirects
    | OtherRequestException
    | OtherException

  /** The except clauses of `check_website_health`, each named after the class it catches. */
  datatype Clause =
    | SslClause
    | ConnectionClause
    | TimeoutClause
    | RedirectsClause
    | RequestClause
    | CatchAllClause

  /** The clauses in the order they are written. */
  const ClauseOrder: seq<Clause> :=
    [SslClause, ConnectionClause, TimeoutClause, RedirectsClause, RequestClause, CatchAllClause]

  /** `isinstance(e, C)` for the class `C` that clause `c` names. */
  predicate Catches(c: Clause, e: Raised) {
    match c
    case SslClause => e.SSLError?
    case ConnectionClause => e.SSLError? || e.ProxyError? || e.ConnectTimeout? || e.ConnectionError?
    case TimeoutClause => e.ConnectTimeout? || e.ReadTimeout? || e.Timeout?
    case RedirectsClause => e.TooManyRedirects?
    case RequestClause => !e.OtherException?
    case CatchAllClause => true
  }

  /** Python runs the first except clause whose class matches. */
  function FirstCatching(e: Raised, clauses: seq<Clause>): (i: nat)
    requires exists k :: 0 <= k < |clauses| && Catches(clauses[k], e)
    ensures i < |clauses| && Catches(clauses[i], e)
    ensures forall j :: 0 <= j < i ==> !Catches(clauses[j], e)
  {
    if Catches(clauses[0], e) then 0
    else
      assert exists k :: 0 <= k < |clauses[1..]| && Catches(clauses[1..][k], e) by {
        var k :| 0 <= k < |clauses| && Catches(clauses[k], e);
        assert clauses[1..][k - 1] == clauses[k];
      }
      1 + FirstCatching(e, clauses[1..])
  }

  /** Where a clause stands in `ClauseOrder`. */
  function Position(c: Clause): (i: nat)
    ensures i < |ClauseOrder| && ClauseOrder[i] == c
  {
    match c
    case SslClause => 0
    case ConnectionClause => 1
    case TimeoutClause => 2
    case RedirectsClause => 3
    case RequestClause => 4
    case CatchAllClause => 5
  }

  /** The except clause that handles `e` in `check_website_health`: one that
      catches it, with no clause written before it catching it too. */
  function HandlerOf(e: Raised): (c: Clause)
    ensures Catches(c, e)
    ensures forall earlier: Clause :: Position(earlier) < Position(c) ==> !Catches(earlier, e)
  {
    assert Catches(ClauseOrder[5], e);
    var i := FirstCatching(e, ClauseOrder);
    assert Position(ClauseOrder[i]) == i;
    ClauseOrder[i]
  }

  /** A subclass listed earlier wins: an SSLError is reported as an SSL error
      although it is a ConnectionError, and a ConnectTimeout as a connection
      error although it is a Timeout. */
  lemma ExceptOrderDecides()
    ensures Catches(ConnectionClause, SSLError) && HandlerOf(SSLError) == SslClause
    ensures Catches(TimeoutClause, ConnectTimeout) && HandlerOf(ConnectTimeout) == ConnectionClause
    ensures HandlerOf(ReadTimeout) == TimeoutClause
    ensures HandlerOf(OtherException) == CatchAllClause
  {
  }

  /** The parts of the final URL that the check reads: its text, and the
      scheme, hostname and port `urlparse` splits it into. */
  datatype FinalUrl = FinalUrl(text: string, scheme: string, hostname: Option<string>, port: Option<int>)

  /** The result of the GET: a final response after redirects (if followed),
      with the elapsed wall-clock time in seconds, or a raised exception with
      its `str(e)` text. */
  datatype Outcome =
    | Response(statusCode: int, final: FinalUrl, elapsed: real)
    | Failed(raised: Raised, detail: string)

  /** The certificate's `notAfter` field: one `strptime` can read, as the
      instant (seconds since the epoch, UTC) with its `strftime` rendering, or
      one it cannot read. */
  datatype NotAfter = Stamp(instant: int, formatted: string) | Unreadable

  /** Why opening the TLS connection failed: the three except clauses of the inspector. */
  datatype HandshakeFailure = TlsFailure | ResolutionFailure | OtherFailure

  /** The raw TLS connection to (hostname, port): failed, or established with
      the peer certificate, which may lack `notAfter`. */
  datatype Handshake = Refused(why: HandshakeFailure) | Established(notAfter: Option<NotAfter>)

  /** Everything outside the program that one check observes: the ISO
      timestamp at its start, the network's answer to the GET and to a TLS
      handshake, and the current instant (whole seconds, UTC) when the
      certificate is read. */
  datatype World = World(
    timestamp: string,
    get: (string, int, bool) -> Outcome,
    tls: (Option<string>, int) -> Handshake,
    now: int)

  /** `parsed_url.port or 443`: an absent port, and port 0 (falsy in Python), mean 443. */
  function TlsPort(port: Option<int>): (p: int)
    ensures p == 443 || (port.Some? && p == port.value && p != 0)
    ensures port.Some? && port.value != 0 ==> p == port.value
  {
    if port.Some? && port.value != 0 then port.value else 443
  }
}
