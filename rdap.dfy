/**
 * Classification of one RDAP lookup of a domain name (RFC 7480, RFC 9082).
 *
 * The monitor issues a single GET of `<base>/domain/<name>` asking for
 * `application/rdap+json` (section 4.2 of RFC 7480, section 3.1.3 of RFC 9082)
 * and turns the outcome into `available`, `registered` or `error`.
 * The network call itself is not modelled: its outcome is an input.
 */
module Rdap {

  import opened Wrappers

  /** The three status values the monitor knows. */
  datatype Status = Registered | Available | Error

  /**
   * What a single lookup produced: the test-mode short cut (no lookup is
   * made at all), an HTTP response with its status code, or an exception
   * thrown by the fetch (network failure, timeout, ...).
   */
  datatype LookupOutcome = TestMode | Http(code: int) | FetchFailed

  /** The value the classifier returns: an `available` flag and a status. */
  datatype CheckResult = CheckResult(available: bool, status: Status)

  /** The request the monitor sends for one domain. */
  datatype Request = Request(verb: string, url: string, accept: string)

  const RdapDomainBase: string := "https://rdap.org/domain/"
  const RdapMediaType: string := "application/rdap+json"
  const NotFound: int := 404

  /** `response.ok` of the Fetch standard: a status in the range 200-299. */
  predicate IsOk(code: int) {
    200 <= code <= 299
  }

  /** The domain name a lookup URL asks about, if it is a domain lookup. */
  function RequestedDomain(url: string): (d: Option<string>)
    ensures d.Some? <==> |RdapDomainBase| <= |url| && url[..|RdapDomainBase|] == RdapDomainBase
    ensures d.Some? ==> url == RdapDomainBase + d.value
  {
    if |RdapDomainBase| <= |url| && url[..|RdapDomainBase|] == RdapDomainBase
    then Some(url[|RdapDomainBase|..])
    else None
  }

  /** The one request made for `domain`: a GET that asks for RDAP JSON. */
  function LookupRequest(domain: string): (q: Request)
    ensures q.verb == "GET" && q.accept == RdapMediaType
    ensures RequestedDomain(q.url) == Some(domain)
  {
    var url := RdapDomainBase + domain;
    assert url[..|RdapDomainBase|] == RdapDomainBase;
    Request("GET", url, RdapMediaType)
  }

  /**
   * Turns the outcome of the lookup into a result. Test mode is `available`
   * without consulting anything; 404 is a negative answer (RFC 7480 section
   * 5.3), so the name is `available`; any other 2xx is a positive answer
   * (section 5.1), so it is `registered`; every other status (429 of section
   * 5.5, 5xx, 3xx, ...) and every fetch exception is `error`.
   */
  function Classify(outcome: LookupOutcome): (r: CheckResult)
    ensures r.available <==> r.status == Available
    ensures r.status == Available <==> outcome.TestMode? || (outcome.Http? && outcome.code == NotFound)
    ensures r.status == Registered <==> outcome.Http? && IsOk(outcome.code)
    ensures r.status == Error <==> outcome.FetchFailed? || (outcome.Http? && outcome.code != NotFound && !IsOk(outcome.code))
  {
    match outcome
    case TestMode => CheckResult(true, Available)
    case Http(code) =>
      if code == NotFound then CheckResult(true, Available)
      else if IsOk(code) then CheckResult(false, Registered)
      else CheckResult(false, Error)
    case FetchFailed => CheckResult(false, Error)
  }

  /** Rate limiting (429) and server errors (5xx) are errors, not answers. */
  lemma RateLimitAndServerErrorsAreErrors(code: int)
    requires code == 429 || 500 <= code <= 599
    ensures Classify(Http(code)).status == Error
  {
  }
}
