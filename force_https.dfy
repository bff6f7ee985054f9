/** `dmutils/force_https.py`: sending plain HTTP requests to HTTPS and
    marking HTTPS responses with a Strict-Transport-Security header. */
module ForceHttps {

  import opened Results
  import opened Text

  const HstsHeader := "Strict-Transport-Security"
  const HstsValue := "max-age=86400"

  /** `init_app(app)`: the two hooks are installed only when the configured
      protocol is `https`, in any case. */
  predicate InstallsHooks(httpProto: string) {
    Lower(httpProto) == "https"
  }

  lemma {:induction false} InstallsHooksCases()
    ensures InstallsHooks("https") && InstallsHooks("HTTPS") && !InstallsHooks("http")
  {
    assert Lower("HTTPS") == "https";
    assert Lower("http") != "https" by { assert |Lower("http")| == 4; }
  }

  /** A 301 redirect to a location. */
  datatype Redirect = Redirect(location: string, code: int)

  /** `redirect_to_ssl()`: a URL that starts with `http://` is sent to the
      same URL with the first `http://` made `https://`. */
  function RedirectToSsl(url: string): (r: Option<Redirect>)
    ensures r.Some? <==> StartsWith(url, "http://")
  {
    if StartsWith(url, "http://") then Some(Redirect(ReplaceFirst(url, "http://", "https://"), 301))
    else None
  }

  /** The redirect keeps everything after the scheme. */
  lemma {:induction false} RedirectTarget(url: string)
    requires StartsWith(url, "http://")
    ensures RedirectToSsl(url) == Some(Redirect("https://" + url[7..], 301))
  {
  }

  /** HTTPS URLs are let through. */
  lemma {:induction false} HttpsNotRedirected(url: string)
    requires StartsWith(url, "https://")
    ensures RedirectToSsl(url).None?
  {
    assert url[4] == url[..8][4] == 's';
    assert url[..7][4] != "http://"[4];
  }

  /** The header list of a response; names compare without regard to case. */
  class Response {
    var headers: seq<(string, string)>

    constructor(headers: seq<(string, string)>)
      ensures this.headers == headers
    {
      this.headers := headers;
    }
  }

  predicate HasHeader(headers: seq<(string, string)>, name: string) {
    exists k :: 0 <= k < |headers| && Lower(headers[k].0) == Lower(name)
  }

  /** `set_hsts_header(response)`: for an HTTPS URL, the HSTS header is
      added unless the response already has one (`setdefault`); the same
      response is returned. */
  method SetHstsHeader(response: Response, url: string) returns (r: Response)
    modifies response
    ensures r == response
    ensures response.headers == WithHsts(old(response.headers), url)
  {
    if StartsWith(url, "https://") && !HasHeader(response.headers, HstsHeader) {
      response.headers := response.headers + [(HstsHeader, HstsValue)];
    }
    r := response;
  }

  /** The headers after `set_hsts_header`, as a function of those before. */
  function WithHsts(headers: seq<(string, string)>, url: string): seq<(string, string)> {
    if StartsWith(url, "https://") && !HasHeader(headers, HstsHeader)
    then headers + [(HstsHeader, HstsValue)]
    else headers
  }

  /** After the hook an HTTPS response has the header, an existing value is
      never replaced, and the headers before are all kept in place. */
  lemma {:induction false} WithHstsMeaning(headers: seq<(string, string)>, url: string)
    ensures StartsWith(url, "https://") ==> HasHeader(WithHsts(headers, url), HstsHeader)
    ensures HasHeader(headers, HstsHeader) || !StartsWith(url, "https://") ==> WithHsts(headers, url) == headers
    ensures |WithHsts(headers, url)| >= |headers| && WithHsts(headers, url)[..|headers|] == headers
  {
    var r := WithHsts(headers, url);
    if StartsWith(url, "https://") && !HasHeader(headers, HstsHeader) {
      assert r[|headers|] == (HstsHeader, HstsValue);
    }
  }
}
