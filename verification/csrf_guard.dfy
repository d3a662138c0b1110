/**
 * The double-submit CSRF guard: unsafe requests must carry the same
 * non-empty token in the `csrfToken` cookie and the `x-csrf-token` header,
 * except on the login and refresh routes.
 */
module CsrfGuard {
  import opened Wrappers
  import opened Text
  import opened HttpErrors

  const CookieName: string := "csrfToken"
  const HeaderName: string := "x-csrf-token"
  const SafeMethods: set<string> := {"GET", "HEAD", "OPTIONS"}
  const LoginSuffix: string := "/auth/login"
  const RefreshSuffix: string := "/auth/refresh"
  const InvalidCsrf: string := "invalid csrf token"

  /** A header value as Node delivers it: one string, or a list for repeated headers. */
  datatype HeaderValue = One(text: string) | Many(values: seq<string>)

  /**
   * The parts of a request the guard reads (`verb` is `request.method`).
   * An absent cookie or header
   * table is the empty map.
   */
  datatype Request = Request(
    verb: Option<string>,
    path: Option<string>,
    url: Option<string>,
    originalUrl: Option<string>,
    cookies: map<string, string>,
    headers: map<string, HeaderValue>)

  /** One trailing "/" dropped from a path longer than one character. */
  function Normalize(requestPath: string): string {
    if |requestPath| > 1 && EndsWith(requestPath, "/") then requestPath[..|requestPath| - 1] else requestPath
  }

  /**
   * For a suffix that does not itself end with "/", the normalised path
   * ends with it exactly when the path ends with it, with or without one
   * trailing slash.
   */
  lemma NormalizedEndsWith(p: string, x: string)
    requires |x| > 1 && x[|x| - 1] != '/'
    ensures EndsWith(Normalize(p), x) <==> EndsWith(p, x) || EndsWith(p, x + "/")
  {
    if |p| > 1 && EndsWith(p, "/") {
      var q := p[..|p| - 1];
      assert p[|p| - 1] == '/';
      assert p == q + "/";
      if EndsWith(q, x) {
        assert p[|p| - |x + "/"|..] == q[|q| - |x|..] + "/";
      }
      if EndsWith(p, x + "/") {
        assert q[|q| - |x|..] == p[|p| - |x + "/"|..][..|x|];
      }
    }
  }

  /**
   * `isCsrfExcludedPath`: the path with one trailing "/" dropped ends with
   * "/auth/login" or "/auth/refresh". These are exactly the paths ending in
   * one of the two route suffixes, with or without one trailing slash.
   */
  function IsCsrfExcludedPath(requestPath: string): (r: bool)
    ensures r <==>
      || EndsWith(requestPath, LoginSuffix) || EndsWith(requestPath, RefreshSuffix)
      || EndsWith(requestPath, LoginSuffix + "/") || EndsWith(requestPath, RefreshSuffix + "/")
  {
    NormalizedEndsWith(requestPath, LoginSuffix);
    NormalizedEndsWith(requestPath, RefreshSuffix);
    EndsWith(Normalize(requestPath), LoginSuffix) || EndsWith(Normalize(requestPath), RefreshSuffix)
  }

  /**
   * `extractRequestPath`: the first of `originalUrl`, `url`, `path` that is
   * present (else ""), cut before its first "?".
   */
  function ExtractRequestPath(request: Request): (r: string)
    ensures var raw := request.originalUrl.GetOr(request.url.GetOr(request.path.GetOr("")));
      && |r| <= |raw|
      && r == raw[..|r|]
      && '?' !in r
      && (|r| < |raw| ==> raw[|r|] == '?')
  {
    var raw := request.originalUrl.GetOr(request.url.GetOr(request.path.GetOr("")));
    var queryStart := IndexOf(raw, '?');
    if queryStart >= 0 then raw[..queryStart] else raw
  }

  /** The raw header value: element 0 of a list, "" for an empty list or a missing header. */
  function HeaderText(headers: map<string, HeaderValue>): string {
    if HeaderName !in headers then ""
    else match headers[HeaderName]
      case One(text) => text
      case Many(values) => if |values| == 0 then "" else values[0]
  }

  /**
   * `readCsrfHeader`: the trimmed header value; of a repeated header, the
   * first value.
   */
  function ReadCsrfHeader(headers: map<string, HeaderValue>): (r: string)
    ensures HeaderName !in headers ==> r == ""
    ensures HeaderName in headers ==> match headers[HeaderName]
      case One(text) => r == Trim(text)
      case Many(values) => r == (if |values| == 0 then "" else Trim(values[0]))
    ensures r == Trim(r)
  {
    TrimIdempotent(HeaderText(headers));
    Trim(HeaderText(headers))
  }

  /** The trimmed cookie value, "" when absent. */
  function ReadCsrfCookie(cookies: map<string, string>): (r: string)
    ensures CookieName in cookies ==> r == Trim(cookies[CookieName])
    ensures CookieName !in cookies ==> r == ""
    ensures r == Trim(r)
  {
    var raw := if CookieName in cookies then cookies[CookieName] else "";
    TrimIdempotent(raw);
    Trim(raw)
  }

  /** The method, defaulting to "GET", upper-cased. */
  function RequestMethod(request: Request): string {
    ToUpper(request.verb.GetOr("GET"))
  }

  /**
   * `CsrfGuard.canActivate`: returns true or throws Forbidden; it never
   * returns false.
   */
  function CanActivate(request: Request): (r: Result<bool, HttpError>)
    ensures r.Ok? ==> r.value
    ensures r.Err? ==> r.error == HttpError(Forbidden, InvalidCsrf)
    ensures RequestMethod(request) in SafeMethods ==> r.Ok?
    ensures IsCsrfExcludedPath(ExtractRequestPath(request)) ==> r.Ok?
    ensures r.Err? <==>
      && RequestMethod(request) !in SafeMethods
      && !IsCsrfExcludedPath(ExtractRequestPath(request))
      && !(ReadCsrfCookie(request.cookies) != ""
           && ReadCsrfCookie(request.cookies) == ReadCsrfHeader(request.headers))
  {
    if RequestMethod(request) in SafeMethods then Ok(true)
    else if IsCsrfExcludedPath(ExtractRequestPath(request)) then Ok(true)
    else
      var cookieToken := ReadCsrfCookie(request.cookies);
      var headerToken := ReadCsrfHeader(request.headers);
      if cookieToken == "" || headerToken == "" || cookieToken != headerToken then
        Err(HttpError(Forbidden, InvalidCsrf))
      else Ok(true)
  }

  /** A GET request passes whatever its cookies and headers hold. */
  lemma GetAlwaysPasses(request: Request)
    requires request.verb == Some("get") || request.verb == Some("GET") || request.verb.None?
    ensures CanActivate(request) == Ok(true)
  {
    var m := RequestMethod(request);
    assert m == "GET";
  }

  /**
   * An unsafe request passes exactly when its route is excluded, or its
   * raw cookie and the first value of its raw header trim to the same
   * non-empty token.
   */
  lemma MatchingPairPasses(request: Request)
    requires RequestMethod(request) !in SafeMethods
    ensures CanActivate(request) == Ok(true) <==>
      || IsCsrfExcludedPath(ExtractRequestPath(request))
      || (&& CookieName in request.cookies
          && Trim(request.cookies[CookieName]) != ""
          && Trim(request.cookies[CookieName]) == Trim(HeaderText(request.headers)))
  {
    assert ReadCsrfHeader(request.headers) == Trim(HeaderText(request.headers));
  }

  /** A header padded with leading white space still matches its cookie. */
  lemma PaddedHeaderPasses(request: Request, token: string, pad: string)
    requires RequestMethod(request) !in SafeMethods
    requires CookieName in request.cookies && request.cookies[CookieName] == token && Trim(token) != ""
    requires HeaderText(request.headers) == pad + token
    requires forall i | 0 <= i < |pad| :: IsSpace(pad[i])
    ensures CanActivate(request) == Ok(true)
  {
    TrimLeading(pad, token);
    MatchingPairPasses(request);
  }

  /** Leading white space does not change the trimmed value. */
  lemma {:induction false} TrimStartLeading(pad: string, s: string)
    requires forall i | 0 <= i < |pad| :: IsSpace(pad[i])
    ensures TrimStart(pad + s) == TrimStart(s)
    decreases |pad|
  {
    if |pad| > 0 {
      assert (pad + s)[0] == pad[0];
      assert (pad + s)[1..] == pad[1..] + s;
      TrimStartLeading(pad[1..], s);
    } else {
      assert pad + s == s;
    }
  }

  lemma TrimLeading(pad: string, s: string)
    requires forall i | 0 <= i < |pad| :: IsSpace(pad[i])
    ensures Trim(pad + s) == Trim(s)
  {
    TrimStartLeading(pad, s);
  }

  /** The query string plays no part in the exclusion decision. */
  lemma QueryDoesNotExcludeOrInclude(request: Request, query: string)
    requires request.originalUrl.Some?
    requires '?' !in request.originalUrl.value
    ensures ExtractRequestPath(request.(originalUrl := Some(request.originalUrl.value + "?" + query)))
              == ExtractRequestPath(request)
  {
    var raw := request.originalUrl.value;
    var raw' := raw + "?" + query;
    assert raw'[|raw|] == '?';
    var r := ExtractRequestPath(request.(originalUrl := Some(raw')));
    assert r == raw'[..|r|];
    assert raw'[..|raw|] == raw;
  }
}
