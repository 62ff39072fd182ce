/**
 * `WebAuthFilter`: the filter in front of every web context. With authentication on,
 * a request for a path that is not public and carries no valid session cookie is
 * refused: API paths get 401, pages are redirected to the login page, remembering the
 * page asked for.
 */
module WebAuth {
  import opened Wrappers
  import opened Text
  import opened Sessions
  import opened Auth

  /** The paths served without a session; an entry ending in "/" covers a whole directory. */
  const PublicPaths: seq<string> :=
    ["/login" + ".html", "/css/" + "login.css", "/js/" + "auth.js", "/api/auth/" + "login",
     "/api/auth/" + "check", "/images/", "/favicon" + ".ico"]

  const LoginPage: string := "/login" + ".html"
  const ApiPrefix: string := "/api/"
  /** The cookie pair prefix the filter looks for; its value starts at index 8. */
  const CookiePrefix: string := "ses" + "sion="

  /** Public: listed, or under a listed directory. */
  predicate Public(path: string) {
    path in PublicPaths || exists p :: p in PublicPaths && EndsWith(p, "/") && StartsWith(path, p)
  }

  /** `isPublicPath`: the exact lookup, then the loop over directory entries. */
  method IsPublicPath(path: string) returns (r: bool)
    ensures r <==> Public(path)
  {
    if path in PublicPaths {
      return true;
    }
    var i := 0;
    while i < |PublicPaths|
      invariant 0 <= i <= |PublicPaths|
      invariant forall j :: 0 <= j < i ==> !(EndsWith(PublicPaths[j], "/") && StartsWith(path, PublicPaths[j]))
    {
      var p := PublicPaths[i];
      if EndsWith(p, "/") && StartsWith(path, p) {
        return true;
      }
      i := i + 1;
    }
    return false;
  }

  /** Everything under `/images/` is public. */
  lemma ImagesArePublic(path: string)
    requires StartsWith(path, "/images/")
    ensures Public(path)
  {
    assert PublicPaths[5] == "/images/";
  }

  /** The login page is public, so the redirect target is never itself redirected. */
  lemma LoginPageIsPublic()
    ensures Public(LoginPage)
  {
  }

  /** The cookie pair the filter accepts: trimmed, starting with `session=`, the rest is the id. */
  function CookieValue(pair: string): (r: Option<string>)
    ensures r.Some? <==> StartsWith(JavaTrim(pair), CookiePrefix)
    ensures r.Some? ==> JavaTrim(pair) == CookiePrefix + r.value
  {
    var c := JavaTrim(pair);
    if StartsWith(c, CookiePrefix) then Some(c[|CookiePrefix|..]) else None
  }

  /** The id of the first accepted pair of a header. */
  function FirstCookieValue(pairs: seq<string>): Option<string>
    decreases |pairs|
  {
    if |pairs| == 0 then None
    else if CookieValue(pairs[0]).Some? then CookieValue(pairs[0])
    else FirstCookieValue(pairs[1..])
  }

  /** The id found is the value of some pair, and every pair before it is not a session pair. */
  lemma {:induction false} FirstCookieValueIsFirst(pairs: seq<string>)
    ensures FirstCookieValue(pairs).None? <==> forall k :: 0 <= k < |pairs| ==> CookieValue(pairs[k]).None?
    ensures FirstCookieValue(pairs).Some? ==> exists k :: 0 <= k < |pairs| && FirstCookieValue(pairs) == CookieValue(pairs[k]) && forall j :: 0 <= j < k ==> CookieValue(pairs[j]).None?
    decreases |pairs|
  {
    if |pairs| > 0 {
      FirstCookieValueIsFirst(pairs[1..]);
      assert forall k :: 1 <= k < |pairs| ==> pairs[k] == pairs[1..][k - 1];
      if CookieValue(pairs[0]).None? && FirstCookieValue(pairs).Some? {
        var k :| 0 <= k < |pairs[1..]| && FirstCookieValue(pairs[1..]) == CookieValue(pairs[1..][k]) && forall j :: 0 <= j < k ==> CookieValue(pairs[1..][j]).None?;
        assert FirstCookieValue(pairs) == CookieValue(pairs[k + 1]);
        forall j | 0 <= j < k + 1
          ensures CookieValue(pairs[j]).None?
        {
          if j > 0 {
            assert pairs[j] == pairs[1..][j - 1];
          }
        }
      }
    }
  }

  /**
   * `getSessionId`: only the first `Cookie` header is read (`getFirst`), split on ';',
   * and the first accepted pair gives the id.
   */
  method GetSessionId(cookieHeader: Option<string>) returns (id: Option<string>)
    ensures cookieHeader.None? ==> id.None?
    ensures cookieHeader.Some? ==> id == FirstCookieValue(JavaSplit(cookieHeader.value, ';'))
  {
    if cookieHeader.None? {
      return None;
    }
    var cookies := JavaSplit(cookieHeader.value, ';');
    var i := 0;
    while i < |cookies|
      invariant 0 <= i <= |cookies|
      invariant FirstCookieValue(cookies[i..]) == FirstCookieValue(cookies)
    {
      var cookie := JavaTrim(cookies[i]);
      if StartsWith(cookie, CookiePrefix) {
        return Some(cookie[8..]);
      }
      assert cookies[i..][1..] == cookies[i + 1..];
      i := i + 1;
    }
    return None;
  }

  /** The filter's id of a request, given its `Cookie` headers in order. */
  function FilterSession(cookieHeaders: seq<string>): Option<string> {
    if |cookieHeaders| == 0 then None else FirstCookieValue(JavaSplit(cookieHeaders[0], ';'))
  }

  /** For the cookie a login sets, the filter and the controller read the same id. */
  lemma FilterReadsLoginCookie(sessionId: string)
    requires sessionId != "" && '=' !in sessionId && ';' !in sessionId
    requires sessionId[|sessionId| - 1] > ' '
    ensures FilterSession([SessionKey + "=" + sessionId]) == Some(sessionId)
    ensures FilterSession([SessionKey + "=" + sessionId]) == CookieSession([SessionKey + "=" + sessionId])
  {
    var c := SessionKey + "=" + sessionId;
    assert ';' !in c by {
      assert c == SessionKey + ['='] + sessionId;
    }
    FieldsOfSepFree(c, ';');
    assert JavaTrim(c) == c by {
      assert c[0] == 's' && c[|c| - 1] == sessionId[|sessionId| - 1];
    }
    assert c == CookiePrefix + sessionId;
    assert CookieValue(c) == Some(sessionId);
    CookieRoundTrip(sessionId);
  }

  /**
   * The filter and the controller can disagree: the filter reads only the first
   * `Cookie` header, the controller lets the last header that carries a session decide.
   */
  lemma FilterReadsFirstHeaderOnly(cookieHeaders: seq<string>)
    requires |cookieHeaders| >= 2
    requires FirstCookieValue(JavaSplit(cookieHeaders[0], ';')).None?
    requires HeaderSession(cookieHeaders[|cookieHeaders| - 1]).Some?
    ensures FilterSession(cookieHeaders).None?
    ensures CookieSession(cookieHeaders) == HeaderSession(cookieHeaders[|cookieHeaders| - 1])
  {
  }

  /** What the filter does with a request. */
  datatype Outcome =
    | Pass
    /** 401 with a JSON error body. */
    | Unauthorized
    /** 302 with this `Location`. */
    | Redirect(location: string)
    /** The `enabled` setting is not a boolean: the cast throws. */
    | Failed

  /** The refusal of a request for `path` without a valid session. */
  function Refusal(path: string): (r: Outcome)
    ensures StartsWith(path, ApiPrefix) <==> r == Unauthorized
    ensures r.Redirect? ==> StartsWith(r.location, LoginPage)
    ensures r.Redirect? && (path == "/" || path == "/index.html") ==> r.location == LoginPage
    ensures r.Redirect? && path != "/" && path != "/index.html" ==> r.location == LoginPage + "?redirect=" + path
  {
    if StartsWith(path, ApiPrefix) then Unauthorized
    else if path != "/" && path != "/index.html" then Redirect(LoginPage + "?redirect=" + path)
    else Redirect(LoginPage)
  }

  /**
   * The filter's decision. `authenticated` is consulted only for a protected path with
   * authentication on: it is the session check's verdict.
   */
  function Decide(enabled: Result<bool, string>, path: string, authenticated: bool): Outcome {
    if enabled.Err? then Failed
    else if !enabled.value || Public(path) || authenticated then Pass
    else Refusal(path)
  }

  /** With authentication off every request passes, whatever its session. */
  lemma DisabledPassesAll(path: string, authenticated: bool)
    ensures Decide(Ok(false), path, authenticated) == Pass
  {
  }

  /** A public path passes without a session. */
  lemma PublicPassesWithoutSession(enabled: Result<bool, string>, path: string)
    requires enabled.Ok? && Public(path)
    ensures Decide(enabled, path, false) == Pass
  {
  }

  /** A refused API request is never redirected, and a refused page never lands on an API path. */
  lemma RefusalByKind(enabled: Result<bool, string>, path: string)
    requires Decide(enabled, path, false) != Pass && enabled.Ok?
    ensures StartsWith(path, ApiPrefix) ==> Decide(enabled, path, false) == Unauthorized
    ensures !StartsWith(path, ApiPrefix) ==> Decide(enabled, path, false).Redirect?
  {
  }

  /** With authentication on, a protected path passes exactly with a valid session. */
  lemma ProtectedNeedsSession(path: string, authenticated: bool)
    requires !Public(path)
    ensures Decide(Ok(true), path, authenticated) == Pass <==> authenticated
  {
  }

  class WebAuthFilter {
    const authController: AuthController

    constructor (authController: AuthController)
      ensures this.authController == authController
    {
      this.authController := authController;
    }

    /**
     * `isAuthenticated` (both the instance and the static form): an id from the first
     * `Cookie` header that the session manager admits.
     */
    method IsAuthenticated(cookieHeader: Option<string>, now: int) returns (ok: bool)
      requires authController.Valid()
      modifies authController.sessionManager
      ensures authController.Valid()
      ensures var id := if cookieHeader.None? then None else FirstCookieValue(JavaSplit(cookieHeader.value, ';'));
        (ok, authController.sessionManager.Current()) ==
        Check(old(authController.sessionManager.Current()), old(authController.sessionManager.sessionTimeout), id, now)
      ensures authController.sessionManager.sessionTimeout == old(authController.sessionManager.sessionTimeout)
    {
      var id := GetSessionId(cookieHeader);
      ok := authController.IsValidSession(id, now);
    }

    /**
     * `doFilter` for a request for `path` whose first `Cookie` header is `cookieHeader`.
     * The session is looked up (and so slid or expired) only for a protected path with
     * authentication on.
     */
    method DoFilter(path: string, cookieHeader: Option<string>, now: int) returns (outcome: Outcome)
      requires authController.Valid()
      modifies authController.sessionManager
      ensures authController.Valid()
      ensures var enabled := AuthenticationEnabled(authController.settings);
        var id := if cookieHeader.None? then None else FirstCookieValue(JavaSplit(cookieHeader.value, ';'));
        var (valid, t) := Check(old(authController.sessionManager.Current()), old(authController.sessionManager.sessionTimeout), id, now);
        var consulted := enabled == Ok(true) && !Public(path);
        outcome == Decide(enabled, path, valid) &&
        authController.sessionManager.Current() == (if consulted then t else old(authController.sessionManager.Current()))
      ensures authController.sessionManager.sessionTimeout == old(authController.sessionManager.sessionTimeout)
    {
      var enabled := AuthenticationEnabled(authController.settings);
      if enabled.Err? {
        return Failed;
      }
      if !enabled.value {
        return Pass;
      }
      var public := IsPublicPath(path);
      if public {
        return Pass;
      }
      var ok := IsAuthenticated(cookieHeader, now);
      if ok {
        return Pass;
      }
      outcome := Refusal(path);
    }
  }
}
