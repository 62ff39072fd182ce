/**
 * The proxy's web server (`BungeeWebServer`): which handler a request reaches, the
 * static-file handler's own session rule, the content type of a served file, the query
 * parameter lookup, and the dispatch of the data API and of the login API.
 */
module WebRouting {
  import opened Wrappers
  import opened Text
  import opened Sessions
  import opened Auth
  import opened WebAuth
  import Store
  import Listener

  // ---------------------------------------------------------------- content types

  /** `MIME_TYPES`: lower-case extension -> content type. */
  const MimeTypes: map<string, string> := map[
    "html" := "text/" + "html", "css" := "text/" + "css", "js" := "application/" + "javascript",
    "json" := "application/" + "json", "png" := "image/" + "png", "jpg" := "image/" + "jpeg",
    "jpeg" := "image/" + "jpeg", "gif" := "image/" + "gif", "ico" := "image/" + "x-icon",
    "cnf" := "text/" + "plain"]

  const OctetStream: string := "application/" + "octet-stream"

  /** The lower-cased text after the last '.', when that dot is not the first character. */
  function Extension(fileName: string): (r: Option<string>)
    ensures r.Some? <==> exists d :: LastIndexOf(fileName, '.') == Some(d) && d > 0
  {
    match LastIndexOf(fileName, '.')
    case Some(d) => if d > 0 then Some(Lower(fileName[d + 1..])) else None
    case None => None
  }

  /** `getContentType`: the mapped type of the extension, or `application/octet-stream`. */
  function ContentType(fileName: string): (r: string)
    ensures r == OctetStream || r in MimeTypes.Values
    ensures r != OctetStream ==> Extension(fileName).Some? && Extension(fileName).value in MimeTypes
  {
    var ext := Extension(fileName);
    if ext.Some? && ext.value in MimeTypes then MimeTypes[ext.value] else OctetStream
  }

  /** The last dot of `stem.ext` is the one before `ext` when `ext` has no dot. */
  lemma LastDot(stem: string, ext: string)
    requires '.' !in ext
    ensures LastIndexOf(stem + "." + ext, '.') == Some(|stem|)
  {
    var s := stem + "." + ext;
    assert s[|stem|] == '.';
    assert s[|stem| + 1..] == ext;
  }

  /** A file `stem.ext` with a non-empty stem gets the type of its extension, in any letter case. */
  lemma ContentTypeOfExtension(stem: string, ext: string)
    requires stem != "" && '.' !in ext
    ensures Extension(stem + "." + ext) == Some(Lower(ext))
    ensures Lower(ext) in MimeTypes ==> ContentType(stem + "." + ext) == MimeTypes[Lower(ext)]
    ensures Lower(ext) !in MimeTypes ==> ContentType(stem + "." + ext) == OctetStream
  {
    LastDot(stem, ext);
    assert (stem + "." + ext)[|stem| + 1..] == ext;
  }

  /** A name without a dot, or whose only dot is its first character, is served as bytes. */
  lemma NoExtensionIsOctetStream(fileName: string)
    requires '.' !in fileName || (fileName[0] == '.' && '.' !in fileName[1..])
    ensures ContentType(fileName) == OctetStream
  {
  }

  // ---------------------------------------------------------------- which handler

  /** The handlers the server registers. */
  datatype Handler = StaticFiles | DataApi | LoginApi

  const AuthApiPrefix: string := "/api/" + "auth/"
  const PlayersPath: string := "/api/" + "players"
  const ServersPath: string := "/api/" + "servers"
  const PlayerPrefix: string := "/api/" + "player/"

  /** The contexts `start` creates: the login API only when an auth controller is set. */
  function Contexts(withAuth: bool): (r: seq<(string, Handler)>)
    ensures (AuthApiPrefix + "login", LoginApi) in r <==> withAuth
  {
    (if withAuth
     then [(AuthApiPrefix + "login", LoginApi), (AuthApiPrefix + "logout", LoginApi), (AuthApiPrefix + "check", LoginApi)]
     else []) +
    [("/", StaticFiles), (PlayersPath, DataApi), (ServersPath, DataApi), (PlayerPrefix, DataApi)]
  }

  /** The context whose path is the longest prefix of the request path, as the JDK server chooses. */
  function Longest(path: string, contexts: seq<(string, Handler)>): (r: Option<(string, Handler)>)
    ensures r.None? <==> forall k :: 0 <= k < |contexts| ==> !StartsWith(path, contexts[k].0)
    ensures r.Some? ==> r.value in contexts && StartsWith(path, r.value.0)
    ensures r.Some? ==> forall k :: 0 <= k < |contexts| && StartsWith(path, contexts[k].0) ==> |contexts[k].0| <= |r.value.0|
    decreases |contexts|
  {
    if |contexts| == 0 then None
    else
      var rest := Longest(path, contexts[1..]);
      assert forall k :: 1 <= k < |contexts| ==> contexts[k] == contexts[1..][k - 1];
      if StartsWith(path, contexts[0].0) && (rest.None? || |contexts[0].0| >= |rest.value.0|) then Some(contexts[0])
      else rest
  }

  /** The handler of a request; every path starts with "/", so one is always found. */
  function Route(path: string, withAuth: bool): (r: Handler)
    requires StartsWith(path, "/")
  {
    var c := Longest(path, Contexts(withAuth));
    assert Contexts(withAuth)[|Contexts(withAuth)| - 4] == ("/", StaticFiles);
    c.value.1
  }

  /** The login API is reached only under `/api/auth/`, and only when it is registered. */
  lemma LoginApiOnlyUnderItsPrefix(path: string, withAuth: bool)
    requires StartsWith(path, "/")
    ensures Route(path, withAuth) == LoginApi ==> withAuth && StartsWith(path, AuthApiPrefix)
  {
    var cs := Contexts(withAuth);
    assert cs[|cs| - 4] == ("/", StaticFiles);
    var c := Longest(path, cs).value;
    if c.1 == LoginApi {
      var k :| 0 <= k < |cs| && cs[k] == c;
      assert withAuth && k < 3;
      assert c.0[..|AuthApiPrefix|] == AuthApiPrefix;
    }
  }

  /** The data API is reached only under its three registered paths. */
  lemma DataApiOnlyUnderItsPaths(path: string, withAuth: bool)
    requires StartsWith(path, "/")
    ensures Route(path, withAuth) == DataApi ==>
      StartsWith(path, PlayersPath) || StartsWith(path, ServersPath) || StartsWith(path, PlayerPrefix)
  {
    var cs := Contexts(withAuth);
    assert cs[|cs| - 4] == ("/", StaticFiles);
    var c := Longest(path, cs).value;
    if c.1 == DataApi {
      var k :| 0 <= k < |cs| && cs[k] == c;
      assert k >= |cs| - 3;
    }
  }

  // ---------------------------------------------------------------- static files

  const IndexPage: string := "/index" + ".html"

  /** The static handler's exemptions: the login page and four directories. */
  predicate NeedsAuth(path: string) {
    !(path == LoginPage || StartsWith(path, AuthApiPrefix) || StartsWith(path, "/css/") ||
      StartsWith(path, "/js/") || StartsWith(path, "/img/"))
  }

  /** What the static handler does: redirect to the login page, or look up this resource name. */
  datatype StaticOutcome = ToLogin | Serve(resource: string)

  /**
   * The static handler's decision: "/" means the index page; with an auth controller set,
   * a path that needs a session and has no valid one is sent to the login page (with no
   * redirect parameter); otherwise the leading '/' is dropped to name the resource.
   */
  function StaticRoute(path: string, guarded: bool, authenticated: bool): (r: StaticOutcome)
    ensures r == ToLogin <==> guarded && NeedsAuth(if path == "/" then IndexPage else path) && !authenticated
  {
    var p := if path == "/" then IndexPage else path;
    if guarded && NeedsAuth(p) && !authenticated then ToLogin
    else Serve(if StartsWith(p, "/") then p[1..] else p)
  }

  /** The root serves the index page to whoever may see it. */
  lemma RootServesIndex(guarded: bool, authenticated: bool)
    requires !guarded || authenticated
    ensures StaticRoute("/", guarded, authenticated) == Serve("index" + ".html")
  {
    assert IndexPage == "/" + ("index" + ".html");
  }

  /** The resource served for `/x` is `x`: the file lookup never sees the leading slash. */
  lemma ServesWithoutLeadingSlash(name: string, guarded: bool, authenticated: bool)
    requires name != "" && (!guarded || authenticated)
    ensures StaticRoute("/" + name, guarded, authenticated) == Serve(name)
  {
    assert ("/" + name)[1..] == name;
  }

  /**
   * The handler and the filter protect different directories: `/images/` is public for
   * the filter but needs a session here, `/img/` the other way round.
   */
  lemma ImageDirectoriesDiffer(path: string)
    ensures StartsWith(path, "/images/") ==> Public(path) && NeedsAuth(path)
    ensures StartsWith(path, "/img/") ==> !NeedsAuth(path)
  {
    if StartsWith(path, "/images/") {
      ImagesArePublic(path);
      assert path[1] == 'i';
      assert LoginPage[1] == 'l' && AuthApiPrefix[1] == 'a' && "/css/"[1] == 'c' && "/js/"[1] == 'j';
      assert path[4] == 'g' && "/img/"[4] == '/';
    }
  }

  /**
   * `StaticFileHandler.handle` up to the file lookup. The session check is the static
   * `isAuthenticated`: the first `Cookie` header's id, checked by the controller.
   */
  method HandleStatic(path: string, cookieHeader: Option<string>, authController: AuthController?, now: int)
    returns (outcome: StaticOutcome)
    requires authController != null ==> authController.Valid()
    modifies if authController != null then {authController.sessionManager} else {}
    ensures authController != null ==> authController.Valid()
    ensures authController == null ==> outcome == StaticRoute(path, false, false)
    ensures authController != null ==>
      var id := if cookieHeader.None? then None else FirstCookieValue(JavaSplit(cookieHeader.value, ';'));
      var p := if path == "/" then IndexPage else path;
      var (valid, t) := Check(old(authController.sessionManager.Current()), old(authController.sessionManager.sessionTimeout), id, now);
      outcome == StaticRoute(path, true, valid) &&
      authController.sessionManager.Current() == (if NeedsAuth(p) then t else old(authController.sessionManager.Current()))
  {
    var p := path;
    if p == "/" {
      p := IndexPage;
    }
    var needsAuth := true;
    if p == LoginPage || StartsWith(p, AuthApiPrefix) || StartsWith(p, "/css/") || StartsWith(p, "/js/") || StartsWith(p, "/img/") {
      needsAuth := false;
    }
    if needsAuth && authController != null {
      var id := GetSessionId(cookieHeader);
      var authenticated := authController.IsValidSession(id, now);
      if !authenticated {
        return ToLogin;
      }
    }
    if StartsWith(p, "/") {
      p := p[1..];
    }
    outcome := Serve(p);
  }

  // ---------------------------------------------------------------- query parameters

  /** `URLDecoder.decode`; None when it throws on a malformed escape. */
  type Decoder = string -> Option<string>

  /** The decoded value of the first `name=value` pair; the search ends at the first match. */
  function FirstParam(params: seq<string>, name: string, decode: Decoder): Option<string>
    decreases |params|
  {
    if |params| == 0 then None
    else
      var pair := JavaSplit(params[0], '=');
      if |pair| == 2 && pair[0] == name then decode(pair[1]) else FirstParam(params[1..], name, decode)
  }

  /** A parameter `p` matches `name`: it splits on '=' into exactly the name and a value. */
  predicate Matches(param: string, name: string) {
    var pair := JavaSplit(param, '=');
    |pair| == 2 && pair[0] == name
  }

  /** `getQueryParameter`, for a query that may be absent. */
  function QueryParameter(query: Option<string>, name: string, decode: Decoder): Option<string> {
    if query.None? then None else FirstParam(JavaSplit(query.value, '&'), name, decode)
  }

  /** The first matching pair decides, even when its value does not decode. */
  lemma {:induction false} FirstParamIsFirst(params: seq<string>, name: string, decode: Decoder, k: nat)
    requires k < |params| && Matches(params[k], name)
    requires forall j :: 0 <= j < k ==> !Matches(params[j], name)
    ensures FirstParam(params, name, decode) == decode(JavaSplit(params[k], '=')[1])
    decreases k
  {
    if k > 0 {
      assert !Matches(params[0], name);
      forall j | 0 <= j < k - 1
        ensures !Matches(params[1..][j], name)
      {
        assert params[1..][j] == params[j + 1];
      }
      FirstParamIsFirst(params[1..], name, decode, k - 1);
    }
  }

  /** Without a matching pair there is no value. */
  lemma {:induction false} FirstParamAbsent(params: seq<string>, name: string, decode: Decoder)
    requires forall j :: 0 <= j < |params| ==> !Matches(params[j], name)
    ensures FirstParam(params, name, decode) == None
    decreases |params|
  {
    if |params| > 0 {
      assert !Matches(params[0], name);
      assert forall j :: 0 <= j < |params| - 1 ==> params[1..][j] == params[j + 1];
      FirstParamAbsent(params[1..], name, decode);
    }
  }

  /** A query `name=value` yields the decoded value. */
  lemma QueryParameterRoundTrip(name: string, value: string, decode: Decoder)
    requires '=' !in name && '&' !in name && '=' !in value && '&' !in value && value != ""
    ensures QueryParameter(Some(name + "=" + value), name, decode) == decode(value)
  {
    var q := name + "=" + value;
    assert q == name + ['='] + value;
    assert '&' !in q;
    FieldsOfSepFree(q, '&');
    JavaSplitTwo(name, '=', value);
  }

  /** An empty value (`name=`) counts as no parameter: Java's split drops the empty field. */
  lemma EmptyValueIsAbsent(name: string, decode: Decoder)
    requires '=' !in name && '&' !in name
    ensures QueryParameter(Some(name + "="), name, decode) == None
  {
    var q := name + "=";
    assert q == name + ['='] + "";
    assert '&' !in q && '=' in q;
    FieldsOfSepFree(q, '&');
    FieldsCons(name, '=', "");
    FieldsOfSepFree("", '=');
    assert Fields(q, '=') == [name, ""];
    assert !Matches(q, name);
    FirstParamAbsent([q], name, decode);
  }

  /** The loop of `getQueryParameter`. */
  method GetQueryParameter(query: Option<string>, name: string, decode: Decoder) returns (value: Option<string>)
    ensures value == QueryParameter(query, name, decode)
  {
    if query.None? {
      return None;
    }
    var params := JavaSplit(query.value, '&');
    var i := 0;
    while i < |params|
      invariant 0 <= i <= |params|
      invariant FirstParam(params[i..], name, decode) == FirstParam(params, name, decode)
    {
      var pair := JavaSplit(params[i], '=');
      if |pair| == 2 && pair[0] == name {
        return decode(pair[1]);
      }
      assert params[i..][1..] == params[i + 1..];
      i := i + 1;
    }
    return None;
  }

  // ---------------------------------------------------------------- the data API

  const ServerParam: string := "ser" + "ver"

  /** The controller handler a data request is answered by, or the fixed JSON bodies. */
  datatype ApiBody =
    | ServerList
    | PlayerList(server: string)
    | ServerCounts
    | PlayerDetails(server: string, player: string)
    | MissingParameter
    | StatusOk
    | NotInitialized

  datatype ApiResponse =
    /** 200 with no body. */
    | Preflight
    /** 405. */
    | NotAllowed
    /** 200 with a JSON body. */
    | Json(body: ApiBody)
    /** The player name does not URL-decode: the exception leaves the handler. */
    | DecodeFailed

  /** `ApiHandler.handle`'s answer; method names are compared case-sensitively. */
  function ApiRoute(verb: string, path: string, query: Option<string>, decode: Decoder, hasController: bool): ApiResponse {
    if verb == "OPT" + "IONS" then Preflight
    else if verb != "G" + "ET" then NotAllowed
    else if !hasController then Json(NotInitialized)
    else if path == PlayersPath then
      match QueryParameter(query, ServerParam, decode)
      case None => Json(ServerList)
      case Some(s) => Json(PlayerList(s))
    else if path == ServersPath then Json(ServerCounts)
    else if StartsWith(path, PlayerPrefix) then
      match decode(path[|PlayerPrefix|..])
      case None => DecodeFailed
      case Some(player) =>
        var s := QueryParameter(query, ServerParam, decode);
        if s.Some? && player != "" then Json(PlayerDetails(s.value, player)) else Json(MissingParameter)
    else Json(StatusOk)
  }

  /** Controller data is read only by GET requests with a controller set. */
  lemma OnlyGetReadsData(verb: string, path: string, query: Option<string>, decode: Decoder, hasController: bool)
    ensures var r := ApiRoute(verb, path, query, decode, hasController);
      (r.Json? && r.body !in {MissingParameter, StatusOk, NotInitialized}) ==> (verb == "G" + "ET" && hasController)
  {
  }

  /** `/api/players` lists the servers without a `server` parameter and that server's players with one. */
  lemma PlayersByServerParameter(query: Option<string>, decode: Decoder)
    ensures QueryParameter(query, ServerParam, decode).None? ==> ApiRoute("G" + "ET", PlayersPath, query, decode, true) == Json(ServerList)
    ensures QueryParameter(query, ServerParam, decode).Some? ==>
      ApiRoute("G" + "ET", PlayersPath, query, decode, true) == Json(PlayerList(QueryParameter(query, ServerParam, decode).value))
  {
  }

  /** Player details need both a server parameter and a non-empty decoded name. */
  lemma DetailsNeedBoth(name: string, query: Option<string>, decode: Decoder)
    requires decode(name).Some?
    ensures var r := ApiRoute("G" + "ET", PlayerPrefix + name, query, decode, true);
      r.Json? && (r.body.PlayerDetails? <==> QueryParameter(query, ServerParam, decode).Some? && decode(name).value != "")
  {
    assert (PlayerPrefix + name)[..|PlayerPrefix|] == PlayerPrefix;
    assert (PlayerPrefix + name)[|PlayerPrefix|..] == name;
    assert PlayerPrefix + name != PlayersPath && PlayerPrefix + name != ServersPath by {
      assert (PlayerPrefix + name)[11] == '/' && PlayersPath[11] == 's' && ServersPath[5] == 's';
    }
  }

  /** The players and servers lists first ask for a refresh and drop data older than a minute. */
  const RefreshMaxAge: int := 60 * 1000

  predicate Refreshes(verb: string, path: string) {
    verb == "G" + "ET" && (path == PlayersPath || path == ServersPath)
  }

  /**
   * `ApiHandler.handle` with the proxy's player controller (or none). `listener` is what
   * the reflective chain from the controller reaches (null when a step yields null or
   * throws), and `servers` the proxy's servers: when the listener is reached, a refresh is
   * requested from the servers with players, then stale data is swept at `now`.
   */
  method HandleApi(verb: string, path: string, query: Option<string>, decode: Decoder,
                   controller: Store.BungeePlayerController?, listener: Listener.MessageListener?,
                   servers: seq<Store.ServerEntry>, now: int)
    returns (response: ApiResponse)
    requires controller != null ==> controller.Valid()
    modifies if controller != null then {controller} else {}
    modifies if controller != null && listener != null then {listener} else {}
    ensures response == ApiRoute(verb, path, query, decode, controller != null)
    ensures controller != null ==> controller.Valid()
    ensures controller != null && Refreshes(verb, path) && listener != null ==>
      listener.sent == old(listener.sent) + Listener.Addressed(Listener.RefreshTargets(servers)) &&
      listener.registered == old(listener.registered) &&
      controller.playerData == Store.Sweep(old(controller.playerData), old(controller.lastUpdate), now, RefreshMaxAge) &&
      controller.lastUpdate == Store.Sweep(old(controller.lastUpdate), old(controller.lastUpdate), now, RefreshMaxAge)
    ensures controller != null && !(Refreshes(verb, path) && listener != null) ==>
      controller.playerData == old(controller.playerData) && controller.lastUpdate == old(controller.lastUpdate)
    ensures listener != null && !(controller != null && Refreshes(verb, path)) ==>
      listener.sent == old(listener.sent) && listener.registered == old(listener.registered)
  {
    if verb == "OPT" + "IONS" {
      return Preflight;
    }
    if verb != "G" + "ET" {
      return NotAllowed;
    }
    if controller == null {
      return Json(NotInitialized);
    }
    if (path == PlayersPath || path == ServersPath) && listener != null {
      listener.RequestDataRefresh(servers);
      controller.CleanupStaleData(RefreshMaxAge, now);
    }
    if path == PlayersPath {
      var server := GetQueryParameter(query, ServerParam, decode);
      if server.None? {
        response := Json(ServerList);
      } else {
        response := Json(PlayerList(server.value));
      }
    } else if path == ServersPath {
      response := Json(ServerCounts);
    } else if StartsWith(path, PlayerPrefix) {
      var player := decode(path[|PlayerPrefix|..]);
      if player.None? {
        return DecodeFailed;
      }
      var server := GetQueryParameter(query, ServerParam, decode);
      if server.Some? && player.value != "" {
        response := Json(PlayerDetails(server.value, player.value));
      } else {
        response := Json(MissingParameter);
      }
    } else {
      response := Json(StatusOk);
    }
  }

  // ---------------------------------------------------------------- the login API

  /** Where `AuthApiHandler.handle` sends a request. */
  datatype AuthEndpoint =
    | AuthPreflight
    /** 500: no auth controller. */
    | NoController
    | LoginCall
    | LogoutCall
    | CheckCall
    /** 404 naming the path. */
    | UnknownEndpoint(path: string)

  /** `AuthApiHandler.handle`: POST login and logout, GET check, each also under an older path. */
  function AuthRoute(verb: string, path: string, hasController: bool): (r: AuthEndpoint)
    ensures r == LoginCall ==> verb == "PO" + "ST"
    ensures r == CheckCall ==> verb == "G" + "ET"
  {
    var post := verb == "PO" + "ST";
    var get := verb == "G" + "ET";
    if verb == "OPT" + "IONS" then AuthPreflight
    else if !hasController then NoController
    else if post && (path == AuthApiPrefix + "login" || path == "/api/" + "login") then LoginCall
    else if post && (path == AuthApiPrefix + "logout" || path == "/api/" + "logout") then LogoutCall
    else if get && (path == AuthApiPrefix + "check" || path == "/api/" + "session") then CheckCall
    else UnknownEndpoint(path)
  }

  /**
   * The older paths are unreachable: the handler is registered only under `/api/auth/`,
   * so a request it receives is answered as if they did not exist.
   */
  lemma OlderAuthPathsUnreachable(verb: string, path: string)
    requires StartsWith(path, "/") && Route(path, true) == LoginApi
    ensures path != "/api/" + "login" && path != "/api/" + "logout" && path != "/api/" + "session"
    ensures AuthRoute(verb, path, true) == LoginCall ==> path == AuthApiPrefix + "login"
    ensures AuthRoute(verb, path, true) == CheckCall ==> path == AuthApiPrefix + "check"
  {
    LoginApiOnlyUnderItsPrefix(path, true);
    assert path[5] == 'a' && path[6] == 'u';
  }
}
