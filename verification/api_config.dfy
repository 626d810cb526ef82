/**
 * How the frontend chooses the backend's base URL, derives the health-check
 * URL from it, and picks the message to show for a failed request.
 *
 * The build-time variable `VITE_API_BASE_URL` and the browser's
 * `window.location` are parameters: an absent variable or window is `None`.
 */
module ApiConfig {
  import opened Wrappers
  import opened Strings

  /** The two fields of `window.location` that are read. */
  datatype Location = Location(hostname: string, origin: string)

  const LocalApi: string := "http://localhost:4000/api"
  const DeployedApi: string := "https://pocket-money-server.vercel.app/api"
  const DefaultError: string := "An unexpected error occurred"

  /** `s.replace(/\/$/, '')`: one trailing slash, if any, is removed. */
  function DropSlash(s: string): (r: string)
    ensures r + (if EndsWith(s, "/") then "/" else "") == s
  {
    ReplaceSuffix(s, "/", "")
  }

  /**
   * `resolveApiBaseUrl`: a non-blank configured URL wins; in a browser,
   * local hosts use the local server, `*vercel.app` hosts the deployed one,
   * and any other host its own origin's `/api`; outside a browser, the
   * local server.
   */
  function ResolveApiBaseUrl(envUrl: Option<string>, window: Option<Location>): (r: string)
    ensures envUrl.Some? && Trim(envUrl.value) != [] ==> r == DropSlash(Trim(envUrl.value))
    ensures (envUrl.None? || Trim(envUrl.value) == []) && window.None? ==> r == LocalApi
  {
    var env := if envUrl.Some? then Trim(envUrl.value) else "";
    if env != [] then DropSlash(env)
    else if window.Some? then
      var loc := window.value;
      if loc.hostname == "localhost" || loc.hostname == "127.0.0.1" then LocalApi
      else if EndsWith(loc.hostname, "vercel.app") then DeployedApi
      else DropSlash(loc.origin) + "/api"
    else LocalApi
  }

  /** With no configured URL, a browser's host decides the result. */
  lemma BrowserResolution(envUrl: Option<string>, loc: Location)
    requires envUrl.None? || Trim(envUrl.value) == []
    ensures loc.hostname in {"localhost", "127.0.0.1"} ==> ResolveApiBaseUrl(envUrl, Some(loc)) == LocalApi
    ensures loc.hostname !in {"localhost", "127.0.0.1"} && EndsWith(loc.hostname, "vercel.app") ==>
              ResolveApiBaseUrl(envUrl, Some(loc)) == DeployedApi
    ensures loc.hostname !in {"localhost", "127.0.0.1"} && !EndsWith(loc.hostname, "vercel.app") ==>
              ResolveApiBaseUrl(envUrl, Some(loc)) == DropSlash(loc.origin) + "/api"
  {
  }

  /** A configured URL makes the window irrelevant: nothing else is consulted. */
  lemma ConfiguredIgnoresWindow(env: string, w1: Option<Location>, w2: Option<Location>)
    requires Trim(env) != []
    ensures ResolveApiBaseUrl(Some(env), w1) == ResolveApiBaseUrl(Some(env), w2)
  {
  }

  /** The health-check URL: a trailing `/api` becomes `/`. */
  function RootUrl(base: string): (r: string)
    ensures EndsWith(base, "/api") ==> r + "api" == base
    ensures !EndsWith(base, "/api") ==> r == base
  {
    var r := ReplaceSuffix(base, "/api", "/");
    assert EndsWith(base, "/api") ==> base == base[..|base| - 4] + "/api";
    r
  }

  /** Every URL of the form `prefix + "/api"` has `prefix + "/"` as its root. */
  lemma RootOfApi(prefix: string)
    ensures RootUrl(prefix + "/api") == prefix + "/"
  {
    var b := prefix + "/api";
    assert EndsWith(b, "/api") by {
      assert b[|b| - 4..] == "/api";
    }
    assert b[..|b| - 4] == prefix;
  }

  /**
   * Without a configured URL the base always ends in `/api`, so the
   * health check goes to the same server's root.
   */
  lemma {:induction false} ResolvedRoot(envUrl: Option<string>, window: Option<Location>)
    requires envUrl.None? || Trim(envUrl.value) == []
    ensures EndsWith(ResolveApiBaseUrl(envUrl, window), "/api")
    ensures RootUrl(ResolveApiBaseUrl(envUrl, window)) + "api" == ResolveApiBaseUrl(envUrl, window)
  {
    var r := ResolveApiBaseUrl(envUrl, window);
    if r == LocalApi {
      RootOfApi("http://localhost:4000");
    } else if r == DeployedApi {
      RootOfApi("https://pocket-money-server.vercel.app");
    } else {
      RootOfApi(DropSlash(window.value.origin));
    }
  }

  /**
   * `handleApiError`: the server's message, else the error's own message,
   * else a fixed default; an empty string counts as absent.
   */
  function HandleApiError(responseMessage: Option<string>, errorMessage: Option<string>): (r: string)
    ensures r != []
    ensures responseMessage.Some? && responseMessage.value != [] ==> r == responseMessage.value
    ensures (responseMessage.None? || responseMessage.value == []) && errorMessage.Some? && errorMessage.value != [] ==>
              r == errorMessage.value
    ensures r == DefaultError || r == responseMessage.GetOr("") || r == errorMessage.GetOr("")
  {
    if responseMessage.Some? && responseMessage.value != [] then responseMessage.value
    else if errorMessage.Some? && errorMessage.value != [] then errorMessage.value
    else DefaultError
  }

  /** The first present, non-empty message of `candidates`, else `fallback`. */
  function FirstNonEmpty(candidates: seq<Option<string>>, fallback: string): string {
    if candidates == [] then fallback
    else if candidates[0].Some? && candidates[0].value != [] then candidates[0].value
    else FirstNonEmpty(candidates[1..], fallback)
  }

  /**
   * The message shown is the first non-empty one of the chain, and showing
   * it again as a server message shows the same text.
   */
  lemma HandleApiErrorChain(responseMessage: Option<string>, errorMessage: Option<string>, other: Option<string>)
    ensures HandleApiError(responseMessage, errorMessage) == FirstNonEmpty([responseMessage, errorMessage], DefaultError)
    ensures HandleApiError(Some(HandleApiError(responseMessage, errorMessage)), other) == HandleApiError(responseMessage, errorMessage)
  {
    var c := [responseMessage, errorMessage];
    assert c[1..] == [errorMessage] && [errorMessage][1..] == [];
    assert FirstNonEmpty([], DefaultError) == DefaultError;
    assert FirstNonEmpty([errorMessage], DefaultError) == if errorMessage.Some? && errorMessage.value != [] then errorMessage.value else DefaultError;
  }
}
