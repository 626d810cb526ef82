/**
 * The backend's CORS origin check: the list of allowed origins (two
 * development patterns, four development URLs, the deployed frontend's URL
 * when one is configured, and two Vercel patterns) and the callback that
 * lets a request through when it has no origin or its origin matches an
 * entry, and otherwise fails with an error.
 *
 * Each regular expression of the list is written out as a string predicate.
 */
module Cors {
  import opened Wrappers
  import opened Strings

  /** An entry of `allowedOrigins`: an exact string, or one of the four regular expressions. */
  datatype Entry =
    | Exact(url: string)
    | LocalhostPort      // ^http:\/\/localhost:\d+$
    | LoopbackPort       // ^http:\/\/127\.0\.0\.1:\d+$
    | VercelApp          // ^https:\/\/.*\.vercel\.app$
    | VercelPreview      // ^https:\/\/.*-vercel-app\.vercel\.app$

  const LocalhostPrefix: string := "http://localhost:"
  const LoopbackPrefix: string := "http://127.0.0.1:"
  const HttpsPrefix: string := "https://"
  const VercelSuffix: string := ".vercel.app"
  const PreviewSuffix: string := "-vercel-app.vercel.app"

  const Rejected: string := "Not allowed by CORS"

  /** `prefix` followed by one or more digits and nothing else. */
  predicate PrefixThenDigits(o: string, prefix: string) {
    StartsWith(o, prefix) && IsDigits(o[|prefix|..])
  }

  /**
   * `^prefix.*suffix$`: the origin starts with `prefix`, ends with `suffix`
   * (not overlapping it), and what lies between holds no line terminator,
   * which `.` does not match.
   */
  predicate PrefixAnySuffix(o: string, prefix: string, suffix: string) {
    && |prefix| + |suffix| <= |o|
    && StartsWith(o, prefix)
    && EndsWith(o, suffix)
    && forall i :: |prefix| <= i < |o| - |suffix| ==> !IsLineTerminator(o[i])
  }

  /** `allowedOrigin === origin` for a string, `allowedOrigin.test(origin)` for a pattern. */
  predicate Matches(e: Entry, o: string) {
    match e
    case Exact(url) => url == o
    case LocalhostPort => PrefixThenDigits(o, LocalhostPrefix)
    case LoopbackPort => PrefixThenDigits(o, LoopbackPrefix)
    case VercelApp => PrefixAnySuffix(o, HttpsPrefix, VercelSuffix)
    case VercelPreview => PrefixAnySuffix(o, HttpsPrefix, PreviewSuffix)
  }

  const DevelopmentOrigins: seq<Entry> := [
    LocalhostPort, LoopbackPort,
    Exact("http://localhost:5173"), Exact("http://127.0.0.1:5173"),
    Exact("http://localhost:3000"), Exact("http://127.0.0.1:3000")
  ]

  /** `FRONTEND_URL` is used only when it is set to a non-empty string. */
  predicate IsSet(frontendUrl: Option<string>) {
    frontendUrl.Some? && frontendUrl.value != []
  }

  /**
   * `allowedOrigins` after start-up: the development entries, then the
   * frontend URL when it is set, then the two Vercel patterns.
   */
  function AllowedOrigins(frontendUrl: Option<string>): (r: seq<Entry>)
    ensures |r| == if IsSet(frontendUrl) then 9 else 8
    ensures r[..6] == DevelopmentOrigins
    ensures r[|r| - 2..] == [VercelApp, VercelPreview]
    ensures IsSet(frontendUrl) ==> r[6] == Exact(frontendUrl.value)
  {
    DevelopmentOrigins
      + (if IsSet(frontendUrl) then [Exact(frontendUrl.value)] else [])
      + [VercelApp, VercelPreview]
  }

  /** `allowedOrigins.some(...)`. */
  function AnyMatches(entries: seq<Entry>, o: string): (b: bool)
    ensures b <==> exists i :: 0 <= i < |entries| && Matches(entries[i], o)
  {
    if entries == [] then false
    else if Matches(entries[0], o) then true
    else
      var b := AnyMatches(entries[1..], o);
      assert forall i :: 1 <= i < |entries| ==> entries[1..][i - 1] == entries[i];
      b
  }

  /** What the callback is called with: `(null, true)` or an error. */
  datatype Decision = Allow | Deny(message: string)

  /** `corsOptions.origin`: a missing or empty origin passes; otherwise the origin must match an entry. */
  function CheckOrigin(frontendUrl: Option<string>, origin: Option<string>): (r: Decision)
    ensures origin.None? || origin.value == [] ==> r == Allow
    ensures r.Deny? ==> r.message == Rejected
    ensures origin.Some? && origin.value != [] ==>
              (r == Allow <==> exists i :: 0 <= i < |AllowedOrigins(frontendUrl)| && Matches(AllowedOrigins(frontendUrl)[i], origin.value))
  {
    if origin.None? || origin.value == [] then Allow
    else if AnyMatches(AllowedOrigins(frontendUrl), origin.value) then Allow
    else Deny(Rejected)
  }

  /**
   * The origins the check lets through, stated directly: a local origin
   * with a numeric port, the configured frontend URL, or any HTTPS
   * `*.vercel.app` host.
   */
  ghost predicate AllowedDirectly(frontendUrl: Option<string>, o: string) {
    || PrefixThenDigits(o, LocalhostPrefix)
    || PrefixThenDigits(o, LoopbackPrefix)
    || (IsSet(frontendUrl) && o == frontendUrl.value)
    || PrefixAnySuffix(o, HttpsPrefix, VercelSuffix)
  }

  /** The four development URLs are already covered by the two port patterns. */
  lemma ExactDevelopmentCovered(o: string)
    requires o in ["http://localhost:5173", "http://127.0.0.1:5173", "http://localhost:3000", "http://127.0.0.1:3000"]
    ensures PrefixThenDigits(o, LocalhostPrefix) || PrefixThenDigits(o, LoopbackPrefix)
  {
    if o == "http://localhost:5173" || o == "http://localhost:3000" {
      assert o[..|LocalhostPrefix|] == LocalhostPrefix;
      assert IsDigits(o[|LocalhostPrefix|..]);
    } else {
      assert o[..|LoopbackPrefix|] == LoopbackPrefix;
      assert IsDigits(o[|LoopbackPrefix|..]);
    }
  }

  /** The preview pattern admits nothing the general Vercel pattern does not. */
  lemma PreviewCovered(o: string)
    requires PrefixAnySuffix(o, HttpsPrefix, PreviewSuffix)
    ensures PrefixAnySuffix(o, HttpsPrefix, VercelSuffix)
  {
    assert o[|o| - |VercelSuffix|..] == o[|o| - |PreviewSuffix|..][|PreviewSuffix| - |VercelSuffix|..];
    forall i | |HttpsPrefix| <= i < |o| - |VercelSuffix|
      ensures !IsLineTerminator(o[i])
    {
      if i >= |o| - |PreviewSuffix| {
        assert o[i] == o[|o| - |PreviewSuffix|..][i - (|o| - |PreviewSuffix|)];
      }
    }
  }

  /** A non-empty origin passes the check exactly when it is allowed directly. */
  lemma {:induction false} CheckOriginSpec(frontendUrl: Option<string>, o: string)
    requires o != []
    ensures CheckOrigin(frontendUrl, Some(o)) == Allow <==> AllowedDirectly(frontendUrl, o)
  {
    var entries := AllowedOrigins(frontendUrl);
    if CheckOrigin(frontendUrl, Some(o)) == Allow {
      var i :| 0 <= i < |entries| && Matches(entries[i], o);
      if i < 6 {
        assert entries[i] == DevelopmentOrigins[i];
        if 2 <= i {
          ExactDevelopmentCovered(o);
        }
      } else if i == |entries| - 1 {
        assert entries[i] == VercelPreview;
        PreviewCovered(o);
      } else if i == |entries| - 2 {
        assert entries[i] == VercelApp;
      } else {
        assert IsSet(frontendUrl) && entries[i] == Exact(frontendUrl.value);
      }
    } else {
      assert entries[0] == LocalhostPort && entries[1] == LoopbackPort;
      assert entries[|entries| - 2] == VercelApp;
      assert !Matches(entries[0], o) && !Matches(entries[1], o) && !Matches(entries[|entries| - 2], o);
      if IsSet(frontendUrl) {
        assert entries[6] == Exact(frontendUrl.value);
        assert !Matches(entries[6], o);
      }
    }
  }

  /** Every all-digit port on `localhost` and on `127.0.0.1` is allowed, whatever the frontend URL. */
  lemma LocalPortsAllowed(frontendUrl: Option<string>, port: string)
    requires IsDigits(port)
    ensures CheckOrigin(frontendUrl, Some(LocalhostPrefix + port)) == Allow
    ensures CheckOrigin(frontendUrl, Some(LoopbackPrefix + port)) == Allow
  {
    assert (LocalhostPrefix + port)[|LocalhostPrefix|..] == port;
    assert (LoopbackPrefix + port)[|LoopbackPrefix|..] == port;
    CheckOriginSpec(frontendUrl, LocalhostPrefix + port);
    CheckOriginSpec(frontendUrl, LoopbackPrefix + port);
  }

  /** Every HTTPS `*.vercel.app` host is allowed, whatever the frontend URL. */
  lemma VercelAllowed(frontendUrl: Option<string>, host: string)
    requires forall i :: 0 <= i < |host| ==> !IsLineTerminator(host[i])
    ensures CheckOrigin(frontendUrl, Some(HttpsPrefix + host + VercelSuffix)) == Allow
  {
    var o := HttpsPrefix + host + VercelSuffix;
    assert o[..|HttpsPrefix|] == HttpsPrefix;
    assert o[|o| - |VercelSuffix|..] == VercelSuffix;
    forall i | |HttpsPrefix| <= i < |o| - |VercelSuffix| ensures !IsLineTerminator(o[i]) {
      assert o[i] == host[i - |HttpsPrefix|];
    }
    CheckOriginSpec(frontendUrl, o);
  }

  /** An origin with a `v` at or after the end of a `v`-free prefix is not that prefix followed by digits. */
  lemma NoDigitsBeforeV(o: string, prefix: string, v: nat)
    requires v < |o| && o[v] == 'v' && 'v' !in prefix
    ensures !PrefixThenDigits(o, prefix)
  {
    if StartsWith(o, prefix) {
      assert forall i :: 0 <= i < |prefix| ==> o[i] == prefix[i];
      assert |prefix| <= v;
      assert o[|prefix|..][v - |prefix|] == 'v';
    }
  }

  /**
   * The same host over plain HTTP is rejected, unless it is the configured
   * frontend URL itself.
   */
  lemma PlainHttpVercelRejected(frontendUrl: Option<string>, host: string)
    requires !(IsSet(frontendUrl) && frontendUrl.value == "http://" + host + VercelSuffix)
    ensures CheckOrigin(frontendUrl, Some("http://" + host + VercelSuffix)) == Deny(Rejected)
  {
    var o := "http://" + host + VercelSuffix;
    var v := |o| - |VercelSuffix| + 1;
    assert o[v] == 'v' && o[4] == ':';
    assert !StartsWith(o, HttpsPrefix) by {
      assert HttpsPrefix[4] == 's';
    }
    NoDigitsBeforeV(o, LocalhostPrefix, v);
    NoDigitsBeforeV(o, LoopbackPrefix, v);
    CheckOriginSpec(frontendUrl, o);
  }

  /** Setting `FRONTEND_URL` allows exactly that string in addition to what was allowed before. */
  lemma FrontendUrlAdds(url: string, o: string)
    requires url != [] && o != []
    ensures CheckOrigin(Some(url), Some(o)) == Allow <==> o == url || CheckOrigin(None, Some(o)) == Allow
  {
    CheckOriginSpec(Some(url), o);
    CheckOriginSpec(None, o);
  }
}
