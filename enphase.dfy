/** The Enphase telemetry client of `quartz_solar_forecast/inverters/enphase.py`:
    the OAuth 2.0 Authorization Code grant (RFC 6749, sections 4.1.1 and
    4.1.3) against the Enphase API, then one read of the live power.
    Environment variables, the pasted redirect URL and the HTTPS exchanges
    are parameters; every request target and header the client builds is
    modelled exactly. */
module Enphase {
  import opened Wrappers
  import opened Bytes
  import opened Text
  import opened Json
  import opened FormEncoding
  import Utf8
  import Base64

  // Long literals are written as concatenations of short ones.
  const Host := "api.enphaseenergy.com"
  const Scheme := "https" + ":" + "/" + "/"
  const RedirectPath := "/" + "oauth" + "/" + "redirect_uri"
  /** `https://api.enphaseenergy.com/oauth/redirect_uri`. */
  const RedirectUri := Scheme + Host + RedirectPath
  const AuthorizeEndpoint := "https://" + Host + "/oauth/authorize"
  /** What `get_enphase_authorization_code` splits the pasted URL on. */
  const CodeMarker := "?code="
  /** The token request's path and query up to the code:
      `/oauth/token?grant_type=authorization_code&redirect_uri=<redirect URI>&code=`. */
  const TokenTargetPrefix := TokenPath + "?" + TokenQueryHead
  const TokenPath := "/oauth/token"
  const TokenQueryHead :=
    "grant_type" + "=" + "authorization_code" + "&" + "redirect_uri" + "=" + RedirectUri + "&" + "code" + "="

  /** `ENPHASE_CLIENT_ID`, `ENPHASE_CLIENT_SECRET` and `ENPHASE_API_KEY`. */
  datatype Config = Config(clientId: string, clientSecret: string, apiKey: string)

  /** One `conn.request(method, target, body, headers)` on a connection to
      `host`. */
  datatype Request = Request(verb: string, host: string, target: string, body: string, headers: seq<(string, string)>)

  /** The value paired with `key` in a list of key-value pairs (a dict's
      items, a request's headers): the first entry with that key, `None`
      when there is none. */
  function Lookup(pairs: seq<(string, string)>, key: string): (r: Option<string>)
    ensures r.Some? <==> exists i :: 0 <= i < |pairs| && pairs[i].0 == key
    ensures r.Some? ==> exists i :: 0 <= i < |pairs| && pairs[i] == (key, r.value)
  {
    if pairs == [] then None
    else if pairs[0].0 == key then Some(pairs[0].1)
    else Lookup(pairs[1..], key)
  }

  /** The requests a run sent, in order, and what it returned or raised. */
  datatype Exchange = Exchange(sent: seq<Request>, outcome: Result<Json>)

  // ---------------------------------------------------------------------
  // Step 1: the authorization URL (get_enphase_auth_url)

  /** The query parameters, in the order of the source's dict: three
      distinct keys, each with its value. */
  function AuthParams(clientId: string): (r: seq<(string, string)>)
    ensures |r| == 3 && forall i, j :: 0 <= i < j < |r| ==> r[i].0 != r[j].0
    ensures Lookup(r, "response_type") == Some("code")
    ensures Lookup(r, "client_id") == Some(clientId)
    ensures Lookup(r, "redirect_uri") == Some(RedirectUri)
  {
    var r := [("response_type", "code"), ("client_id", clientId), ("redirect_uri", RedirectUri)];
    assert r[1..][0].0 == "client_id" && r[1..][1..][0].0 == "redirect_uri";
    r
  }

  /** `get_enphase_auth_url()`. */
  function AuthUrl(clientId: string): (url: string)
    ensures |url| > |AuthorizeEndpoint| && url[..|AuthorizeEndpoint| + 1] == AuthorizeEndpoint + "?"
    ensures ParseQuery(url[|AuthorizeEndpoint| + 1..]) == Some(AuthParams(clientId))
  {
    QueryAfterMark(AuthorizeEndpoint, AuthParams(clientId));
    AuthorizeEndpoint + "?" + Urlencode(AuthParams(clientId))
  }

  /** A URL made of a prefix, `?` and a serialized query reads back the
      query after the `?`. */
  lemma QueryAfterMark(prefix: string, pairs: seq<(string, string)>)
    ensures |prefix + "?" + Urlencode(pairs)| > |prefix|
    ensures (prefix + "?" + Urlencode(pairs))[..|prefix| + 1] == prefix + "?"
    ensures ParseQuery((prefix + "?" + Urlencode(pairs))[|prefix| + 1..]) == Some(pairs)
  {
    var url := prefix + "?" + Urlencode(pairs);
    assert url[|prefix| + 1..] == Urlencode(pairs);
    UrlencodeRoundTrip(pairs);
  }

  /** The redirect URI as `quote_plus` writes it. */
  const EncodedScheme := "https" + "%3A" + "%2F" + "%2F"
  const EncodedRedirectPath := "%2F" + "oauth" + "%2F" + "redirect_uri"
  const EncodedRedirectUri := EncodedScheme + Host + EncodedRedirectPath

  lemma QuoteColon()
    ensures QuotePlus(":") == "%3A"
  {
    assert Utf8.Encode(":") == [58];
  }

  lemma QuoteSlash()
    ensures QuotePlus("/") == "%2F"
  {
    assert Utf8.Encode("/") == [47];
  }

  /** A word of unreserved characters is written unchanged. The word is
      passed twice, as `s` and as the equal `w`: the verifier unfolds the
      recursive `QuotePlus` without bound on a literal argument, and seeing
      only the variable `s` keeps it from encoding the literal character by
      character, which would exhaust its resources. */
  lemma QuoteLiteral(s: string, w: string)
    requires s == w && forall i :: 0 <= i < |w| ==> Unreserved(w[i] as int)
    ensures QuotePlus(s) == w
  {
    QuotePlusLiteral(s);
  }

  lemma QuoteScheme()
    ensures QuotePlus(Scheme) == EncodedScheme
  {
    QuoteColon();
    QuoteSlash();
    QuoteLiteral("https", "https");
    QuotePlusAppend("https", ":");
    QuotePlusAppend("https" + ":", "/");
    QuotePlusAppend("https" + ":" + "/", "/");
  }

  lemma QuoteRedirectPath()
    ensures QuotePlus(RedirectPath) == EncodedRedirectPath
  {
    QuoteSlash();
    QuoteLiteral("oauth", "oauth");
    QuoteLiteral("redirect_uri", "redirect_uri");
    QuotePlusAppend("/", "oauth");
    QuotePlusAppend("/" + "oauth", "/");
    QuotePlusAppend("/" + "oauth" + "/", "redirect_uri");
  }

  lemma QuoteRedirectUri()
    ensures QuotePlus(RedirectUri) == EncodedRedirectUri
  {
    QuoteUriOnHost(Host);
  }

  /** The redirect URI on any host of unreserved characters. */
  lemma QuoteUriOnHost(host: string)
    requires forall i :: 0 <= i < |host| ==> Unreserved(host[i] as int)
    ensures QuotePlus(Scheme + host + RedirectPath) == EncodedScheme + host + EncodedRedirectPath
  {
    QuoteScheme();
    QuoteRedirectPath();
    QuoteLiteral(host, host);
    QuotePlusAppend(Scheme, host);
    QuotePlusAppend(Scheme + host, RedirectPath);
  }

  /** The authorization URL spelled out: the keys in the source's order, the
      client id form-encoded, and the redirect URI percent-encoded. */
  lemma AuthUrlLayout(clientId: string)
    ensures AuthUrl(clientId)
      == AuthorizeEndpoint + "?"
         + ("response_type" + "=" + "code" + "&" + "client_id" + "=" + QuotePlus(clientId)
            + "&" + "redirect_uri" + "=" + EncodedRedirectUri)
  {
    QuoteResponseType();
    QuoteCode();
    QuoteClientId();
    QuoteRedirectUriKey();
    QuoteRedirectUri();
    UrlencodeUnreservedKeys("response_type", "code", "client_id", clientId, "redirect_uri", RedirectUri);
  }

  // The literal keys and value of the query, one lemma each to keep the
  // proofs small.
  lemma QuoteResponseType()
    ensures QuotePlus("response_type") == "response_type"
  {
    QuoteLiteral("response_type", "response_type");
  }

  lemma QuoteCode()
    ensures QuotePlus("code") == "code"
  {
    QuoteLiteral("code", "code");
  }

  lemma QuoteClientId()
    ensures QuotePlus("client_id") == "client_id"
  {
    QuoteLiteral("client_id", "client_id");
  }

  lemma QuoteRedirectUriKey()
    ensures QuotePlus("redirect_uri") == "redirect_uri"
  {
    QuoteLiteral("redirect_uri", "redirect_uri");
  }

  /** Three pairs whose keys and first value `quote_plus` leaves as they are. */
  lemma UrlencodeUnreservedKeys(k0: string, v0: string, k1: string, v1: string, k2: string, v2: string)
    requires QuotePlus(k0) == k0 && QuotePlus(v0) == v0 && QuotePlus(k1) == k1 && QuotePlus(k2) == k2
    ensures Urlencode([(k0, v0), (k1, v1), (k2, v2)])
      == k0 + "=" + v0 + "&" + k1 + "=" + QuotePlus(v1) + "&" + k2 + "=" + QuotePlus(v2)
  {
    UrlencodeThree((k0, v0), (k1, v1), (k2, v2));
  }

  /** The encoded redirect URI holds no `:` and no `/`, so the query carries
      it as one opaque value. */
  lemma EncodedRedirectUriOpaque()
    ensures forall i :: 0 <= i < |EncodedRedirectUri| ==> EncodedRedirectUri[i] != ':' && EncodedRedirectUri[i] != '/'
  {
    QuoteRedirectUri();
    forall i | 0 <= i < |EncodedRedirectUri| ensures EncodedRedirectUri[i] != ':' && EncodedRedirectUri[i] != '/' {
      assert FormChar(QuotePlus(RedirectUri)[i]);
    }
  }

  // ---------------------------------------------------------------------
  // Step 2: the code in the pasted redirect URL (get_enphase_authorization_code)

  /** `redirect_url.split("?code=")[1]`: an `IndexError` when the marker is
      missing. */
  function ExtractCode(redirectUrl: string): (r: Result<string>)
    ensures r.Failure? <==> !Contains(redirectUrl, CodeMarker)
    ensures r.Failure? ==> r.error == IndexError
    ensures r.Success? ==>
      var i := IndexOf(redirectUrl, CodeMarker).value;
      var after := redirectUrl[i + |CodeMarker|..];
      && !Contains(r.value, CodeMarker)
      && r.value <= after
      && (r.value == after || OccursAt(after, CodeMarker, |r.value|))
  {
    var pieces := Split(redirectUrl, CodeMarker);
    if |pieces| < 2 then Failure(IndexError)
    else
      SplitSecond(redirectUrl, CodeMarker);
      Success(pieces[1])
  }

  /** The second piece of a split is what follows the first separator, up to
      the next one. */
  lemma SplitSecond(s: string, sep: string)
    requires |sep| > 0 && |Split(s, sep)| >= 2
    ensures
      var i := IndexOf(s, sep).value;
      var after := s[i + |sep|..];
      var piece := Split(s, sep)[1];
      && piece <= after
      && (piece == after || OccursAt(after, sep, |piece|))
  {
    var i := IndexOf(s, sep).value;
    var after := s[i + |sep|..];
    var rest := Split(after, sep);
    assert Split(s, sep) == [s[..i]] + rest;
    if |rest| > 1 {
      assert after == rest[0] + sep + Join(rest[1..], sep);
    }
  }

  lemma CodeMarkerBorderFree()
    ensures BorderFree(CodeMarker)
  {
    forall k | 0 < k < |CodeMarker| ensures CodeMarker[k..] != CodeMarker[..|CodeMarker| - k] {
      assert CodeMarker[k..][0] != '?';
    }
  }

  /** Round trip: the code written after the marker is the code extracted,
      whenever neither it nor the text before it holds the marker. */
  lemma ExtractCodeRoundTrip(base: string, code: string)
    requires !Contains(base, CodeMarker) && !Contains(code, CodeMarker)
    ensures ExtractCode(base + CodeMarker + code) == Success(code)
  {
    CodeMarkerBorderFree();
    SplitJoin([base, code], CodeMarker);
    assert Join([base, code], CodeMarker) == base + CodeMarker + code;
  }

  /** A string without `?` cannot hold the marker. */
  lemma NoQuestionMark(s: string)
    requires forall i :: 0 <= i < |s| ==> s[i] != '?'
    ensures !Contains(s, CodeMarker)
  {
    forall j | 0 <= j ensures !OccursAt(s, CodeMarker, j) {
      if j + |CodeMarker| <= |s| {
        assert s[j..j + |CodeMarker|][0] == s[j];
      }
    }
  }

  /** The redirect Enphase sends back after authorization,
      `<redirect URI>?code=<code>`, yields the code. */
  lemma RedirectYieldsCode(code: string)
    requires !Contains(code, CodeMarker)
    ensures ExtractCode(RedirectUri + CodeMarker + code) == Success(code)
  {
    RedirectUriPlain();
    NoQuestionMark(RedirectUri);
    ExtractCodeRoundTrip(RedirectUri, code);
  }

  /** A code passed as `&code=` is not recognised: without a `?` the split
      has one piece and indexing it raises `IndexError`. */
  lemma AmpersandCodeRejected(url: string)
    requires forall i :: 0 <= i < |url| ==> url[i] != '?'
    ensures ExtractCode(url) == Failure(IndexError)
  {
    NoQuestionMark(url);
  }

  // ---------------------------------------------------------------------
  // Step 3: the token exchange (get_enphase_access_token)

  /** `base64.b64encode(b).decode("utf-8")`: the decoding step never fails,
      since Base64 text is ASCII. */
  function Base64Text(b: seq<Byte>): (s: string)
    ensures Utf8.Decode(Base64.Encode(b)) == Some(s)
    ensures Utf8.Encode(s) == Base64.Encode(b)
    ensures |s| == 4 * ((|b| + 2) / 3)
  {
    var e := Base64.Encode(b);
    Utf8.DecodeAscii(e);
    var s := Utf8.AsciiText(e);
    Utf8.EncodeAscii(s);
    s
  }

  /** The `Authorization` header of the token request: HTTP Basic
      credentials (section 2 of RFC 7617) from the client id and secret. */
  function BasicCredential(clientId: string, clientSecret: string): (r: string)
    ensures |r| > 6 && r[..6] == "Basic "
    ensures ParseBasic(r) == Partition(clientId + ":" + clientSecret, ":")
  {
    ParseBasicCredential(clientId + ":" + clientSecret);
    "Basic " + Base64Text(Utf8.Encode(clientId + ":" + clientSecret))
  }

  /** How a server reads Basic credentials back (section 2 of RFC 7617):
      drop the scheme, decode the Base64 token and its UTF-8, split at the
      first colon. */
  function ParseBasic(header: string): Option<(string, string)> {
    if |header| < 6 || header[..6] != "Basic " then None
    else
      match Base64.Decode(Utf8.Encode(header[6..]))
      case None => None
      case Some(bytes) =>
        match Utf8.Decode(bytes)
        case None => None
        case Some(pass) => Partition(pass, ":")
  }

  /** A server reads the joined credentials back and splits them at the
      first colon. */
  lemma ParseBasicCredential(pass: string)
    ensures ParseBasic("Basic " + Base64Text(Utf8.Encode(pass))) == Partition(pass, ":")
  {
    var header := "Basic " + Base64Text(Utf8.Encode(pass));
    assert header[..6] == "Basic " && header[6..] == Base64Text(Utf8.Encode(pass));
    Base64.DecodeEncode(Utf8.Encode(pass));
    Utf8.DecodeEncode(pass);
  }

  /** The credentials decode back to the client id and secret whenever the
      id holds no colon, as section 2 of RFC 7617 requires of a user-id. */
  lemma BasicCredentialRoundTrip(clientId: string, clientSecret: string)
    requires forall i :: 0 <= i < |clientId| ==> clientId[i] != ':'
    ensures ParseBasic(BasicCredential(clientId, clientSecret)) == Some((clientId, clientSecret))
  {
    ParseBasicCredential(clientId + ":" + clientSecret);
    ContainsSingle(clientId, ':');
    SingleBorderFree(':');
    PartitionJoin(clientId, ":", clientSecret);
  }

  /** A colon inside the client id moves the rest of the id into the
      secret a server reads back. */
  lemma BasicCredentialColonInId(idHead: string, idTail: string, clientSecret: string)
    requires forall i :: 0 <= i < |idHead| ==> idHead[i] != ':'
    ensures ParseBasic(BasicCredential(idHead + ":" + idTail, clientSecret))
      == Some((idHead, idTail + ":" + clientSecret))
  {
    var pass := idHead + ":" + idTail + ":" + clientSecret;
    assert (idHead + ":" + idTail) + ":" + clientSecret == idHead + ":" + (idTail + ":" + clientSecret);
    ParseBasicCredential(pass);
    ContainsSingle(idHead, ':');
    SingleBorderFree(':');
    PartitionJoin(idHead, ":", idTail + ":" + clientSecret);
  }

  /** The token request target: the code appended as it is and the redirect
      URI written out without encoding, both unlike the authorization URL. */
  function TokenTarget(code: string): (t: string)
    ensures |t| == |TokenTargetPrefix| + |code|
    ensures t[..|TokenTargetPrefix|] == TokenTargetPrefix && t[|TokenTargetPrefix|..] == code
  {
    TokenTargetPrefix + code
  }

  /** The POST of `get_enphase_access_token`: the parameters in the query,
      an empty body, Basic credentials. */
  function TokenRequest(cfg: Config, code: string): (r: Request)
    ensures r.verb == "POST" && r.host == Host && r.body == ""
    ensures r.target == TokenTargetPrefix + code
    ensures |r.headers| == 1
    ensures Lookup(r.headers, "Authorization") == Some(BasicCredential(cfg.clientId, cfg.clientSecret))
  {
    Request("POST", Host, TokenTarget(code), "",
            [("Authorization", BasicCredential(cfg.clientId, cfg.clientSecret))])
  }

  /** The query of the token request reads back as the three parameters of
      section 4.1.3 of RFC 6749, provided the unescaped code holds none of
      `&`, `+`, `%`. */
  lemma TokenQueryParams(code: string)
    requires Plain(code)
    ensures
      var query := TokenTarget(code)[|TokenPath| + 1..];
      ParseQuery(query) == Some([("grant_type", "authorization_code"), ("redirect_uri", RedirectUri), ("code", code)])
  {
    var target := TokenTarget(code);
    assert target == (TokenPath + "?") + (TokenQueryHead + code);
    assert target[|TokenPath| + 1..] == TokenQueryHead + code;
    RedirectUriPlain();
    ParseThreePlain("grant_type", "authorization_code", "redirect_uri", RedirectUri, "code", code);
  }

  /** The redirect URI holds none of the characters the query syntax
      reserves. */
  lemma RedirectUriPlain()
    ensures forall i :: 0 <= i < |RedirectUri| ==>
      RedirectUri[i] != '&' && RedirectUri[i] != '+' && RedirectUri[i] != '%' && RedirectUri[i] != '?'
  {
    forall i | 0 <= i < |RedirectUri|
      ensures RedirectUri[i] != '&' && RedirectUri[i] != '+' && RedirectUri[i] != '%' && RedirectUri[i] != '?'
    {
      if i < |Scheme| {
        assert RedirectUri[i] == Scheme[i];
      } else if i < |Scheme| + |Host| {
        assert RedirectUri[i] == Host[i - |Scheme|];
      } else {
        assert RedirectUri[i] == RedirectPath[i - |Scheme| - |Host|];
      }
    }
  }

  /** `data_json["access_token"]`. */
  function AccessToken(response: Json): (r: Result<Json>)
    ensures r.Success? <==> response.JObject? && "access_token" in response.members
    ensures r.Success? ==> r.value == response.members["access_token"]
    ensures response.JObject? && "access_token" !in response.members ==> r == Failure(KeyError("access_token"))
  {
    Member(response, "access_token")
  }

  /** `get_enphase_access_token()`: the authorization code from the pasted
      URL, then one token request; `server` answers a request with the
      parsed JSON body. */
  function GetAccessToken(cfg: Config, pastedUrl: string, server: Request -> Json): Exchange {
    match ExtractCode(pastedUrl)
    case Failure(e) => Exchange([], Failure(e))
    case Success(code) =>
      var request := TokenRequest(cfg, code);
      Exchange([request], AccessToken(server(request)))
  }

  // ---------------------------------------------------------------------
  // Step 4: the live reading (get_enphase_data)

  /** The path of the live-data endpoint for a system. */
  function LiveDataTarget(systemId: string): (t: string)
    ensures |t| == |systemId| + 26
    ensures t[..16] == "/api/v4/systems/"
    ensures t[16..16 + |systemId|] == systemId
    ensures t[16 + |systemId|..] == "/live_data"
  {
    "/api/v4/systems/" + systemId + "/live_data"
  }

  /** The GET of `get_enphase_data`: a bearer token and the API key. */
  function LiveDataRequest(systemId: string, token: string, apiKey: string): (r: Request)
    ensures r.verb == "GET" && r.host == Host && r.body == ""
    ensures r.target == LiveDataTarget(systemId)
    ensures |r.headers| == 2
    ensures Lookup(r.headers, "Authorization") == Some("Bearer " + token)
    ensures Lookup(r.headers, "key") == Some(apiKey)
  {
    var headers := [("Authorization", "Bearer " + token), ("key", apiKey)];
    assert headers[1..][0].0 == "key";
    Request("GET", Host, LiveDataTarget(systemId), "", headers)
  }

  /** `data_json['current_power']['power']`. */
  function LivePower(response: Json): (r: Result<Json>)
    ensures r.Success? <==>
      && response.JObject? && "current_power" in response.members
      && response.members["current_power"].JObject?
      && "power" in response.members["current_power"].members
    ensures r.Success? ==> r.value == response.members["current_power"].members["power"]
    ensures response.JObject? && "current_power" !in response.members ==> r == Failure(KeyError("current_power"))
  {
    var current :- Member(response, "current_power");
    Member(current, "power")
  }

  /** The text an f-string puts in place of a JSON value: a string as it
      is, anything else as Python's `str` renders it. */
  function Interpolate(value: Json, render: Json -> string): string {
    if value.JString? then value.s else render(value)
  }

  /** `get_enphase_data(system_id)`: the token exchange, then the live-data
      request with the token it returned. */
  function GetEnphaseData(cfg: Config, systemId: string, pastedUrl: string,
                          server: Request -> Json, render: Json -> string): Exchange {
    var tokenStep := GetAccessToken(cfg, pastedUrl, server);
    match tokenStep.outcome
    case Failure(e) => tokenStep
    case Success(token) =>
      var request := LiveDataRequest(systemId, Interpolate(token, render), cfg.apiKey);
      Exchange(tokenStep.sent + [request], LivePower(server(request)))
  }

  /** Without a code in the pasted URL nothing is sent, whatever the server
      would answer, and the run raises `IndexError`. */
  lemma NoCodeNoRequest(cfg: Config, systemId: string, pastedUrl: string,
                        server: Request -> Json, render: Json -> string)
    requires !Contains(pastedUrl, CodeMarker)
    ensures GetEnphaseData(cfg, systemId, pastedUrl, server, render) == Exchange([], Failure(IndexError))
  {
  }

  /** The steps run in order: the token request carries the code from the
      pasted URL, and the live-data request is sent only after a token came
      back, carrying that token. */
  lemma DataFlowOrder(cfg: Config, systemId: string, code: string,
                      server: Request -> Json, render: Json -> string)
    requires !Contains(code, CodeMarker)
    ensures
      var run := GetEnphaseData(cfg, systemId, RedirectUri + CodeMarker + code, server, render);
      var tokenRequest := TokenRequest(cfg, code);
      var response := server(tokenRequest);
      && 1 <= |run.sent| <= 2
      && run.sent[0] == tokenRequest
      && run.sent[0].target == TokenTargetPrefix + code
      && (|run.sent| == 2 <==> response.JObject? && "access_token" in response.members)
      && (|run.sent| == 2 ==> run.sent[1] == LiveDataRequest(systemId, Interpolate(response.members["access_token"], render), cfg.apiKey))
      && (response.JObject? && "access_token" !in response.members ==> run.outcome == Failure(KeyError("access_token")))
      && (|run.sent| == 2 ==> run.outcome == LivePower(server(run.sent[1])))
  {
    RedirectYieldsCode(code);
  }

  /** `get_enphase_access_token()` on a redirect URL carrying a code: one
      POST to the token path with the code appended, whose Basic
      credentials a server reads back as the client id and secret (when the
      id holds no colon), and the token is the `access_token` member of the
      answer. */
  lemma TokenExchange(cfg: Config, code: string, server: Request -> Json)
    requires !Contains(code, CodeMarker)
    requires forall i :: 0 <= i < |cfg.clientId| ==> cfg.clientId[i] != ':'
    ensures
      var run := GetAccessToken(cfg, RedirectUri + CodeMarker + code, server);
      && |run.sent| == 1
      && run.sent[0].verb == "POST" && run.sent[0].host == Host
      && run.sent[0].target == TokenTargetPrefix + code
      && Lookup(run.sent[0].headers, "Authorization").Some?
      && ParseBasic(Lookup(run.sent[0].headers, "Authorization").value) == Some((cfg.clientId, cfg.clientSecret))
      && run.outcome == AccessToken(server(run.sent[0]))
  {
    RedirectYieldsCode(code);
    BasicCredentialRoundTrip(cfg.clientId, cfg.clientSecret);
  }

  /** `get_enphase_data(system_id)` once a token came back: a GET of the
      system's live-data path with the token as bearer credentials and the
      API key, and the result is `current_power.power` of the answer. */
  lemma LiveReading(cfg: Config, systemId: string, pastedUrl: string,
                    server: Request -> Json, render: Json -> string)
    requires GetAccessToken(cfg, pastedUrl, server).outcome.Success?
    ensures
      var tokenStep := GetAccessToken(cfg, pastedUrl, server);
      var token := Interpolate(tokenStep.outcome.value, render);
      var run := GetEnphaseData(cfg, systemId, pastedUrl, server, render);
      && run.sent[..|run.sent| - 1] == tokenStep.sent
      && var live := run.sent[|run.sent| - 1];
      && live.verb == "GET" && live.host == Host
      && live.target[..16] == "/api/v4/systems/"
      && live.target[16..16 + |systemId|] == systemId
      && live.target[16 + |systemId|..] == "/live_data"
      && Lookup(live.headers, "Authorization") == Some("Bearer " + token)
      && Lookup(live.headers, "key") == Some(cfg.apiKey)
      && run.outcome == LivePower(server(live))
  {
    var tokenStep := GetAccessToken(cfg, pastedUrl, server);
    var run := GetEnphaseData(cfg, systemId, pastedUrl, server, render);
    assert run.sent[..|run.sent| - 1] == tokenStep.sent;
  }
}
