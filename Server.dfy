/**
 * The request decisions of index.js. Each route is a function from the
 * request (cookies and query) and the reply the upstream would give to
 * what the handler does: the upstream call it makes, if any, and the
 * response (status, cookie operations, body). A cookie jar applies the
 * cookie operations so that routes can be chained as a browser would.
 */
module Server {
  import opened Wrappers
  import opened Strings
  import opened Encoding

  datatype Request = Request(cookies: map<string, string>, query: map<string, string>)

  /** The process environment the server reads at start-up, with its defaults applied. */
  datatype Config = Config(appName: string, baseUrl: string, clientId: Option<string>, clientSecret: Option<string>)

  datatype CookieOp =
    | SetCookie(name: string, value: string, maxAge: Option<nat>, httpOnly: bool, secure: bool)
    | ClearCookie(name: string)

  datatype Body =
    | Text(text: string)
    | AuthorizeRedirect(base: string, params: seq<(string, string)>)
    | RedirectTo(location: string)
    | Render(view: string, appName: string, displayName: string)
    | ErrorMessage(message: string)   // {error: {message}}
    | ErrorText(error: string)        // {error}
    | Relay(document: string)         // the upstream JSON body, unchanged

  datatype Response = Response(status: nat, cookies: seq<CookieOp>, body: Body)

  datatype Call =
    | TokenExchange(url: string, code: Option<string>, redirectUri: string, grantType: string, authorization: string)
    | ApiGet(url: string, authorization: string)

  /** What the upstream answers: a transport error, or a status code and a body. */
  datatype Reply<T> = Reply(errored: bool, statusCode: nat, body: T)

  datatype TokenBody = TokenBody(accessToken: Option<string>)
  datatype Profile = Profile(displayName: Option<string>)

  datatype Handled = Handled(call: Option<Call>, response: Response)

  const StateCookie := "spotify-state"
  const TokenCookie := "ci_access_token"
  const StateLength: nat := 16
  const Scope := "user-read-private user-read-email user-top-read"
  const AuthorizeUrl := "https://accounts.spotify.com/authorize"
  const TokenUrl := "https://accounts.spotify.com/api/token"
  const ProfileUrl := "https://api.spotify.com/v1/me"
  const TopTracksUrl := "https://api.spotify.com/v1/me/top/tracks"
  /** 30 minutes in milliseconds. */
  const TokenMaxAge: nat := 30 * 60 * 1000
  const CsrfMessage := "Potential CSRF detected"
  const AuthErrorText := "There was an error during authentication."
  const FetchErrorText := "There was an error fetching top tracks."
  const TokenNotFound := "Token not found"

  // ---------------------------------------------------------------------
  // JavaScript value conventions.
  // ---------------------------------------------------------------------

  /** A string-valued lookup as JavaScript sees it. */
  datatype JsValue = Undefined | Null | Str(s: string)

  function Lookup(m: map<string, string>, key: string): JsValue {
    if key in m then Str(m[key]) else Undefined
  }

  /** `v || null`: the empty string and undefined become null. */
  function OrNull(v: JsValue): JsValue {
    if v.Str? && v.s != "" then v else Null
  }

  /** `m[key] || d` for a string default. */
  function OrDefault(m: map<string, string>, key: string, d: string): (r: string)
    ensures key in m && m[key] != "" ==> r == m[key]
    ensures !(key in m && m[key] != "") ==> r == d
  {
    if key in m && m[key] != "" then m[key] else d
  }

  /** `a !== b`. */
  predicate StrictlyDiffer(a: JsValue, b: JsValue) {
    a != b
  }

  /** String(v) for a value that may be undefined. */
  function JsString(v: Option<string>): string {
    if v.Some? then v.value else "undefined"
  }

  // ---------------------------------------------------------------------
  // Configuration and helpers.
  // ---------------------------------------------------------------------

  /** APP_NAME and BASE_URL fall back to defaults when unset or empty. */
  function LoadConfig(env: map<string, string>): (c: Config)
    ensures c.appName != "" && c.baseUrl != ""
    ensures c.appName == (if "APP_NAME" in env && env["APP_NAME"] != "" then env["APP_NAME"] else "Collageify")
    ensures c.baseUrl == (if "BASE_URL" in env && env["BASE_URL"] != "" then env["BASE_URL"] else "https://127.0.0.1:8080")
    ensures c.clientId.Some? <==> "SPOTIFY_CLIENT_ID" in env
    ensures c.clientSecret.Some? <==> "SPOTIFY_CLIENT_SECRET" in env
  {
    Config(
      OrDefault(env, "APP_NAME", "Collageify"),
      OrDefault(env, "BASE_URL", "https://127.0.0.1:8080"),
      if "SPOTIFY_CLIENT_ID" in env then Some(env["SPOTIFY_CLIENT_ID"]) else None,
      if "SPOTIFY_CLIENT_SECRET" in env then Some(env["SPOTIFY_CLIENT_SECRET"]) else None)
  }

  /** REDIRECT_URI: the callback route under the base URL. */
  function RedirectUri(cfg: Config): (uri: string)
    ensures |uri| == |cfg.baseUrl| + 9
    ensures uri[..|cfg.baseUrl|] == cfg.baseUrl && uri[|cfg.baseUrl|..] == "/callback"
  {
    cfg.baseUrl + "/callback"
  }

  /** Hex digit i of the encoding of bytes: high nibble at even i, low nibble at odd i. */
  function Nibble(bytes: seq<byte>, i: nat): nat
    requires i < 2 * |bytes|
  {
    if i % 2 == 0 then bytes[i / 2] / 16 else bytes[i / 2] % 16
  }

  lemma HexEncodeNibbles(bytes: seq<byte>)
    ensures forall i :: 0 <= i < 2 * |bytes| ==> HexEncode(bytes)[i] == HexChar(Nibble(bytes, i))
  {
    forall i | 0 <= i < 2 * |bytes| ensures HexEncode(bytes)[i] == HexChar(Nibble(bytes, i)) {
      var k := i / 2;
      HexEncodeAt(bytes, k);
      if i % 2 == 0 {
        assert i == 2 * k;
      } else {
        assert i == 2 * k + 1;
      }
    }
  }

  /**
   * generateRandomString: the first n characters of the hex encoding of n
   * random bytes, which are the input here.
   */
  function GenerateRandomString(length: nat, randomBytes: seq<byte>): (r: string)
    requires |randomBytes| == length
    ensures |r| == length
    ensures forall i :: 0 <= i < length ==> IsHexDigit(r[i])
    ensures forall i :: 0 <= i < length ==> r[i] == HexChar(Nibble(randomBytes, i))
  {
    HexEncodeNibbles(randomBytes);
    HexEncode(randomBytes)[..length]
  }

  /** `s.split(" ")[0]`. */
  function FirstWord(s: string): (r: string)
    ensures |r| <= |s| && r == s[..|r|]
    ensures ' ' !in r
    ensures |r| == |s| || s[|r|] == ' '
  {
    if s == [] || s[0] == ' ' then [] else [s[0]] + FirstWord(s[1..])
  }

  /** getUserFirstName: "" for a missing or empty name, otherwise the text before the first space. */
  function GetUserFirstName(name: Option<string>): (r: string)
    ensures name.None? || name.value == "" ==> r == ""
    ensures name.Some? ==> |r| <= |name.value| && r == name.value[..|r|] && ' ' !in r
    ensures name.Some? && ' ' !in name.value ==> r == name.value
    ensures name.Some? && |r| < |name.value| ==> name.value[|r|] == ' '
  {
    if name.None? || name.value == "" then "" else FirstWord(name.value)
  }

  /** The Authorization header of the token exchange: HTTP Basic over `id:secret`. */
  function BasicAuthorization(clientId: Option<string>, clientSecret: Option<string>): (header: string)
    ensures |header| >= 6 && header[..6] == "Basic "
  {
    "Basic " + Base64Encode(Utf8Encode(JsString(clientId) + ":" + JsString(clientSecret)))
  }

  /** The user-id and password of a decoded credential, split at the first colon (section 2 of RFC 7617). */
  function SplitCredentials(s: string): (r: (string, string))
    ensures r.0 + [':'] + r.1 == s || (':' !in s && r == (s, ""))
    ensures ':' !in r.0
  {
    if s == [] then ("", "")
    else if s[0] == ':' then ("", s[1..])
    else
      var rest := SplitCredentials(s[1..]);
      assert s == [s[0]] + s[1..];
      ([s[0]] + rest.0, rest.1)
  }

  /** A server reading the header recovers the client id and secret, when the id has no colon. */
  lemma BasicCredentialsRoundTrip(clientId: Option<string>, clientSecret: Option<string>)
    requires ':' !in JsString(clientId)
    ensures var header := BasicAuthorization(clientId, clientSecret);
      && header[..6] == "Basic "
      && Base64Decode(header[6..]).Some?
      && Utf8Decode(Base64Decode(header[6..]).value) == Some(JsString(clientId) + ":" + JsString(clientSecret))
      && SplitCredentials(JsString(clientId) + ":" + JsString(clientSecret)) == (JsString(clientId), JsString(clientSecret))
  {
    var credentials := JsString(clientId) + ":" + JsString(clientSecret);
    var header := BasicAuthorization(clientId, clientSecret);
    assert header[6..] == Base64Encode(Utf8Encode(credentials));
    Base64RoundTrip(Utf8Encode(credentials));
    Utf8RoundTrip(credentials);
    SplitAtFirstColon(JsString(clientId), JsString(clientSecret));
  }

  lemma {:induction false} SplitAtFirstColon(user: string, password: string)
    requires ':' !in user
    ensures SplitCredentials(user + ":" + password) == (user, password)
  {
    if user != [] {
      assert (user + ":" + password)[1..] == user[1..] + ":" + password;
      SplitAtFirstColon(user[1..], password);
      assert user[0] != ':' && [user[0]] + user[1..] == user;
    } else {
      assert user + ":" + password == [':'] + password;
    }
  }

  // ---------------------------------------------------------------------
  // The cookie jar of the browser.
  // ---------------------------------------------------------------------

  function ApplyCookie(jar: map<string, string>, op: CookieOp): map<string, string> {
    match op
    case SetCookie(name, value, _, _, _) => jar[name := value]
    case ClearCookie(name) => jar - {name}
  }

  function ApplyCookies(jar: map<string, string>, ops: seq<CookieOp>): map<string, string>
    decreases |ops|
  {
    if ops == [] then jar else ApplyCookies(ApplyCookie(jar, ops[0]), ops[1..])
  }

  lemma ApplyOne(jar: map<string, string>, op: CookieOp)
    ensures ApplyCookies(jar, [op]) == ApplyCookie(jar, op)
  {
    assert [op][1..] == [];
  }

  lemma ApplyTwo(jar: map<string, string>, op1: CookieOp, op2: CookieOp)
    ensures ApplyCookies(jar, [op1, op2]) == ApplyCookie(ApplyCookie(jar, op1), op2)
  {
    assert [op1, op2][1..] == [op2];
    ApplyOne(ApplyCookie(jar, op1), op2);
  }

  /** A truthy token cookie. */
  predicate HasToken(cookies: map<string, string>)
    ensures HasToken(cookies) <==> OrNull(Lookup(cookies, TokenCookie)).Str?
  {
    TokenCookie in cookies && cookies[TokenCookie] != ""
  }

  // ---------------------------------------------------------------------
  // Routes.
  // ---------------------------------------------------------------------

  /** /login: remember a fresh state in a cookie and redirect to the authorization endpoint. */
  function Login(cfg: Config, randomBytes: seq<byte>): (h: Handled)
    requires |randomBytes| == StateLength
    ensures h.call.None? && h.response.status == 302
    ensures var state := GenerateRandomString(StateLength, randomBytes);
      && h.response.cookies == [SetCookie(StateCookie, state, None, false, false)]
      && h.response.body == AuthorizeRedirect(AuthorizeUrl, [
           ("response_type", "code"), ("client_id", JsString(cfg.clientId)), ("scope", Scope),
           ("redirect_uri", RedirectUri(cfg)), ("state", state)])
  {
    var state := GenerateRandomString(StateLength, randomBytes);
    var params := [("response_type", "code"), ("client_id", JsString(cfg.clientId)), ("scope", Scope),
                   ("redirect_uri", RedirectUri(cfg)), ("state", state)];
    Handled(None, Response(302, [SetCookie(StateCookie, state, None, false, false)], AuthorizeRedirect(AuthorizeUrl, params)))
  }

  /** The check of /callback: the state cookie strictly equals `req.query.state || null`. */
  predicate StateAccepted(req: Request)
    // It passes exactly when both are present, non-empty and equal.
    ensures StateAccepted(req) <==>
      && StateCookie in req.cookies && "state" in req.query
      && req.query["state"] != ""
      && req.cookies[StateCookie] == req.query["state"]
  {
    !StrictlyDiffer(Lookup(req.cookies, StateCookie), OrNull(Lookup(req.query, "state")))
  }

  /** `req.query.code || null`. */
  function CodeOf(req: Request): (code: Option<string>)
    ensures code.Some? <==> "code" in req.query && req.query["code"] != ""
    ensures code.Some? ==> code.value == req.query["code"]
  {
    var code := OrNull(Lookup(req.query, "code"));
    if code.Str? then Some(code.s) else None
  }

  /** /callback: the CSRF state check, then the authorization-code exchange. */
  function Callback(cfg: Config, req: Request, reply: Reply<TokenBody>): (h: Handled)
    ensures h.call.Some? <==> StateAccepted(req)
    ensures !StateAccepted(req) ==> h.response == Response(403, [], Text(CsrfMessage))
    ensures StateAccepted(req) ==>
      && h.call == Some(TokenExchange(TokenUrl, CodeOf(req), RedirectUri(cfg), "authorization_code",
                                      BasicAuthorization(cfg.clientId, cfg.clientSecret)))
      && |h.response.cookies| > 0 && h.response.cookies[0] == ClearCookie(StateCookie)
    ensures (exists op :: op in h.response.cookies && op.SetCookie? && op.name == TokenCookie) <==>
      StateAccepted(req) && !reply.errored && reply.statusCode == 200
    ensures StateAccepted(req) && !reply.errored && reply.statusCode == 200 ==>
      && h.response == Response(302, [ClearCookie(StateCookie),
            SetCookie(TokenCookie, JsString(reply.body.accessToken), Some(TokenMaxAge), true, true)], RedirectTo("/create"))
    ensures StateAccepted(req) && !(!reply.errored && reply.statusCode == 200) ==>
      h.response == Response(200, [ClearCookie(StateCookie)], Text(AuthErrorText))
  {
    if !StateAccepted(req) then
      Handled(None, Response(403, [], Text(CsrfMessage)))
    else
      var exchange := TokenExchange(TokenUrl, CodeOf(req), RedirectUri(cfg), "authorization_code",
                                    BasicAuthorization(cfg.clientId, cfg.clientSecret));
      if !reply.errored && reply.statusCode == 200 then
        var token := SetCookie(TokenCookie, JsString(reply.body.accessToken), Some(TokenMaxAge), true, true);
        Handled(Some(exchange), Response(302, [ClearCookie(StateCookie), token], RedirectTo("/create")))
      else
        Handled(Some(exchange), Response(200, [ClearCookie(StateCookie)], Text(AuthErrorText)))
  }

  /** /create: without a token go home; otherwise fetch the profile and render the page. */
  function Create(cfg: Config, req: Request, reply: Reply<Profile>): (h: Handled)
    ensures h.call.None? <==> !HasToken(req.cookies)
    ensures !HasToken(req.cookies) ==> h.response == Response(302, [], RedirectTo("/"))
    ensures HasToken(req.cookies) ==> h.call == Some(ApiGet(ProfileUrl, "Bearer " + req.cookies[TokenCookie]))
    ensures h.response.cookies == []
    ensures HasToken(req.cookies) ==>
      h.response == (if !reply.errored && reply.statusCode == 200
                     then Response(200, [], Render("create_collage.ejs", cfg.appName, GetUserFirstName(reply.body.displayName)))
                     else Response(400, [], ErrorMessage(FetchErrorText)))
  {
    if !HasToken(req.cookies) then
      Handled(None, Response(302, [], RedirectTo("/")))
    else
      var call := ApiGet(ProfileUrl, "Bearer " + req.cookies[TokenCookie]);
      if !reply.errored && reply.statusCode == 200 then
        Handled(Some(call), Response(200, [], Render("create_collage.ejs", cfg.appName, GetUserFirstName(reply.body.displayName))))
      else
        Handled(Some(call), Response(400, [], ErrorMessage(FetchErrorText)))
  }

  /** /logout: drop only the app's token cookie and go home. */
  function Logout(): (h: Handled)
    ensures h.call.None?
    ensures forall op :: op in h.response.cookies ==> op == ClearCookie(TokenCookie)
    ensures h.response.status == 302 && h.response.body == RedirectTo("/")
  {
    Handled(None, Response(302, [ClearCookie(TokenCookie)], RedirectTo("/")))
  }

  /** Logging out removes the token cookie and keeps every other cookie. */
  lemma LogoutClearsOnlyToken(jar: map<string, string>)
    ensures var after := ApplyCookies(jar, Logout().response.cookies);
      && TokenCookie !in after
      && forall name :: name in jar && name != TokenCookie ==> name in after && after[name] == jar[name]
  {
    ApplyOne(jar, ClearCookie(TokenCookie));
  }

  /** The proxied top-tracks URL, with `time_range`, `offset` and `limit` defaulted. */
  function TopTracksQuery(query: map<string, string>): (url: string)
    ensures var given := (name: string, d: string) => if name in query && query[name] != "" then query[name] else d;
      url == TopTracksUrl + "?time_range=" + given("time_range", "short_term")
        + "&offset=" + given("offset", "0") + "&limit=" + given("limit", "20")
  {
    TopTracksUrl + "?time_range=" + OrDefault(query, "time_range", "short_term")
      + "&offset=" + OrDefault(query, "offset", "0")
      + "&limit=" + OrDefault(query, "limit", "20")
  }

  /** /api/getTopTracks: a token guard, then a relay of the upstream answer. */
  function ApiGetTopTracks(req: Request, reply: Reply<string>): (h: Handled)
    ensures h.call.None? <==> !HasToken(req.cookies)
    ensures !HasToken(req.cookies) ==> h.response == Response(400, [], ErrorText(TokenNotFound))
    ensures HasToken(req.cookies) ==>
      && h.call == Some(ApiGet(TopTracksQuery(req.query), "Bearer " + req.cookies[TokenCookie]))
      && h.response == if !reply.errored && reply.statusCode == 200 then Response(200, [], Relay(reply.body))
                       else Response(400, [], ErrorMessage(FetchErrorText))
    ensures h.response.cookies == []
  {
    if !HasToken(req.cookies) then
      Handled(None, Response(400, [], ErrorText(TokenNotFound)))
    else
      var call := ApiGet(TopTracksQuery(req.query), "Bearer " + req.cookies[TokenCookie]);
      if !reply.errored && reply.statusCode == 200 then Handled(Some(call), Response(200, [], Relay(reply.body)))
      else Handled(Some(call), Response(400, [], ErrorMessage(FetchErrorText)))
  }

  /** Without query parameters the proxy asks for 20 short-term tracks from offset 0. */
  lemma TopTracksDefaults()
    ensures TopTracksQuery(map[]) == TopTracksUrl + "?time_range=short_term&offset=0&limit=20"
  {
  }

  // ---------------------------------------------------------------------
  // Routes in sequence.
  // ---------------------------------------------------------------------

  /**
   * A browser that followed /login and comes back with the state it was
   * given passes the check, and the exchange is attempted with its code.
   */
  lemma LoginThenCallback(cfg: Config, randomBytes: seq<byte>, code: string, reply: Reply<TokenBody>)
    requires |randomBytes| == StateLength
    ensures var state := GenerateRandomString(StateLength, randomBytes);
      var jar := ApplyCookies(map[], Login(cfg, randomBytes).response.cookies);
      Callback(cfg, Request(jar, map["code" := code, "state" := state]), reply).call ==
        Some(TokenExchange(TokenUrl, if code == "" then None else Some(code), RedirectUri(cfg), "authorization_code",
                           BasicAuthorization(cfg.clientId, cfg.clientSecret)))
  {
    var state := GenerateRandomString(StateLength, randomBytes);
    var jar := ApplyCookies(map[], Login(cfg, randomBytes).response.cookies);
    ApplyOne(map[], SetCookie(StateCookie, state, None, false, false));
    assert jar == map[StateCookie := state];
    var req := Request(jar, map["code" := code, "state" := state]);
  }

  /**
   * A callback replayed with the cookies the first one left behind is
   * rejected, whatever the first outcome was: the state is single-use.
   */
  lemma CallbackIsSingleUse(cfg: Config, req: Request, first: Reply<TokenBody>, second: Reply<TokenBody>)
    ensures var jar := ApplyCookies(req.cookies, Callback(cfg, req, first).response.cookies);
      Callback(cfg, Request(jar, req.query), second) == Handled(None, Response(403, [], Text(CsrfMessage)))
  {
    var h := Callback(cfg, req, first);
    var jar := ApplyCookies(req.cookies, h.response.cookies);
    if StateAccepted(req) {
      if !first.errored && first.statusCode == 200 {
        ApplyTwo(req.cookies, h.response.cookies[0], h.response.cookies[1]);
      } else {
        ApplyOne(req.cookies, h.response.cookies[0]);
      }
      assert StateCookie !in jar;
    }
  }

  /** After a successful callback with a non-empty token, /create fetches the profile with it. */
  lemma CallbackThenCreate(cfg: Config, req: Request, reply: Reply<TokenBody>, profile: Reply<Profile>, token: string)
    requires StateAccepted(req) && !reply.errored && reply.statusCode == 200
    requires reply.body.accessToken == Some(token) && token != ""
    ensures var jar := ApplyCookies(req.cookies, Callback(cfg, req, reply).response.cookies);
      Create(cfg, Request(jar, map[]), profile).call == Some(ApiGet(ProfileUrl, "Bearer " + token))
  {
    var ops := Callback(cfg, req, reply).response.cookies;
    var jar := ApplyCookies(req.cookies, ops);
    ApplyTwo(req.cookies, ops[0], ops[1]);
    assert jar == (req.cookies - {StateCookie})[TokenCookie := token];
  }

  /** After /logout the token is gone: /create redirects home without an upstream call. */
  lemma LogoutThenCreate(cfg: Config, jar: map<string, string>, query: map<string, string>, profile: Reply<Profile>)
    ensures var after := ApplyCookies(jar, Logout().response.cookies);
      Create(cfg, Request(after, query), profile) == Handled(None, Response(302, [], RedirectTo("/")))
  {
    ApplyOne(jar, ClearCookie(TokenCookie));
    assert ApplyCookies(jar, Logout().response.cookies) == jar - {TokenCookie};
  }
}
