/**
 * `FBUtils::login`: the decision structure of the login helper, with the
 * request superglobals, the cookie jar, the configuration, the fresh CSRF
 * state and the token endpoint made explicit. `LoginOutcome` states what one
 * call does; the `Login` method performs the same steps on a `Response`.
 *
 * Two contexts are told apart by the `signed_request` parameter. On the
 * canvas (inside the platform) the signed request carries the token. On an
 * external site the authorization-code flow of section 4.1 of RFC 6749 runs,
 * with the `state` parameter guarding against cross-site request forgery
 * (section 10.12 of RFC 6749).
 */
module Login {
  import opened Wrappers
  import opened PhpStrings
  import opened Url
  import opened SignedRequest

  /** The permissions asked for. */
  const Scope: string := "user_likes,user_photos,user_photo_video_tags"

  const DialogEndpoint: string := "https://www.facebook.com/dialog/oauth"

  const TokenEndpoint: string := "https://graph.facebook.com/oauth/access_token"

  /** Echoed when the `state` parameter does not match the cookie (two spaces, as written). */
  const CsrfWarning: string := "States do not match.  CSRF?"

  /** The application's configuration (`AppInfo`). */
  datatype AppConfig = AppConfig(appId: string, appSecret: string, home: string, canvasPage: ByteString)

  /** What `login` reads from the request: `$_REQUEST` parameters and `$_COOKIE`. */
  datatype Request = Request(
    signedRequest: Option<string>,
    code: Option<string>,
    state: Option<string>,
    cookies: map<string, string>)

  /** A `setcookie` call with all its arguments. */
  datatype Cookie = Cookie(
    name: string, value: string, expires: int, path: string, domain: string,
    secure: bool, httpOnly: bool)

  /** A server-to-server POST with a form-encoded body. */
  datatype TokenRequest = TokenRequest(url: string, body: string)

  /** The value `login` returns: null, false, or a token string. */
  datatype Returned = Null | False | Token(token: string)

  /**
   * Everything one call does: the redirect it echoes (as a script), the
   * message it echoes, the cookie it sets, the POST it makes, and its result.
   */
  datatype Outcome = Outcome(
    redirect: Option<string>,
    message: Option<string>,
    cookie: Option<Cookie>,
    exchange: Option<TokenRequest>,
    returned: Returned)

  /** A PHP lookup returned: a missing entry is null. */
  function ReturnedOf(v: Option<string>): Returned {
    if v.Some? then Token(v.value) else Null
  }

  /** Name of the cookie that holds the CSRF state. */
  function StateCookieName(cfg: AppConfig): string {
    cfg.appId + "-fb-app"
  }

  /** A character `setcookie` refuses in a cookie name: `=`, `,`, `;`, space, tab, CR, LF, VT or FF. */
  predicate RefusedInCookieName(c: char) {
    c == '=' || c == ',' || c == ';' || c == ' ' || c == '\t' || c == '\r' || c == '\n' ||
    c == 11 as char || c == 12 as char
  }

  /** PHP's registration of an incoming cookie name in `$_COOKIE`, on one character. */
  function IncomingCookieChar(c: char): char {
    if c == '.' || c == ' ' then '_' else c
  }

  /**
   * The key under which `$_COOKIE` holds an incoming cookie: PHP turns every
   * `.` and space of the name into `_`, and keeps the length.
   */
  function IncomingCookieName(name: string): (key: string)
    ensures |key| == |name|
    ensures forall i :: 0 <= i < |name| ==> key[i] == IncomingCookieChar(name[i])
  {
    if name == [] then [] else [IncomingCookieChar(name[0])] + IncomingCookieName(name[1..])
  }

  /**
   * `$_COOKIE` on the request after `c` was set: empty when `setcookie`
   * refuses the name (it is empty or holds a refused character) or when the
   * value is empty (`setcookie` then sends a deletion), and otherwise the
   * value under the name as PHP registers it.
   */
  function ReturnedCookies(c: Cookie): map<string, string> {
    if c.name == [] || exists i | 0 <= i < |c.name| :: RefusedInCookieName(c.name[i]) then map[]
    else if c.value == [] then map[]
    else map[IncomingCookieName(c.name) := c.value]
  }

  /** A cookie name that is set and comes back under itself: non-empty, no refused character and no `.`. */
  predicate IsPlainCookieName(name: string) {
    name != [] && forall i | 0 <= i < |name| :: !RefusedInCookieName(name[i]) && name[i] != '.'
  }

  /**
   * The cookie set before the external redirect: session-long, HTTP-only,
   * not secure-only. On the next request it is found again under the name
   * the state check looks up, holding the state, exactly when that name is
   * plain and the state is not empty; otherwise the check finds nothing.
   */
  function StateCookie(cfg: AppConfig, state: string): (c: Cookie)
    ensures IsPlainCookieName(StateCookieName(cfg)) && state != [] ==>
      Lookup(Some(ReturnedCookies(c)), StateCookieName(cfg)) == Some(state)
    ensures !IsPlainCookieName(StateCookieName(cfg)) || state == [] ==>
      Lookup(Some(ReturnedCookies(c)), StateCookieName(cfg)) == None
  {
    var c := Cookie(StateCookieName(cfg), state, 0, "", "", false, true);
    ReturnedStateCookie(c);
    c
  }

  /** The platform's application ids are decimal digits, and their state cookie name is plain. */
  lemma DigitAppIdIsPlain(cfg: AppConfig)
    requires forall i | 0 <= i < |cfg.appId| :: '0' <= cfg.appId[i] <= '9'
    ensures IsPlainCookieName(StateCookieName(cfg))
  {
    var name := StateCookieName(cfg);
    forall i | 0 <= i < |name| ensures !RefusedInCookieName(name[i]) && name[i] != '.' {
      if i < |cfg.appId| {
        assert name[i] == cfg.appId[i];
      } else {
        assert name[i] == "-fb-app"[i - |cfg.appId|];
      }
    }
  }

  /** The cookies sent back hold `c` under its own name exactly when the name is plain and the value set. */
  lemma ReturnedStateCookie(c: Cookie)
    ensures IsPlainCookieName(c.name) && c.value != [] ==>
      Lookup(Some(ReturnedCookies(c)), c.name) == Some(c.value)
    ensures !IsPlainCookieName(c.name) || c.value == [] ==> Lookup(Some(ReturnedCookies(c)), c.name) == None
  {
    var key := IncomingCookieName(c.name);
    if c.value == [] {
    } else if IsPlainCookieName(c.name) {
      assert forall i | 0 <= i < |c.name| :: key[i] == c.name[i];
      assert key == c.name;
    } else if c.name != [] && !(exists i | 0 <= i < |c.name| :: RefusedInCookieName(c.name[i])) {
      var i :| 0 <= i < |c.name| && (RefusedInCookieName(c.name[i]) || c.name[i] == '.');
      assert key[i] == '_';
      assert key != c.name;
    }
  }

  /**
   * The authorization dialog for the canvas, returning to the URL-encoded
   * canvas page. When the application id holds neither `&` nor `#`, the
   * query the dialog receives reads as client id, encoded page and scope, and
   * decoding gives the page back.
   */
  function CanvasAuthUrl(cfg: AppConfig): (url: string)
    ensures '&' !in cfg.appId && '#' !in cfg.appId ==>
      QueryPairs(url) == [("client_id", cfg.appId), ("redirect_uri", UrlEncode(cfg.canvasPage)), ("scope", Scope)]
    ensures '&' !in cfg.appId && '#' !in cfg.appId ==> UrlDecode(QueryPairs(url)[1].1) == cfg.canvasPage
  {
    var url := DialogEndpoint + "?client_id=" + cfg.appId +
      "&redirect_uri=" + UrlEncode(cfg.canvasPage) + "&scope=" + Scope;
    assert '&' !in cfg.appId && '#' !in cfg.appId ==>
      && UrlDecode(UrlEncode(cfg.canvasPage)) == cfg.canvasPage
      && QueryPairs(url) == [("client_id", cfg.appId), ("redirect_uri", UrlEncode(cfg.canvasPage)), ("scope", Scope)]
    by {
      if '&' !in cfg.appId && '#' !in cfg.appId {
        CanvasQuery(cfg.appId, cfg.canvasPage);
        UrlDecodeEncode(cfg.canvasPage);
      }
    }
    url
  }

  /**
   * The authorization dialog for an external site, returning to the home URL.
   * Neither the home URL nor the state is encoded; when none of the
   * application id, home URL and state holds an `&` or a `#`, the query the
   * dialog receives reads as client id, home URL, state and scope.
   */
  function AuthorizeUrl(cfg: AppConfig, state: string): (url: string)
    ensures ('&' !in cfg.appId && '&' !in cfg.home && '&' !in state &&
       '#' !in cfg.appId && '#' !in cfg.home && '#' !in state) ==>
      QueryPairs(url) == [("client_id", cfg.appId), ("redirect_uri", cfg.home), ("state", state), ("scope", Scope)]
  {
    var url := DialogEndpoint + "?client_id=" + cfg.appId + "&redirect_uri=" + cfg.home +
      "&state=" + state + "&scope=" + Scope;
    assert ('&' !in cfg.appId && '&' !in cfg.home && '&' !in state &&
       '#' !in cfg.appId && '#' !in cfg.home && '#' !in state) ==>
      QueryPairs(url) == [("client_id", cfg.appId), ("redirect_uri", cfg.home), ("state", state), ("scope", Scope)]
    by {
      if '&' !in cfg.appId && '&' !in cfg.home && '&' !in state &&
         '#' !in cfg.appId && '#' !in cfg.home && '#' !in state {
        AuthorizeQuery(cfg.appId, cfg.home, state);
      }
    }
    url
  }

  /**
   * The body of the code-for-token POST. Nothing in it is encoded; when
   * none of the application id, home URL, secret and code holds an `&`, it
   * reads as client id, home URL, secret, code and scope.
   */
  function ExchangeBody(cfg: AppConfig, code: string): (body: string)
    ensures '&' !in cfg.appId && '&' !in cfg.home && '&' !in cfg.appSecret && '&' !in code ==>
      FormPairs(body) == [("client_id", cfg.appId), ("redirect_uri", cfg.home),
        ("client_secret", cfg.appSecret), ("code", code), ("scope", Scope)]
  {
    var body := "client_id=" + cfg.appId + "&redirect_uri=" + cfg.home + "&client_secret=" +
      cfg.appSecret + "&code=" + code + "&scope=" + Scope;
    assert '&' !in cfg.appId && '&' !in cfg.home && '&' !in cfg.appSecret && '&' !in code ==>
      FormPairs(body) == [("client_id", cfg.appId), ("redirect_uri", cfg.home),
        ("client_secret", cfg.appSecret), ("code", code), ("scope", Scope)]
    by {
      if '&' !in cfg.appId && '&' !in cfg.home && '&' !in cfg.appSecret && '&' !in code {
        ExchangeForm(cfg.appId, cfg.home, cfg.appSecret, code);
      }
    }
    body
  }

  /**
   * The text between the first `'` of `s` and the next one: the address a
   * `top.location.href='...'` assignment sends the browser to.
   */
  function QuotedTarget(s: string): Option<string> {
    var (_, rest) := SplitAtFirst(s, '\'');
    if rest.None? then None
    else
      var (inner, close) := SplitAtFirst(rest.value, '\'');
      if close.None? then None else Some(inner)
  }

  /**
   * The script echoed to send the browser to `url`. The URL is not escaped:
   * for a URL without `'` the string literal assigned to `top.location.href`
   * is written as `url`. Whether the browser then goes to `url` also depends
   * on its holding no backslash, line break or `</script>`, which is not
   * examined here.
   */
  function RedirectScript(url: string): (script: string)
    ensures '\'' !in url ==> QuotedTarget(script) == Some(url)
  {
    var script := "<script> top.location.href='" + url + "'</script>";
    assert '\'' !in url ==> QuotedTarget(script) == Some(url) by {
      if '\'' !in url {
        ScriptTarget(url);
      }
    }
    script
  }

  lemma ScriptTarget(url: string)
    requires '\'' !in url
    ensures QuotedTarget("<script> top.location.href='" + url + "'</script>") == Some(url)
  {
    var open, close := "<script> top.location.href=", "</script>";
    assert "<script> top.location.href='" == open + ['\''];
    assert "'</script>" == ['\''] + close;
    assert "<script> top.location.href='" + url + "'</script>" == open + ['\''] + (url + ['\''] + close);
    SplitAtFirstOfJoin(open, url + ['\''] + close, '\'');
    SplitAtFirstOfJoin(url, close, '\'');
  }

  /** Everything an outcome echoes, in order. */
  function Echoed(o: Outcome): string {
    (if o.redirect.Some? then RedirectScript(o.redirect.value) else "") + o.message.GetOr("")
  }

  /**
   * The payload of a signed request, decoded but NOT verified. It is the
   * payload the verifier examines: whenever verification succeeds, under any
   * secret, the verified data is exactly this, and a payload not claiming
   * HMAC-SHA256 fails under every secret.
   */
  function UnverifiedPayload(signedRequest: string, lib: Library): (data: Option<Fields>)
    ensures forall secret :: ParseSignedRequest(signedRequest, secret, lib).Verified? ==>
      data == Some(ParseSignedRequest(signedRequest, secret, lib).data)
    ensures !ClaimsHmacSha256(data) ==>
      forall secret :: ParseSignedRequest(signedRequest, secret, lib) == UnknownAlgorithm
  {
    var (_, payload) := SplitAtFirst(signedRequest, '.');
    PayloadData(payload.GetOr(""), lib)
  }

  /**
   * One call of `login`. `freshState` stands for `md5(uniqid(rand(), TRUE))`,
   * and `endpoint` for the token endpoint's reply to a POST, as `parse_str`
   * reads it. A cookie is set only together with a redirect, and a token
   * exchange never comes with a redirect or a message.
   */
  function LoginOutcome(
    req: Request, cfg: AppConfig, freshState: string, lib: Library,
    endpoint: TokenRequest -> map<string, string>): (o: Outcome)
    ensures o.cookie.Some? ==> o.redirect.Some? && o.exchange.None?
    ensures o.exchange.Some? ==> o.redirect.None? && o.message.None? && o.cookie.None?
  {
    if !IsEmpty(req.signedRequest) then
      var signedRequest := req.signedRequest.value;
      var redirect :=
        if IsEmpty(Lookup(UnverifiedPayload(signedRequest, lib), "user_id"))
        then Some(CanvasAuthUrl(cfg)) else None;
      var response := ParseSignedRequest(signedRequest, cfg.appSecret, lib);
      Outcome(redirect, None, None, None, ReturnedOf(Lookup(response.AsPhpValue(), "oauth_token")))
    else if IsEmpty(req.code) then
      Outcome(Some(AuthorizeUrl(cfg, freshState)), None, Some(StateCookie(cfg, freshState)), None, False)
    else if req.state == Lookup(Some(req.cookies), StateCookieName(cfg)) then
      var post := TokenRequest(TokenEndpoint, ExchangeBody(cfg, req.code.value));
      Outcome(None, None, None, Some(post), ReturnedOf(Lookup(Some(endpoint(post)), "access_token")))
    else
      Outcome(None, Some(CsrfWarning), None, None, False)
  }

  /**
   * The canvas branch: a non-empty `signed_request` sets no cookie, makes no
   * POST and echoes no warning. The dialog redirect is emitted exactly when
   * the unverified payload has an empty `user_id`, and it does not end the
   * call: the result is still the `oauth_token` of the VERIFIED payload, and
   * null when verification fails or the token is missing.
   */
  lemma CanvasBranch(
    req: Request, cfg: AppConfig, freshState: string, lib: Library,
    endpoint: TokenRequest -> map<string, string>)
    requires !IsEmpty(req.signedRequest)
    ensures var o := LoginOutcome(req, cfg, freshState, lib, endpoint);
      var verdict := ParseSignedRequest(req.signedRequest.value, cfg.appSecret, lib);
      && o.cookie.None? && o.exchange.None? && o.message.None?
      && (o.redirect.Some? <==> IsEmpty(Lookup(UnverifiedPayload(req.signedRequest.value, lib), "user_id")))
      && (o.redirect.Some? ==> o.redirect.value == CanvasAuthUrl(cfg))
      && (o.returned.Token? <==> verdict.Verified? && "oauth_token" in verdict.data)
      && (o.returned.Token? ==> o.returned.token == verdict.data["oauth_token"])
      && (!o.returned.Token? ==> o.returned == Null)
  {
  }

  lemma DialogHasNoQuery()
    ensures '?' !in DialogEndpoint && '#' !in DialogEndpoint && '#' !in Scope
  {
  }

  lemma CanvasFields(x: string, y: string)
    ensures DialogEndpoint + "?client_id=" + x + "&redirect_uri=" + y + "&scope=" + Scope
         == DialogEndpoint + "?" + Field(("client_id", x)) + "&" + Field(("redirect_uri", y)) + "&" + Field(("scope", Scope))
  {
    assert "?client_id=" == "?" + "client_id" + "=";
    assert "&redirect_uri=" == "&" + "redirect_uri" + "=";
    assert "&scope=" == "&" + "scope" + "=";
    RegroupThree(DialogEndpoint, "client_id", x, "redirect_uri", y, "scope", Scope);
  }

  lemma AuthorizeFields(x: string, h: string, st: string)
    ensures DialogEndpoint + "?client_id=" + x + "&redirect_uri=" + h + "&state=" + st + "&scope=" + Scope
         == DialogEndpoint + "?" + Field(("client_id", x)) + "&" + Field(("redirect_uri", h)) + "&" +
            Field(("state", st)) + "&" + Field(("scope", Scope))
  {
    assert "?client_id=" == "?" + "client_id" + "=";
    assert "&redirect_uri=" == "&" + "redirect_uri" + "=";
    assert "&state=" == "&" + "state" + "=";
    assert "&scope=" == "&" + "scope" + "=";
    RegroupFour(DialogEndpoint, "client_id", x, "redirect_uri", h, "state", st, "scope", Scope);
  }

  lemma ExchangeFields(x: string, h: string, secret: string, code: string)
    ensures "client_id=" + x + "&redirect_uri=" + h + "&client_secret=" + secret + "&code=" + code + "&scope=" + Scope
         == Field(("client_id", x)) + "&" + Field(("redirect_uri", h)) + "&" + Field(("client_secret", secret)) + "&" +
            Field(("code", code)) + "&" + Field(("scope", Scope))
  {
    assert "client_id=" == "client_id" + "=";
    assert "&redirect_uri=" == "&" + "redirect_uri" + "=";
    assert "&client_secret=" == "&" + "client_secret" + "=";
    assert "&code=" == "&" + "code" + "=";
    assert "&scope=" == "&" + "scope" + "=";
    RegroupFive("client_id", x, "redirect_uri", h, "client_secret", secret, "code", code, "scope", Scope);
  }

  /** The canvas dialog URL for application id `x` and canvas page `page`, read back. */
  lemma CanvasQuery(x: string, page: ByteString)
    requires '&' !in x && '#' !in x
    ensures QueryPairs(DialogEndpoint + "?client_id=" + x + "&redirect_uri=" + UrlEncode(page) + "&scope=" + Scope)
         == [("client_id", x), ("redirect_uri", UrlEncode(page)), ("scope", Scope)]
  {
    var y := UrlEncode(page);
    var a, b, c := ("client_id", x), ("redirect_uri", y), ("scope", Scope);
    UrlEncodedHasNoAmpersand(page);
    UrlEncodedHasNoHash(page);
    DialogHasNoQuery();
    assert IsPlainPair(a) && HasNoHash(a);
    assert IsPlainPair(b) && HasNoHash(b);
    assert IsPlainPair(c) && HasNoHash(c);
    CanvasFields(x, y);
    QueryPairsOfThree(DialogEndpoint, a, b, c);
  }

  /** The external dialog URL for application id `x`, home `h` and state `st`, read back. */
  lemma AuthorizeQuery(x: string, h: string, st: string)
    requires '&' !in x && '&' !in h && '&' !in st
    requires '#' !in x && '#' !in h && '#' !in st
    ensures QueryPairs(DialogEndpoint + "?client_id=" + x + "&redirect_uri=" + h + "&state=" + st + "&scope=" + Scope)
         == [("client_id", x), ("redirect_uri", h), ("state", st), ("scope", Scope)]
  {
    AuthorizeFields(x, h, st);
    DialogHasNoQuery();
    QueryPairsOfFour(DialogEndpoint, ("client_id", x), ("redirect_uri", h), ("state", st), ("scope", Scope));
  }

  /** The token POST body for application id `x`, home `h`, `secret` and `code`, read back. */
  lemma ExchangeForm(x: string, h: string, secret: string, code: string)
    requires '&' !in x && '&' !in h && '&' !in secret && '&' !in code
    ensures FormPairs("client_id=" + x + "&redirect_uri=" + h + "&client_secret=" + secret + "&code=" + code +
                      "&scope=" + Scope)
         == [("client_id", x), ("redirect_uri", h), ("client_secret", secret), ("code", code), ("scope", Scope)]
  {
    ExchangeFields(x, h, secret, code);
    FormPairsOfFive(("client_id", x), ("redirect_uri", h), ("client_secret", secret), ("code", code),
      ("scope", Scope));
  }

  /** `md5()` output: 32 lower-case hexadecimal digits. */
  predicate IsMd5Hex(s: string) {
    |s| == 32 && forall i | 0 <= i < |s| :: '0' <= s[i] <= '9' || 'a' <= s[i] <= 'f'
  }

  /**
   * The first visit to an external site (no signed request, no code): one
   * cookie named `<appId>-fb-app` holding the fresh state, a redirect to the
   * login dialog, no exchange, no warning, and `false`.
   */
  lemma FirstVisitSetsState(
    req: Request, cfg: AppConfig, freshState: string, lib: Library,
    endpoint: TokenRequest -> map<string, string>)
    requires IsEmpty(req.signedRequest) && IsEmpty(req.code)
    ensures var o := LoginOutcome(req, cfg, freshState, lib, endpoint);
      && o.cookie.Some?
      && o.cookie.value.name == StateCookieName(cfg)
      && o.cookie.value.value == freshState
      && o.cookie.value.httpOnly && !o.cookie.value.secure && o.cookie.value.expires == 0
      && o.redirect == Some(AuthorizeUrl(cfg, freshState))
      && o.exchange.None? && o.message.None? && o.returned == False
  {
  }

  /**
   * The callback with a code whose `state` is identical to the state cookie
   * (both possibly missing): one POST to the token endpoint with that code,
   * and the result is the reply's `access_token` (null when missing).
   */
  lemma MatchingCallbackExchanges(
    req: Request, cfg: AppConfig, freshState: string, lib: Library,
    endpoint: TokenRequest -> map<string, string>)
    requires IsEmpty(req.signedRequest) && !IsEmpty(req.code)
    requires req.state == Lookup(Some(req.cookies), StateCookieName(cfg))
    ensures var o := LoginOutcome(req, cfg, freshState, lib, endpoint);
      && o.exchange == Some(TokenRequest(TokenEndpoint, ExchangeBody(cfg, req.code.value)))
      && o.redirect.None? && o.cookie.None? && o.message.None?
      && (o.returned.Token? <==> "access_token" in endpoint(o.exchange.value))
      && (o.returned.Token? ==> o.returned.token == endpoint(o.exchange.value)["access_token"])
      && (!o.returned.Token? ==> o.returned == Null)
  {
  }

  /**
   * The callback with a code whose `state` differs from the state cookie:
   * the CSRF warning is echoed, `false` is returned and no POST is made.
   */
  lemma MismatchedCallbackRejected(
    req: Request, cfg: AppConfig, freshState: string, lib: Library,
    endpoint: TokenRequest -> map<string, string>)
    requires IsEmpty(req.signedRequest) && !IsEmpty(req.code)
    requires req.state != Lookup(Some(req.cookies), StateCookieName(cfg))
    ensures var o := LoginOutcome(req, cfg, freshState, lib, endpoint);
      && o.exchange.None? && o.cookie.None? && o.redirect.None?
      && o.message == Some(CsrfWarning) && o.returned == False
  {
  }

  /**
   * A token exchange happens exactly on an external callback carrying a
   * non-empty code whose `state` equals the state cookie.
   */
  lemma ExchangeOnlyOnMatchingCallback(
    req: Request, cfg: AppConfig, freshState: string, lib: Library,
    endpoint: TokenRequest -> map<string, string>)
    ensures LoginOutcome(req, cfg, freshState, lib, endpoint).exchange.Some? <==>
      IsEmpty(req.signedRequest) && !IsEmpty(req.code) && req.state == Lookup(Some(req.cookies), StateCookieName(cfg))
  {
  }

  /** A cookie is set exactly on a first visit to the external site. */
  lemma CookieOnlyOnFirstVisit(
    req: Request, cfg: AppConfig, freshState: string, lib: Library,
    endpoint: TokenRequest -> map<string, string>)
    ensures LoginOutcome(req, cfg, freshState, lib, endpoint).cookie.Some? <==>
      IsEmpty(req.signedRequest) && IsEmpty(req.code)
  {
  }

  /**
   * The state check is PHP's `===`, under which a missing `state` parameter
   * equals a missing cookie: a callback carrying a code but neither of the two
   * still reaches the token endpoint.
   */
  lemma MissingStateAndCookieAccepted(
    req: Request, cfg: AppConfig, freshState: string, lib: Library,
    endpoint: TokenRequest -> map<string, string>)
    requires IsEmpty(req.signedRequest) && !IsEmpty(req.code)
    requires req.state.None? && StateCookieName(cfg) !in req.cookies
    ensures LoginOutcome(req, cfg, freshState, lib, endpoint).exchange.Some?
  {
  }

  /**
   * The whole external flow: the first visit sets a cookie and redirects with
   * a state; a callback that returns that state, carries the cookie back and
   * brings a code makes one POST whose `code` field is that code.
   */
  lemma ExternalFlowRoundTrip(
    cfg: AppConfig, freshState: string, otherState: string, code: string, lib: Library,
    endpoint: TokenRequest -> map<string, string>)
    requires IsMd5Hex(freshState)
    requires '&' !in cfg.appId && '&' !in cfg.home && '&' !in cfg.appSecret && '&' !in code
    requires '#' !in cfg.appId && '#' !in cfg.home
    requires IsPlainCookieName(StateCookieName(cfg))
    requires !IsEmpty(Some(code))
    ensures var first := LoginOutcome(Request(None, None, None, map[]), cfg, freshState, lib, endpoint);
      && first.cookie.Some? && first.redirect.Some?
      && |QueryPairs(first.redirect.value)| == 4
      && QueryPairs(first.redirect.value)[2] == ("state", first.cookie.value.value)
      && var jar := ReturnedCookies(first.cookie.value);
      var second := LoginOutcome(Request(None, Some(code), Some(QueryPairs(first.redirect.value)[2].1), jar),
        cfg, otherState, lib, endpoint);
      && second.exchange.Some?
      && |FormPairs(second.exchange.value.body)| == 5
      && FormPairs(second.exchange.value.body)[3] == ("code", code)
  {
    forall i | 0 <= i < |freshState| ensures freshState[i] != '&' && freshState[i] != '#' {
    }
    assert freshState != [];
  }

  /**
   * When the state cookie's name does not come back under itself (an
   * application id with a `.`, say, which PHP registers with `_`), the
   * callback that returns the state with the cookie jar is rejected as a
   * CSRF attempt, and no POST is made.
   */
  lemma UnplainCookieNameRejectsCallback(
    cfg: AppConfig, freshState: string, otherState: string, code: string, lib: Library,
    endpoint: TokenRequest -> map<string, string>)
    requires !IsPlainCookieName(StateCookieName(cfg))
    requires !IsEmpty(Some(code))
    ensures var first := LoginOutcome(Request(None, None, None, map[]), cfg, freshState, lib, endpoint);
      && first.cookie.Some?
      && var second := LoginOutcome(Request(None, Some(code), Some(first.cookie.value.value),
        ReturnedCookies(first.cookie.value)), cfg, otherState, lib, endpoint);
      && second.exchange.None? && second.message == Some(CsrfWarning) && second.returned == False
  {
  }

  /** The HTTP response being built, and the server-to-server requests made while building it. */
  class Response {
    /** Text written with `echo`. */
    var output: string
    /** `setcookie` calls, in order. */
    var cookies: seq<Cookie>
    /** POSTs sent with curl, in order. */
    var posts: seq<TokenRequest>

    constructor ()
      ensures output == [] && cookies == [] && posts == []
    {
      output, cookies, posts := [], [], [];
    }

    method Echo(text: string)
      modifies this
      ensures output == old(output) + text
      ensures cookies == old(cookies) && posts == old(posts)
    {
      output := output + text;
    }

    method SetCookie(c: Cookie)
      modifies this
      ensures cookies == old(cookies) + [c]
      ensures output == old(output) && posts == old(posts)
    {
      cookies := cookies + [c];
    }

    /** `curl_exec` of a POST: the request is recorded and the endpoint's parsed reply returned. */
    method Post(request: TokenRequest, endpoint: TokenRequest -> map<string, string>)
      returns (reply: map<string, string>)
      modifies this
      ensures posts == old(posts) + [request] && reply == endpoint(request)
      ensures output == old(output) && cookies == old(cookies)
    {
      posts := posts + [request];
      reply := endpoint(request);
    }
  }

  function CookiesOf(o: Outcome): seq<Cookie> {
    if o.cookie.Some? then [o.cookie.value] else []
  }

  function PostsOf(o: Outcome): seq<TokenRequest> {
    if o.exchange.Some? then [o.exchange.value] else []
  }

  /**
   * `FBUtils::login`, step by step on `response`: it echoes, sets cookies and
   * posts exactly what `LoginOutcome` describes, and returns its result.
   */
  method Login(
    response: Response, req: Request, cfg: AppConfig, freshState: string, lib: Library,
    endpoint: TokenRequest -> map<string, string>)
    returns (r: Returned)
    modifies response
    ensures var o := LoginOutcome(req, cfg, freshState, lib, endpoint);
      && r == o.returned
      && response.output == old(response.output) + Echoed(o)
      && response.cookies == old(response.cookies) + CookiesOf(o)
      && response.posts == old(response.posts) + PostsOf(o)
  {
    if !IsEmpty(req.signedRequest) {
      var authUrl := CanvasAuthUrl(cfg);
      var data := UnverifiedPayload(req.signedRequest.value, lib);
      if IsEmpty(Lookup(data, "user_id")) {
        response.Echo(RedirectScript(authUrl));
      } else {
        assert response.output == old(response.output) + "";
      }
      var verdict := ParseSignedRequest(req.signedRequest.value, cfg.appSecret, lib);
      r := ReturnedOf(Lookup(verdict.AsPhpValue(), "oauth_token"));
    } else if IsEmpty(req.code) {
      response.SetCookie(StateCookie(cfg, freshState));
      var authorizeUrl := AuthorizeUrl(cfg, freshState);
      response.Echo(RedirectScript(authorizeUrl));
      r := False;
    } else if req.state == Lookup(Some(req.cookies), StateCookieName(cfg)) {
      var post := TokenRequest(TokenEndpoint, ExchangeBody(cfg, req.code.value));
      var reply := response.Post(post, endpoint);
      r := ReturnedOf(Lookup(Some(reply), "access_token"));
      assert response.output == old(response.output) + "";
    } else {
      response.Echo(CsrfWarning);
      r := False;
    }
  }
}
