/**
  The `action` of app/routes/api.auth.login.ts (POST /api/auth/login).

  The route checks the method, reads `username` and `password` from the
  JSON body, asks `authenticateUser` and, on success, sets the `token`
  cookie to a token from `generateToken`. The credential check and the
  token issuer are parameters; `AuthenticateUser` models the one step of
  app/lib/auth.server.ts that the route's outcome depends on, the username
  comparison.
*/
module LoginRoute {

  import opened Wrappers
  import opened Text
  import opened Http
  import opened AuthGuard

  const UsernameField: Str := Lit("username")
  const PasswordField: Str := Lit("password")

  /** The attributes written after the `token=<value>` pair of the `Set-Cookie` header. */
  const PathAttribute: Str := Lit("; Path=/")
  const HttpOnlyAttribute: Str := Lit("; HttpOnly")
  const SecureAttribute: Str := Lit("; Secure")
  const SameSiteAttribute: Str := Lit("; SameSite=Strict")
  const MaxAgeName: Str := Lit("; Max-Age=")
  const MaxAgeValue: Str := Lit("604800")
  const CookieAttributes: Str :=
    PathAttribute + HttpOnlyAttribute + SecureAttribute + SameSiteAttribute + MaxAgeName + MaxAgeValue

  /** The token's `expiresIn: "7d"`, in seconds. */
  const TokenLifetime := 7 * 24 * 60 * 60

  const MethodNotAllowed: Str := Lit("Method not allowed")
  const CredentialsRequired: Str := Lit("ユーザー名とパスワードが必要です")
  const InvalidCredentials: Str := Lit("ユーザー名またはパスワードが正しくありません")
  const LoginSucceeded: Str := Lit("ログインに成功しました")
  const ServerError: Str := Lit("サーバーエラーが発生しました")

  /** How `await authenticateUser(username, password)` settles. */
  datatype Check = Accepted | Rejected | Failed

  datatype Payload = Failure(error: Str) | LoggedIn(message: Str)

  datatype Response = Response(status: int, payload: Payload, setCookie: Option<Str>)

  /** The `Set-Cookie` header for a token. */
  function SessionCookie(token: Str): Str {
    TokenCookie(token) + CookieAttributes
  }

  /**
    `action`. Any exception (a body that is not JSON, destructuring a `null`
    body, a failing password check) ends in the `catch` block and 500.
  */
  function Respond(req: Request, authenticate: (JsValue, JsValue) -> Check, issue: JsValue -> Str): (r: Response)
    ensures r.setCookie.Some? <==> r.status == 200
    ensures r.status == 200 ==>
      && req.httpMethod == Post && req.body.Fields?
      && var username := Get(req.body.fields, UsernameField);
        var password := Get(req.body.fields, PasswordField);
        && Truthy(username) && Truthy(password)
        && authenticate(username, password) == Accepted
        && r.setCookie == Some(SessionCookie(issue(username)))
  {
    if req.httpMethod != Post then Response(405, Failure(MethodNotAllowed), None)
    else
      match req.body
      case Unparsable(_) => Response(500, Failure(ServerError), None)
      case NullRoot => Response(500, Failure(ServerError), None)
      case Fields(fields) =>
        var username := Get(fields, UsernameField);
        var password := Get(fields, PasswordField);
        if !Truthy(username) || !Truthy(password) then Response(400, Failure(CredentialsRequired), None)
        else
          match authenticate(username, password)
          case Failed => Response(500, Failure(ServerError), None)
          case Rejected => Response(401, Failure(InvalidCredentials), None)
          case Accepted => Response(200, LoggedIn(LoginSucceeded), Some(SessionCookie(issue(username))))
  }

  /**
    `authenticateUser`: a username other than the configured one is refused
    without looking at the password; otherwise `compare` (bcrypt) decides.
  */
  function AuthenticateUser(configured: Str, compare: JsValue -> Check, username: JsValue, password: JsValue): (c: Check)
    ensures username != String(configured) ==> c == Rejected
  {
    if username != String(configured) then Rejected else compare(password)
  }

  // ---------------------------------------------------------------------------
  // Properties

  /** A request that is not a POST gets 405 and no cookie, whatever its body. */
  lemma MethodCheckedFirst(req: Request, authenticate: (JsValue, JsValue) -> Check, issue: JsValue -> Str, body: Body)
    requires req.httpMethod != Post
    ensures Respond(req, authenticate, issue) == Respond(req.(body := body), authenticate, issue)
    ensures Respond(req, authenticate, issue) == Response(405, Failure(MethodNotAllowed), None)
  {
  }

  /**
    A POST whose body is not JSON, or is `null`, ends in the `catch` block:
    500 and no cookie, whatever `authenticateUser` and `generateToken` would do.
  */
  lemma UnreadableBodyFails(req: Request, authenticate: (JsValue, JsValue) -> Check, issue: JsValue -> Str)
    requires req.httpMethod == Post && !req.body.Fields?
    ensures Respond(req, authenticate, issue) == Response(500, Failure(ServerError), None)
  {
  }

  /** A failing credential check (bcrypt throwing) is also answered with 500 and no cookie. */
  lemma FailedCheckFails(req: Request, authenticate: (JsValue, JsValue) -> Check, issue: JsValue -> Str)
    requires req.httpMethod == Post && req.body.Fields?
    requires var username := Get(req.body.fields, UsernameField);
      var password := Get(req.body.fields, PasswordField);
      Truthy(username) && Truthy(password) && authenticate(username, password) == Failed
    ensures Respond(req, authenticate, issue) == Response(500, Failure(ServerError), None)
  {
  }

  /**
    A POST with a truthy username and password that `authenticateUser`
    accepts gets 200 and the session cookie for `generateToken(username)`.
  */
  lemma AcceptedLogsIn(req: Request, authenticate: (JsValue, JsValue) -> Check, issue: JsValue -> Str)
    requires req.httpMethod == Post && req.body.Fields?
    requires var username := Get(req.body.fields, UsernameField);
      var password := Get(req.body.fields, PasswordField);
      Truthy(username) && Truthy(password) && authenticate(username, password) == Accepted
    ensures Respond(req, authenticate, issue) ==
      Response(200, LoggedIn(LoginSucceeded), Some(SessionCookie(issue(Get(req.body.fields, UsernameField)))))
  {
  }

  /** A POST with truthy credentials that `authenticateUser` rejects gets 401 and no cookie, whatever the reason. */
  lemma RejectedGets401(req: Request, authenticate: (JsValue, JsValue) -> Check, issue: JsValue -> Str)
    requires req.httpMethod == Post && req.body.Fields?
    requires var username := Get(req.body.fields, UsernameField);
      var password := Get(req.body.fields, PasswordField);
      Truthy(username) && Truthy(password) && authenticate(username, password) == Rejected
    ensures Respond(req, authenticate, issue) == Response(401, Failure(InvalidCredentials), None)
  {
  }

  /** Every answer other than success leaves the cookie alone. */
  lemma FailuresSetNoCookie(req: Request, authenticate: (JsValue, JsValue) -> Check, issue: JsValue -> Str)
    ensures var r := Respond(req, authenticate, issue);
      r.status in {400, 401, 405, 500} <==> r.setCookie.None?
  {
  }

  /**
    With a missing or empty username or password the answer is 400 whatever
    `authenticateUser` and `generateToken` would do: neither is consulted.
  */
  lemma MissingCredentialsSkipAuthentication(
    req: Request, authenticate: (JsValue, JsValue) -> Check, issue: JsValue -> Str,
    authenticate': (JsValue, JsValue) -> Check, issue': JsValue -> Str)
    requires req.httpMethod == Post && req.body.Fields?
    requires !Truthy(Get(req.body.fields, UsernameField)) || !Truthy(Get(req.body.fields, PasswordField))
    ensures Respond(req, authenticate, issue) == Respond(req, authenticate', issue')
    ensures Respond(req, authenticate, issue).status == 400
  {
  }

  /** A wrong username is answered with 401 and no cookie, whatever the password. */
  lemma WrongUsernameRejected(req: Request, configured: Str, compare: JsValue -> Check, issue: JsValue -> Str)
    requires req.httpMethod == Post && req.body.Fields?
    requires var username := Get(req.body.fields, UsernameField);
      Truthy(username) && Truthy(Get(req.body.fields, PasswordField)) && username != String(configured)
    ensures var r := Respond(req, (u, p) => AuthenticateUser(configured, compare, u, p), issue);
      r.status == 401 && r.setCookie.None?
  {
  }

  /** The cookie's `Max-Age` is the token's seven-day lifetime. */
  lemma MaxAgeIsTokenLifetime()
    ensures MaxAgeValue == Decimal(TokenLifetime)
  {
    assert Decimal(6) == [0x36];
    assert Decimal(60) == [0x36, 0x30];
    assert Decimal(604) == Decimal(60) + [0x34];
    assert Decimal(6048) == Decimal(604) + [0x38];
    assert Decimal(60480) == Decimal(6048) + [0x30];
    assert Decimal(604800) == Decimal(60480) + [0x30];
  }

  /**
    A client splitting the `Set-Cookie` header at `"; "` finds the pair
    `token=<token>` first, provided the token contains no `"; "`.
  */
  lemma SessionCookiePair(token: Str)
    requires !Contains(token, CookieSeparator)
    ensures Split(SessionCookie(token), CookieSeparator)[0] == TokenCookie(token)
  {
    AttributesStartWithSeparator();
    TokenCookieLacksSeparator(token);
    SeparatorsBorderFree();
    SplitBefore(TokenCookie(token), CookieSeparator, CookieAttributes);
  }

  /** The attributes begin with the separator a client splits the header at. */
  lemma AttributesStartWithSeparator()
    ensures |CookieSeparator| <= |CookieAttributes| && CookieAttributes[..|CookieSeparator|] == CookieSeparator
  {
    assert CookieAttributes[..2] == PathAttribute[..2];
    assert PathAttribute[0] == 0x3B && PathAttribute[1] == 0x20;
    assert CookieSeparator == [0x3B, 0x20] == PathAttribute[..2];
  }

  /**
    Round trip with the guard: after a successful login, a later request
    whose `Cookie` header carries the pair `token=<token>` among cookies of
    other names is authenticated as whoever `verifyToken` says the token
    belongs to. Tokens are JWTs, which contain neither `=` nor `"; "`.
  */
  lemma LoginThenGuard(
    req: Request, authenticate: (JsValue, JsValue) -> Check, issue: JsValue -> Str,
    before: seq<Str>, after: seq<Str>, verify: Str -> Option<Str>, user: Str)
    requires Respond(req, authenticate, issue).status == 200
    requires var token := issue(Get(req.body.fields, UsernameField));
      && token != [] && !Contains(token, EqualsSign) && !Contains(token, CookieSeparator)
      && verify(token) == Some(user) && user != []
    requires forall p :: p in before ==> !Contains(p, CookieSeparator)
    requires forall p :: p in after ==> !Contains(p, CookieSeparator) && CookieEntry(p).name != TokenName
    ensures var token := issue(Get(req.body.fields, UsernameField));
      && Respond(req, authenticate, issue).setCookie == Some(SessionCookie(token))
      && RequireAuthAPI(Some(Join(before + [TokenCookie(token)] + after, CookieSeparator)), verify) == Authenticated(user)
  {
    var token := issue(Get(req.body.fields, UsernameField));
    TokenRoundTrip(before, token, after);
  }
}
