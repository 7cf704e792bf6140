/**
  The authentication guards of app/lib/auth.guard.ts.

  Both guards read the `Cookie` header, split it on `"; "`, split every
  piece on `"="`, and build an object with `Object.fromEntries`, which keeps
  the first two parts of each piece and lets a later duplicate name
  overwrite an earlier one. The token found under `token` is handed to
  `verifyToken`, a parameter here: it returns the username a valid token
  carries, or `None`.
*/
module AuthGuard {

  import opened Wrappers
  import opened Text

  /** An entry for `Object.fromEntries`: parts 0 and 1 of a piece; `None` is `undefined`. */
  datatype Entry = Entry(name: Str, value: Option<Str>)

  const TokenName: Str := Lit("token")
  const CookieSeparator: Str := Lit("; ")
  const EqualsSign: Str := Lit("=")
  const LoginPath: Str := Lit("/login")

  /** `cookie.split("=")`, as `Object.fromEntries` reads it. */
  function CookieEntry(piece: Str): Entry {
    var parts := Split(piece, EqualsSign);
    Entry(parts[0], if |parts| >= 2 then Some(parts[1]) else None)
  }

  function CookieEntries(header: Str): seq<Entry> {
    var pieces := Split(header, CookieSeparator);
    seq(|pieces|, k requires 0 <= k < |pieces| => CookieEntry(pieces[k]))
  }

  /** `Object.fromEntries`: entries are stored from left to right, so the last duplicate wins. */
  function FromEntries(entries: seq<Entry>): map<Str, Option<Str>> {
    if entries == [] then map[]
    else
      var last := entries[|entries| - 1];
      FromEntries(entries[..|entries| - 1])[last.name := last.value]
  }

  /** Reference definition: the value of the last entry named `name`, if any. */
  function LastValue(entries: seq<Entry>, name: Str): Option<Option<Str>> {
    if entries == [] then None
    else if entries[|entries| - 1].name == name then Some(entries[|entries| - 1].value)
    else LastValue(entries[..|entries| - 1], name)
  }

  function Lookup(cookies: map<Str, Option<Str>>, name: Str): Option<Option<Str>> {
    if name in cookies then Some(cookies[name]) else None
  }

  /** `cookies.token`, when the header is present and the value is truthy. */
  function TokenOf(cookie: Option<Str>): (t: Option<Str>)
    ensures t.Some? ==> t.value != [] && cookie.Some? && cookie.value != []
  {
    if cookie.None? || cookie.value == [] then None
    else
      match Lookup(FromEntries(CookieEntries(cookie.value)), TokenName)
      case Some(Some(token)) => if token == [] then None else Some(token)
      case _ => None
  }

  datatype ApiAuth = Unauthenticated | Authenticated(username: Str)

  datatype PageAuth = Redirect(location: Str) | Proceed(username: Str)

  /** `requireAuthAPI`: a falsy header, token or username gives `{authenticated: false}`. */
  function RequireAuthAPI(cookie: Option<Str>, verify: Str -> Option<Str>): ApiAuth {
    match TokenOf(cookie)
    case None => Unauthenticated
    case Some(token) =>
      match verify(token)
      case None => Unauthenticated
      case Some(username) => if username == [] then Unauthenticated else Authenticated(username)
  }

  /** `requireAuth`: the same checks, throwing a redirect to /login instead. */
  function RequireAuth(cookie: Option<Str>, verify: Str -> Option<Str>): PageAuth {
    if cookie.None? || cookie.value == [] then Redirect(LoginPath)
    else
      match TokenOf(cookie)
      case None => Redirect(LoginPath)
      case Some(token) =>
        match verify(token)
        case None => Redirect(LoginPath)
        case Some(username) => if username == [] then Redirect(LoginPath) else Proceed(username)
  }

  // ---------------------------------------------------------------------------
  // Properties

  /** `Object.fromEntries` keeps, for every name, the value of its last entry. */
  lemma {:induction false} FromEntriesLastWins(entries: seq<Entry>, name: Str)
    ensures Lookup(FromEntries(entries), name) == LastValue(entries, name)
  {
    if entries != [] {
      FromEntriesLastWins(entries[..|entries| - 1], name);
    }
  }

  /** Entries after the last one named `name` do not matter. */
  lemma {:induction false} LastValueSkips(entries: seq<Entry>, rest: seq<Entry>, name: Str)
    requires forall k :: 0 <= k < |rest| ==> rest[k].name != name
    ensures LastValue(entries + rest, name) == LastValue(entries, name)
  {
    if rest != [] {
      var all := entries + rest;
      assert all[..|all| - 1] == entries + rest[..|rest| - 1];
      assert all[|all| - 1] == rest[|rest| - 1];
      LastValueSkips(entries, rest[..|rest| - 1], name);
    } else {
      assert entries + rest == entries;
    }
  }

  /** Without a (non-empty) `Cookie` header neither guard lets the request through. */
  lemma NoCookieRejected(cookie: Option<Str>, verify: Str -> Option<Str>)
    requires cookie.None? || cookie.value == []
    ensures RequireAuthAPI(cookie, verify) == Unauthenticated
    ensures RequireAuth(cookie, verify) == Redirect(LoginPath)
  {
  }

  /**
    The guard for pages returns `u` exactly when the guard for API routes
    authenticates `u`, and otherwise redirects to /login.
  */
  lemma GuardsAgree(cookie: Option<Str>, verify: Str -> Option<Str>)
    ensures forall u :: RequireAuth(cookie, verify) == Proceed(u) <==> RequireAuthAPI(cookie, verify) == Authenticated(u)
    ensures RequireAuth(cookie, verify).Redirect? <==> RequireAuthAPI(cookie, verify) == Unauthenticated
    ensures RequireAuth(cookie, verify).Redirect? ==> RequireAuth(cookie, verify).location == LoginPath
  {
  }

  /**
    A request is authenticated exactly when its header carries a non-empty
    token that `verifyToken` maps to a non-empty username, and then with
    exactly that username.
  */
  lemma AuthenticatedIffVerified(cookie: Option<Str>, verify: Str -> Option<Str>, u: Str)
    ensures RequireAuthAPI(cookie, verify) == Authenticated(u)
      <==> exists t :: TokenOf(cookie) == Some(t) && verify(t) == Some(u) && u != []
  {
    if RequireAuthAPI(cookie, verify) == Authenticated(u) {
      var t := TokenOf(cookie).value;
      assert verify(t) == Some(u);
    }
  }

  /** `"token=" + t` written after other cookies and before cookies of other names. */
  function TokenCookie(t: Str): Str {
    TokenName + EqualsSign + t
  }

  lemma SeparatorsBorderFree()
    ensures BorderFree(CookieSeparator) && BorderFree(EqualsSign)
  {
    var sep := CookieSeparator;
    assert sep[0] == 0x3B && sep[1] == 0x20;
    assert sep[1..][0] != sep[..1][0];
  }

  /** `"token=" + t` splits into the name `token` and the value `t` when `t` has no `=`. */
  lemma TokenCookieEntry(t: Str)
    requires !Contains(t, EqualsSign)
    ensures CookieEntry(TokenCookie(t)) == Entry(TokenName, Some(t))
  {
    var eq := EqualsSign;
    assert eq == [0x3D];
    assert TokenName == [0x74, 0x6F, 0x6B, 0x65, 0x6E];
    AbsentUnitExcludes(TokenName, eq, 0);
    SeparatorsBorderFree();
    assert Join([TokenName, t], eq) == TokenCookie(t);
    SplitJoin([TokenName, t], eq);
  }

  /**
    Only parts 0 and 1 of a piece are used: a value is cut at the next `=`,
    and whatever follows it is dropped.
  */
  lemma CookieValueTruncated(name: Str, v: Str, w: Str)
    requires !Contains(name, EqualsSign) && !Contains(v, EqualsSign)
    ensures CookieEntry(name + EqualsSign + v + EqualsSign + w) == Entry(name, Some(v))
  {
    var eq := EqualsSign;
    SeparatorsBorderFree();
    var tail := v + eq + w;
    var piece := name + eq + tail;
    assert piece == name + EqualsSign + v + EqualsSign + w;
    FirstIndexOfJoined(name, eq, tail);
    assert piece[..|name|] == name && piece[|name| + |eq|..] == tail;
    FirstIndexOfJoined(v, eq, w);
    assert tail[..|v|] == v;
    assert Split(tail, eq)[0] == v;
    assert Split(piece, eq) == [name] + Split(tail, eq);
  }

  /** A `"; "` cannot appear in `"token=" + t` when it does not appear in `t`. */
  lemma TokenCookieLacksSeparator(t: Str)
    requires !Contains(t, CookieSeparator)
    ensures !Contains(TokenCookie(t), CookieSeparator)
  {
    var sep := CookieSeparator;
    assert sep == [0x3B, 0x20];
    var c := TokenCookie(t);
    assert TokenName + EqualsSign == [0x74, 0x6F, 0x6B, 0x65, 0x6E, 0x3D];
    forall k | 0 <= k <= |c| - 2 ensures !OccursAt(c, sep, k) {
      if k >= 6 {
        assert c[k..k + 2] == t[k - 6..k - 6 + 2];
        assert !OccursAt(t, sep, k - 6);
      } else {
        assert c[k] != 0x3B;
      }
    }
  }

  /**
    Round trip with the login route: a header made of `"; "`-separated
    cookies that contains `"token=" + t`, followed only by cookies of other
    names, yields the token `t`, provided `t` is non-empty and contains no
    `=` and no `"; "`.
  */
  lemma TokenRoundTrip(before: seq<Str>, t: Str, after: seq<Str>)
    requires t != [] && !Contains(t, EqualsSign) && !Contains(t, CookieSeparator)
    requires forall p :: p in before ==> !Contains(p, CookieSeparator)
    requires forall p :: p in after ==> !Contains(p, CookieSeparator) && CookieEntry(p).name != TokenName
    ensures TokenOf(Some(Join(before + [TokenCookie(t)] + after, CookieSeparator))) == Some(t)
  {
    LastTokenCookie(before, t, after);
  }

  /**
    The cookie the logout route sets, `token=`, is falsy: whatever comes
    before it, a header whose last `token` cookie is `token=` is rejected.
  */
  lemma LogoutCookieRejected(before: seq<Str>, after: seq<Str>, verify: Str -> Option<Str>)
    requires forall p :: p in before ==> !Contains(p, CookieSeparator)
    requires forall p :: p in after ==> !Contains(p, CookieSeparator) && CookieEntry(p).name != TokenName
    ensures RequireAuthAPI(Some(Join(before + [TokenCookie([])] + after, CookieSeparator)), verify) == Unauthenticated
  {
    assert !OccursAt([], EqualsSign, 0) && !OccursAt([], CookieSeparator, 0);
    LastTokenCookie(before, [], after);
  }

  /** The value stored under `token` comes from the last cookie named `token`. */
  lemma LastTokenCookie(before: seq<Str>, t: Str, after: seq<Str>)
    requires !Contains(t, EqualsSign) && !Contains(t, CookieSeparator)
    requires forall p :: p in before ==> !Contains(p, CookieSeparator)
    requires forall p :: p in after ==> !Contains(p, CookieSeparator) && CookieEntry(p).name != TokenName
    ensures var header := Join(before + [TokenCookie(t)] + after, CookieSeparator);
      header != [] && Lookup(FromEntries(CookieEntries(header)), TokenName) == Some(Some(t))
  {
    var sep := CookieSeparator;
    var piece := TokenCookie(t);
    TokenCookieEntry(t);
    TokenCookieLacksSeparator(t);
    var pieces := before + [piece] + after;
    var header := Join(pieces, sep);
    SeparatorsBorderFree();
    SplitJoin(pieces, sep);
    var entries := CookieEntries(header);
    var head := entries[..|before| + 1];
    var rest := entries[|before| + 1..];
    assert entries == head + rest;
    forall k | 0 <= k < |rest| ensures rest[k].name != TokenName {
      assert rest[k] == CookieEntry(after[k]);
      assert after[k] in after;
    }
    LastValueSkips(head, rest, TokenName);
    FromEntriesLastWins(entries, TokenName);
    assert |piece| >= 6;
    JoinNonEmpty(pieces, sep, |before|);
  }

  /** A join that contains a piece `"token=…"` is not the empty header. */
  lemma JoinNonEmpty(pieces: seq<Str>, sep: Str, k: nat)
    requires k < |pieces| && sep != [] && |pieces[k]| > 0
    ensures Join(pieces, sep) != []
    decreases |pieces|
  {
    if |pieces| > 1 && k > 0 {
      JoinNonEmpty(pieces[1..], sep, k - 1);
    }
  }
}
