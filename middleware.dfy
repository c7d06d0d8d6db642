/**
 * The edge middleware, middleware.ts: every request outside the public paths needs
 * a session token (from the `Cookie` header, else from the parsed cookies) that
 * verifies and describes an active account with days left; otherwise the browser
 * is sent to the login page.
 *
 * The request is its pathname, its `Cookie` header and the value the cookie parser
 * gives for `stampify_session`; JWT verification, `decodeURIComponent` and the
 * environment are parameters as in the Auth module.
 */
module Middleware {
  import opened Wrappers
  import opened Text
  import Auth

  /** The paths, and everything under them by prefix, that need no session. */
  const PublicPaths: seq<string> := ["/login", "/api/auth/login", "/api/auth/logout", "/api/auth/me"]

  /** `isPublic`: a prefix match against the public paths, `/_next` or `/static`. */
  predicate IsPublic(pathname: string) {
    || (exists i :: 0 <= i < |PublicPaths| && StartsWith(pathname, PublicPaths[i]))
    || StartsWith(pathname, "/_next")
    || StartsWith(pathname, "/static")
  }

  /** The login page and everything the prefix match lets through with it are
      public, as are the auth endpoints and Next's assets. */
  lemma PublicPrefixes(x: string)
    ensures IsPublic("/login" + x)
    ensures IsPublic("/api/auth/me" + x)
    ensures IsPublic("/_next" + x) && IsPublic("/static" + x)
  {
    assert ("/login" + x)[..|PublicPaths[0]|] == PublicPaths[0];
    assert ("/api/auth/me" + x)[..|PublicPaths[3]|] == PublicPaths[3];
    assert ("/_next" + x)[..6] == "/_next";
    assert ("/static" + x)[..7] == "/static";
  }

  /** A public path has at least five characters and starts with `/`; so the root
      and the image download endpoint are protected. */
  lemma PublicPathShape(pathname: string)
    ensures IsPublic(pathname) ==> |pathname| >= 5 && pathname[0] == '/'
    ensures !IsPublic("/") && !IsPublic("/api/download")
  {
    if IsPublic(pathname) {
      if i :| 0 <= i < |PublicPaths| && StartsWith(pathname, PublicPaths[i]) {
        assert pathname[0] == pathname[..|PublicPaths[i]|][0];
      } else if StartsWith(pathname, "/_next") {
        assert pathname[0] == pathname[..6][0];
      } else {
        assert pathname[0] == pathname[..7][0];
      }
    }
    var d := "/api/download";
    assert |d| < |PublicPaths[1]| && |d| < |PublicPaths[2]|;
    assert d[..|PublicPaths[3]|] != PublicPaths[3] by { assert d[5] != PublicPaths[3][5]; }
    assert d[..|PublicPaths[0]|] != PublicPaths[0] by { assert d[1] != PublicPaths[0][1]; }
    assert d[..6] != "/_next" by { assert d[1] != '_'; }
    assert d[..7] != "/static" by { assert d[1] != 's'; }
  }

  /** `extractToken`: the header's first `stampify_session=` part, decoded, even when
      its value is empty; the parsed cookie only when the header has no such part.
      `None` on the outside means the decode threw. */
  function ExtractToken(header: Option<string>, decode: string -> Option<string>, cookie: Option<string>): (r: Option<Option<string>>)
    ensures r.None? <==> Auth.HeaderToken(header, decode).DecodeThrows?
  {
    match Auth.HeaderToken(header, decode)
    case Found(token) => Some(Some(token))
    case DecodeThrows => None
    case NotFound => Some(cookie)
  }

  /** `remainingDays ?? 0`: a missing or null count is zero. */
  function DaysOrZero(d: Auth.Days): real {
    if d.DaysLeft? then d.days else 0.0
  }

  /** The test `verify` puts a verified payload to. */
  predicate Accepts(p: Auth.Payload) {
    !p.disabled && p.status == "active" && DaysOrZero(p.remainingDays) > 0.0
  }

  /** `verify`: nothing without a token or a secret or when verification throws, nor
      for a payload that is disabled, not active, or has no days left. */
  function Verify(token: Option<string>, env: Option<string>, verifyJwt: (string, string) -> Option<Auth.Payload>): (r: Option<Auth.Payload>)
    ensures r.Some? ==> Accepts(r.value)
  {
    match Auth.VerifyToken(token, env, verifyJwt)
    case Some(p) => if Accepts(p) then Some(p) else None
    case None => None
  }

  /** What the middleware does with a request. `Throws` is the decode error it
      does not catch. */
  datatype Decision =
    | Next
    | NextWithUser(user: string)
    | RedirectToLogin(redirect: string)
    | Throws

  /** The login page the redirect goes to; the original pathname travels in its
      `redirect` query parameter. */
  const LoginPath := "/login"

  /** `middleware`. */
  function Handle(pathname: string, header: Option<string>, decode: string -> Option<string>, cookie: Option<string>,
                  env: Option<string>, verifyJwt: (string, string) -> Option<Auth.Payload>): Decision
  {
    if IsPublic(pathname) then Next
    else
      match ExtractToken(header, decode, cookie)
      case None => Throws
      case Some(token) =>
        match Verify(token, env, verifyJwt)
        case None => RedirectToLogin(pathname)
        case Some(p) => NextWithUser(p.username)
  }

  /** Public paths pass whatever the request carries. */
  lemma PublicPassesThrough(pathname: string, header: Option<string>, decode: string -> Option<string>, cookie: Option<string>,
                            env: Option<string>, verifyJwt: (string, string) -> Option<Auth.Payload>)
    requires IsPublic(pathname)
    ensures Handle(pathname, header, decode, cookie, env, verifyJwt) == Next
  {
  }

  /** A protected path passes only with a verified, active, unexpired session, and
      the `x-session-user` header then names its user; every other outcome (except
      a decode that throws) is the redirect to the login page carrying the path,
      and the login page itself is public, so the redirect cannot loop. */
  lemma ProtectedNeedsSession(pathname: string, header: Option<string>, decode: string -> Option<string>, cookie: Option<string>,
                              env: Option<string>, verifyJwt: (string, string) -> Option<Auth.Payload>)
    requires !IsPublic(pathname)
    ensures var d := Handle(pathname, header, decode, cookie, env, verifyJwt);
      && (d.NextWithUser? <==>
            exists t, p :: ExtractToken(header, decode, cookie) == Some(t) && Auth.VerifyToken(t, env, verifyJwt) == Some(p) && Accepts(p))
      && (d.NextWithUser? ==>
            exists t, p :: ExtractToken(header, decode, cookie) == Some(t) && Auth.VerifyToken(t, env, verifyJwt) == Some(p)
              && Auth.SessionValid(Some(p)) && d.user == p.username)
      && (d.Throws? || d.NextWithUser? || d == RedirectToLogin(pathname))
      && (Auth.GetSecretBuffer(env).None? ==> d.Throws? || d == RedirectToLogin(pathname))
    ensures IsPublic(LoginPath)
  {
    PublicPrefixes("");
    assert LoginPath + "" == LoginPath;
    var d := Handle(pathname, header, decode, cookie, env, verifyJwt);
    match ExtractToken(header, decode, cookie)
    case None =>
    case Some(t) =>
      match Auth.VerifyToken(t, env, verifyJwt)
      case None =>
      case Some(p) =>
        if Accepts(p) {
          StricterThanSessionValid(p);
        }
  }

  /** The middleware's test is stricter than `sessionValid`: whatever it accepts is
      valid, and the two differ on exactly the payloads without `remainingDays`,
      which `sessionValid` lets through and the middleware counts as zero days. */
  lemma StricterThanSessionValid(p: Auth.Payload)
    ensures Accepts(p) ==> Auth.SessionValid(Some(p))
    ensures Auth.SessionValid(Some(p)) && !Accepts(p) <==>
      !p.disabled && p.status == "active" && p.remainingDays.Missing?
  {
  }

  /** An empty `stampify_session=` in the header is a token of its own for the
      middleware, which then redirects, while `readSession` treats it as no token
      and falls back to the parsed cookie. */
  lemma EmptyHeaderTokenDiffers(t: string, decode: string -> Option<string>, env: Option<string>,
                                verifyJwt: (string, string) -> Option<Auth.Payload>)
    requires t != "" && decode("") == Some("")
    ensures ExtractToken(Some(Auth.SessionPrefix), decode, Some(t)) == Some(Some(""))
    ensures Handle("/", Some(Auth.SessionPrefix), decode, Some(t), env, verifyJwt) == RedirectToLogin("/")
    ensures Auth.SessionToken(Auth.HeaderToken(Some(Auth.SessionPrefix), decode), Auth.Store(Some(t))) == Some(t)
  {
    var h := Auth.SessionPrefix;
    SplitPrefix(h, "", ';');
    assert h + "" == h;
    assert Split(h, ';') == [h];
    TrimNoop(h);
    assert Auth.CookieParts(h) == [h];
    assert StartsWith(h, Auth.SessionPrefix);
    Auth.CookieValueCut("", "");
    assert Auth.SessionPrefix + "" == h;
    assert Auth.HeaderToken(Some(h), decode) == Auth.Found("");
    PublicPathShape("/");
  }
}
