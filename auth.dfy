/**
 * Sessions, lib/auth.ts: the session payload carried in a signed JWT, the
 * `stampify_session` cookie that holds it, reading the token from a `Cookie`
 * header, and the validity test.
 *
 * JWT signing and verification, `cookies()` of next/headers, the environment and
 * `decodeURIComponent` are parameters: `decode` gives `None` where
 * `decodeURIComponent` throws, `verifyJwt` gives `None` where `jwtVerify` throws.
 */
module Auth {
  import opened Wrappers
  import opened Text

  /** `remainingDays` of a payload: missing, `null`, or a number. */
  datatype Days = Missing | Null | DaysLeft(days: real)

  /** A session payload. `status` is a string ("active", "expired" or "disabled");
      `disabled` is the truthiness of the field; `username` is "" when missing. */
  datatype Payload = Payload(username: string, status: string, remainingDays: Days, disabled: bool)

  const SessionCookieName := "stampify_session"

  /** What a cookie part must start with to be the session cookie. */
  const SessionPrefix := SessionCookieName + "="

  // ------------------------------------------------------- secret

  /** `getSecretBuffer`: no key when `STAMPIFY_SESSION_SECRET` is unset or empty.
      The key is the secret's text (its UTF-8 bytes in the source). */
  function GetSecretBuffer(env: Option<string>): (r: Option<string>)
    ensures r.Some? <==> env.Some? && env.value != ""
    ensures r.Some? ==> r.value == env.value
  {
    match env
    case Some(secret) => if secret == "" then None else Some(secret)
    case None => None
  }

  const SecretMissing := "STAMPIFY_SESSION_SECRET belum diatur"

  /** `ensureSecretBuffer`: the same key, but an unset secret throws. */
  function EnsureSecretBuffer(env: Option<string>): (r: Result<string>)
  {
    match GetSecretBuffer(env)
    case Some(key) => Ok(key)
    case None => Err(SecretMissing)
  }

  /** `ensureSecretBuffer` throws exactly where `getSecretBuffer` gives null, and
      otherwise returns the same key. */
  lemma EnsureSecretAgrees(env: Option<string>)
    ensures EnsureSecretBuffer(env).Err? <==> GetSecretBuffer(env).None?
    ensures EnsureSecretBuffer(env).Ok? ==> EnsureSecretBuffer(env).value == GetSecretBuffer(env).value
    ensures EnsureSecretBuffer(env).Err? ==> EnsureSecretBuffer(env).error == SecretMissing
  {
  }

  // ------------------------------------------------------- cookies

  /** The attributes `res.cookies.set` is given. */
  datatype CookieSpec = CookieSpec(
    name: string, value: string, httpOnly: bool, sameSite: string, path: string, secure: bool, maxAge: int)

  /** The JWT expires after this many hours (`setExpirationTime("12h")`). */
  const JwtLifetimeHours := 12

  /** The cookie `createSessionResponse` sets. */
  function SessionCookie(token: string): CookieSpec {
    CookieSpec(SessionCookieName, token, true, "lax", "/", true, 60 * 60 * 12)
  }

  /** The cookie `clearSessionResponse` sets. */
  function ClearedCookie(): CookieSpec {
    CookieSpec(SessionCookieName, "", true, "lax", "/", true, 0)
  }

  /** `createSessionResponse`'s cookie: the signed token, or the missing-secret error. */
  function CreateSessionCookie(env: Option<string>, sign: (Payload, string) -> string, payload: Payload): Result<CookieSpec> {
    match EnsureSecretBuffer(env)
    case Ok(key) => Ok(SessionCookie(sign(payload, key)))
    case Err(e) => Err(e)
  }

  /** The session cookie lives as long as the JWT it holds (12 h = 43200 s), and is
      httpOnly, lax, site-wide and secure; clearing sets the same cookie to "" with
      `maxAge` 0; creating it fails exactly when there is no secret. */
  lemma CookieAttributes(token: string, env: Option<string>, sign: (Payload, string) -> string, payload: Payload)
    ensures var c := SessionCookie(token);
      && c.name == SessionCookieName && c.value == token
      && c.maxAge == JwtLifetimeHours * 3600 == 43200
      && c.httpOnly && c.sameSite == "lax" && c.path == "/" && c.secure
    ensures ClearedCookie() == SessionCookie(token).(value := "", maxAge := 0)
    ensures CreateSessionCookie(env, sign, payload).Err? <==> GetSecretBuffer(env).None?
    ensures CreateSessionCookie(env, sign, payload).Ok? ==>
      CreateSessionCookie(env, sign, payload).value == SessionCookie(sign(payload, env.value))
  {
  }

  // ------------------------------------------------------- the token in a Cookie header

  /** The index of the first part that starts with `stampify_session=` (`find`). */
  function FirstSessionPart(parts: seq<string>): (r: Option<nat>)
    ensures r.Some? ==> r.value < |parts| && StartsWith(parts[r.value], SessionPrefix)
    ensures r.Some? ==> forall j :: 0 <= j < r.value ==> !StartsWith(parts[j], SessionPrefix)
    ensures r.None? <==> forall j :: 0 <= j < |parts| ==> !StartsWith(parts[j], SessionPrefix)
    decreases |parts|
  {
    if parts == [] then None
    else if StartsWith(parts[0], SessionPrefix) then Some(0)
    else
      match FirstSessionPart(parts[1..])
      case Some(j) => Some(j + 1)
      case None => None
  }

  /** `part.split("=", 2)[1] || ""`: the text between the first and second `=`. */
  function CookieValue(part: string): string {
    var pieces := Split(part, '=');
    if |pieces| > 1 then pieces[1] else ""
  }

  /** The trimmed `;`-separated parts of a header. */
  function CookieParts(header: string): (r: seq<string>)
    ensures |r| == |Split(header, ';')|
  {
    var pieces := Split(header, ';');
    seq(|pieces|, i requires 0 <= i < |pieces| => Trim(pieces[i]))
  }

  /** Looking the session token up in a header. */
  datatype Lookup = NotFound | Found(token: string) | DecodeThrows

  /** `extractTokenFromHeader`: no header or no matching part gives nothing; the
      first matching part's value is URI-decoded, which may throw. */
  function HeaderToken(header: Option<string>, decode: string -> Option<string>): Lookup {
    if header.None? || header.value == "" then NotFound
    else
      var parts := CookieParts(header.value);
      match FirstSessionPart(parts)
      case None => NotFound
      case Some(j) =>
        match decode(CookieValue(parts[j]))
        case Some(token) => Found(token)
        case None => DecodeThrows
  }

  /** With no part starting with `stampify_session=`, the header gives no token. */
  lemma HeaderTokenNoMatch(header: string, decode: string -> Option<string>)
    requires forall j :: 0 <= j < |CookieParts(header)| ==> !StartsWith(CookieParts(header)[j], SessionPrefix)
    ensures HeaderToken(Some(header), decode) == NotFound
  {
  }

  /** The token is the decoded value of the first part starting with `stampify_session=`:
      later matching parts are ignored. */
  lemma HeaderTokenFirstMatch(header: string, decode: string -> Option<string>, j: nat)
    requires header != ""
    requires j < |CookieParts(header)| && StartsWith(CookieParts(header)[j], SessionPrefix)
    requires forall i :: 0 <= i < j ==> !StartsWith(CookieParts(header)[i], SessionPrefix)
    ensures decode(CookieValue(CookieParts(header)[j])).Some? ==>
      HeaderToken(Some(header), decode) == Found(decode(CookieValue(CookieParts(header)[j])).value)
    ensures decode(CookieValue(CookieParts(header)[j])).None? ==> HeaderToken(Some(header), decode) == DecodeThrows
  {
    var r := FirstSessionPart(CookieParts(header));
    assert r.Some?;
    assert !(r.value < j) && !(j < r.value);
  }

  /** The value is cut at the second `=`: `stampify_session=v` and
      `stampify_session=v=w` both give `v` when `v` has no `=`. */
  lemma CookieValueCut(v: string, w: string)
    requires '=' !in v
    ensures CookieValue(SessionPrefix + v) == v
    ensures CookieValue(SessionPrefix + v + "=" + w) == v
  {
    var name := SessionCookieName;
    assert '=' !in name;
    ValueAfterName(name, v, "");
    ValueAfterName(name, v, "=" + w);
    assert SessionPrefix + v == name + ("=" + (v + ""));
    assert SessionPrefix + v + "=" + w == name + ("=" + (v + ("=" + w)));
  }

  lemma ValueAfterName(name: string, v: string, tail: string)
    requires '=' !in name && '=' !in v
    requires tail == [] || tail[0] == '='
    ensures CookieValue(name + ("=" + (v + tail))) == v
  {
    var t := "=" + (v + tail);
    SplitPrefix(name, t, '=');
    assert t[0] == '=' && t[1..] == v + tail;
    assert Split(t, '=') == [""] + Split(v + tail, '=');
    SplitPrefix(v, tail, '=');
    if tail == [] {
      assert Split(tail, '=')[0] == "";
    } else {
      assert Split(tail, '=') == [""] + Split(tail[1..], '=');
    }
    assert v + Split(tail, '=')[0] == v;
  }

  // ------------------------------------------------------- reading a session

  /** `cookies()` of next/headers: unavailable (it throws), or the cookie's value if set. */
  datatype CookieStore = Unavailable | Store(session: Option<string>)

  /** A promise that rejects (the decode threw), or resolves to a session or null. */
  datatype Read = Rejects | Resolves(session: Option<Payload>)

  /** `!token` for the token read so far. */
  predicate NoToken(t: Option<string>) {
    t.None? || t.value == ""
  }

  /** The token `readSession` goes on with: a non-empty header token, else the
      value from `cookies()` (none when `cookies()` throws). */
  function SessionToken(lookup: Lookup, store: CookieStore): Option<string>
    requires !lookup.DecodeThrows?
  {
    if lookup.Found? && lookup.token != "" then Some(lookup.token)
    else if store.Unavailable? then None
    else store.session
  }

  /** Verifying a token: nothing without a token or a secret, else what `jwtVerify` gives. */
  function VerifyToken(token: Option<string>, env: Option<string>, verifyJwt: (string, string) -> Option<Payload>): Option<Payload> {
    if NoToken(token) then None
    else
      match GetSecretBuffer(env)
      case None => None
      case Some(key) => verifyJwt(token.value, key)
  }

  /** `readSession`: the header token first, then `cookies()`; no token, no secret
      or a failed verification all give null; a decode that throws rejects. */
  function ReadSession(header: Option<string>, decode: string -> Option<string>, store: CookieStore,
                       env: Option<string>, verifyJwt: (string, string) -> Option<Payload>): Read
  {
    var lookup := HeaderToken(header, decode);
    if lookup.DecodeThrows? then Rejects
    else Resolves(VerifyToken(SessionToken(lookup, store), env, verifyJwt))
  }

  /** A non-empty header token wins: `cookies()` is then never consulted. */
  lemma HeaderTokenWins(header: Option<string>, decode: string -> Option<string>, store: CookieStore, other: CookieStore,
                        env: Option<string>, verifyJwt: (string, string) -> Option<Payload>)
    requires HeaderToken(header, decode).Found? && HeaderToken(header, decode).token != ""
    ensures ReadSession(header, decode, store, env, verifyJwt) == ReadSession(header, decode, other, env, verifyJwt)
    ensures GetSecretBuffer(env).Some? ==>
      ReadSession(header, decode, store, env, verifyJwt) == Resolves(verifyJwt(HeaderToken(header, decode).token, env.value))
  {
  }

  /** Without a usable header token, `readSession` reads exactly as if there were no
      header: the cookie store decides. */
  lemma CookieStoreFallback(header: Option<string>, decode: string -> Option<string>, store: CookieStore,
                            env: Option<string>, verifyJwt: (string, string) -> Option<Payload>)
    requires HeaderToken(header, decode) == NotFound || HeaderToken(header, decode) == Found("")
    ensures ReadSession(header, decode, store, env, verifyJwt) == ReadSession(None, decode, store, env, verifyJwt)
    ensures store.Store? && !NoToken(store.session) && GetSecretBuffer(env).Some? ==>
      ReadSession(header, decode, store, env, verifyJwt) == Resolves(verifyJwt(store.session.value, env.value))
  {
  }

  /** Without a secret, or without any token, no session is read. */
  lemma NoSessionWithoutSecretOrToken(header: Option<string>, decode: string -> Option<string>, store: CookieStore,
                                      env: Option<string>, verifyJwt: (string, string) -> Option<Payload>)
    requires GetSecretBuffer(env).None? || (header.None? && (store.Unavailable? || NoToken(store.session)))
    ensures ReadSession(header, decode, store, env, verifyJwt) in {Rejects, Resolves(None)}
  {
  }

  // ------------------------------------------------------- validity

  /** `sessionValid`. A missing `remainingDays` is not rejected: `undefined <= 0` is
      false in JavaScript, while `null <= 0` is true. */
  predicate SessionValid(session: Option<Payload>) {
    match session
    case None => false
    case Some(p) =>
      && !p.disabled
      && p.status == "active"
      && !(p.remainingDays.Null? || (p.remainingDays.DaysLeft? && p.remainingDays.days <= 0.0))
  }
}
