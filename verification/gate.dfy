/** The authentication middleware (backend/middleware/auth-middleware.js): where
    the session token comes from, and the fixed chain of 401 outcomes before a
    request is let through. */
module AuthGate {
  import opened Base
  import opened Strings
  import opened Accounts

  const BearerPrefix: string := "Bearer "

  /** `req.cookies?.token || (authorization?.startsWith("Bearer ") &&
      authorization.split(" ")[1])`, with every falsy value read as no token. */
  function ExtractToken(cookie: Option<string>, authorization: Option<string>): (r: Option<string>)
    ensures Given(cookie) ==> r == cookie
    ensures r.Some? ==> r.value != ""
    ensures !Given(cookie) && r.Some? ==>
      && authorization.Some? && StartsWith(authorization.value, BearerPrefix)
      && ' ' !in r.value
  {
    if Given(cookie) then cookie
    else if authorization.Some? && StartsWith(authorization.value, BearerPrefix) then
      var header := authorization.value;
      assert header[6] == ' ' by { assert header[..7] == BearerPrefix; }
      CountPositive(header, ' ');
      var field := Split(header, ' ')[1];
      if field == "" then None else Some(field)
    else None
  }

  /** With no cookie token, a header `Bearer <rest>` yields the first
      space-separated field of `rest`, if that field is non-empty. */
  lemma BearerField(cookie: Option<string>, rest: string)
    requires !Given(cookie)
    ensures var f := Split(rest, ' ')[0];
            ExtractToken(cookie, Some(BearerPrefix + rest)) == if f == "" then None else Some(f)
  {
    var header := BearerPrefix + rest;
    assert header[..7] == BearerPrefix;
    assert header == "Bearer" + [' '] + rest;
    SplitAfterPrefix("Bearer", rest, ' ');
  }

  /** A header `Bearer <tok>` with a non-empty, space-free `tok` yields exactly
      `tok`. */
  lemma BearerRoundTrip(cookie: Option<string>, tok: string)
    requires !Given(cookie)
    requires tok != "" && ' ' !in tok
    ensures ExtractToken(cookie, Some(BearerPrefix + tok)) == Some(tok)
  {
    BearerField(cookie, tok);
    SplitJoin([tok], ' ');
  }

  /** `"Bearer "` alone, or a second space right after it, yields no token: the
      token is the second space-separated field, and that field is empty. */
  lemma EmptyBearerField(cookie: Option<string>, rest: string)
    requires !Given(cookie)
    ensures ExtractToken(cookie, Some(BearerPrefix + rest)) == None
            <==> |rest| == 0 || rest[0] == ' '
  {
    BearerField(cookie, rest);
    SplitFirstEmpty(rest, ' ');
  }

  /** What the middleware does with the request. */
  datatype Outcome = Next(user: PublicUser) | Unauthorized(message: string)

  /** `authMiddleware` at time `now`. `jwt.verify` throwing, for a bad signature
      or an expired token, is the catch-all's "Invalid or expired token". */
  function Authenticate(cookie: Option<string>, authorization: Option<string>,
                        jwt: Verifier, users: seq<User>, now: nat): (r: Outcome)
    ensures ExtractToken(cookie, authorization).None? ==> r == Unauthorized("No token provided")
    ensures var t := ExtractToken(cookie, authorization);
            t.Some? && !Accepts(jwt, t.value, now) ==> r == Unauthorized("Invalid or expired token")
    ensures var t := ExtractToken(cookie, authorization);
            t.Some? && Accepts(jwt, t.value, now) && jwt[t.value].userId >= |users| ==> r == Unauthorized("Invalid user")
    ensures r.Next? <==>
      var t := ExtractToken(cookie, authorization);
      t.Some? && Accepts(jwt, t.value, now) && jwt[t.value].userId < |users|
    ensures r.Next? ==>
      var uid := jwt[ExtractToken(cookie, authorization).value].userId;
      r.user == Public(uid, users[uid])
  {
    match ExtractToken(cookie, authorization)
    case None => Unauthorized("No token provided")
    case Some(token) =>
      if !Accepts(jwt, token, now) then Unauthorized("Invalid or expired token")
      else
        var uid := jwt[token].userId;
        if uid >= |users| then Unauthorized("Invalid user")
        else Next(Public(uid, users[uid]))
  }

  /** A cookie token wins over any header: the header is not even read. */
  lemma CookieFirst(cookie: string, authorization: Option<string>, other: Option<string>,
                    jwt: Verifier, users: seq<User>, now: nat)
    requires cookie != ""
    ensures Authenticate(Some(cookie), authorization, jwt, users, now)
            == Authenticate(Some(cookie), other, jwt, users, now)
  {
  }

  /** The middleware checks no purpose: an email-verification or reset token the
      verifier accepts authenticates its user like a session token. */
  lemma PurposeNotChecked(token: string, uid: UserId, purpose: Purpose, signed: nat, ttl: nat,
                          jwt: Verifier, users: seq<User>, now: nat)
    requires token != ""
    requires token in jwt && jwt[token] == Signed(uid, Some(purpose), signed, ttl)
    requires now / 1000 < signed / 1000 + ttl
    requires uid < |users|
    ensures Authenticate(Some(token), None, jwt, users, now) == Next(Public(uid, users[uid]))
  {
  }

  /** The session token `loginUser` signs for a user authenticates that user
      exactly until its 7-day expiry, whether it comes as the cookie or as a
      `Bearer` header. A signed token is base64url segments joined by dots, so it
      holds no space. */
  lemma SessionLifetime(s: Store, email: string, password: string, session: string,
                        signed: nat, jwt: Verifier, now: nat)
    requires LoginUser(s, Some(email), Some(password), session).code == 200
    requires session != "" && ' ' !in session
    requires session in jwt
    requires jwt[session] == Signed(LoginUser(s, Some(email), Some(password), session).user.value.id,
                                    None, signed, SessionJwtTtl)
    ensures var id := LoginUser(s, Some(email), Some(password), session).user.value.id;
            && (Authenticate(Some(session), None, jwt, s.users, now) == Next(Public(id, s.users[id]))
                <==> now / 1000 < signed / 1000 + SessionJwtTtl)
            && Authenticate(None, Some(BearerPrefix + session), jwt, s.users, now)
               == Authenticate(Some(session), None, jwt, s.users, now)
  {
    BearerRoundTrip(None, session);
  }
}
