/** The account and token lifecycle (backend/controllers/auth-controller.js):
    registration, login, email verification, and the two password-reset steps, as
    transitions over the user collection and the verification ledger.

    External calls are parameters: the abuse-protection decision (`denied`), the
    result of email delivery (`sent`), the token `jwt.sign` produced (`token`), the
    current time (`now`, milliseconds), and the tokens whose signature verifies
    (a `Verifier`, from token to payload). */
module Accounts {
  import opened Base

  /** The ledger lifetimes, in milliseconds. */
  const EmailVerificationTtl: nat := 12 * 3600 * 1000
  const ResetPasswordTtl: nat := 15 * 60 * 1000

  /** The `expiresIn` of the three signed tokens, in seconds. */
  const EmailVerificationJwtTtl: nat := 12 * 3600
  const ResetPasswordJwtTtl: nat := 15 * 60
  const SessionJwtTtl: nat := 7 * 24 * 3600

  // ---------------------------------------------------------------- bcrypt

  /** The UTF-8 encoding of one character, as byte values. */
  function Utf8Char(c: char): (r: seq<int>)
    ensures 1 <= |r| <= 4
    ensures (c as int) < 0x80 <==> r == [c as int]
  {
    var n := c as int;
    if n < 0x80 then [n]
    else if n < 0x800 then [0xC0 + n / 64, 0x80 + n % 64]
    else if n < 0x10000 then [0xE0 + n / 4096, 0x80 + n / 64 % 64, 0x80 + n % 64]
    else [0xF0 + n / 262144, 0x80 + n / 4096 % 64, 0x80 + n / 64 % 64, 0x80 + n % 64]
  }

  /** The UTF-8 encoding of a string. */
  function Utf8(s: string): (r: seq<int>)
    ensures |r| >= |s|
  {
    if |s| == 0 then [] else Utf8Char(s[0]) + Utf8(s[1..])
  }

  lemma {:induction false} Utf8Append(a: string, b: string)
    ensures Utf8(a + b) == Utf8(a) + Utf8(b)
    decreases |a|
  {
    if |a| > 0 {
      assert (a + b)[0] == a[0];
      assert (a + b)[1..] == a[1..] + b;
      Utf8Append(a[1..], b);
    } else {
      assert a + b == b;
    }
  }

  /** A string of ASCII characters encodes to one byte per character. */
  lemma {:induction false} Utf8Ascii(s: string)
    requires forall k :: 0 <= k < |s| ==> (s[k] as int) < 0x80
    ensures |Utf8(s)| == |s|
    ensures forall k :: 0 <= k < |s| ==> Utf8(s)[k] == s[k] as int
  {
    if |s| > 0 {
      Utf8Ascii(s[1..]);
    }
  }

  /** bcrypt reads at most this many bytes of a password. */
  const BcryptKeyBytes: nat := 72

  /** The bytes of a password that bcrypt uses: the first 72 of its UTF-8
      encoding. */
  function BcryptKey(password: string): seq<int>
  {
    var b := Utf8(password);
    if |b| <= BcryptKeyBytes then b else b[..BcryptKeyBytes]
  }

  /** A bcrypt digest, symbolically: the key it was computed from. Salting and
      the one-way property are not modelled; only `Compare`'s behaviour is. */
  datatype Digest = Bcrypt(key: seq<int>)

  /** `bcrypt.hash(password, 10)`. */
  function Hash(password: string): Digest
  {
    Bcrypt(BcryptKey(password))
  }

  /** `bcrypt.compare(password, digest)`. */
  predicate Compare(password: string, digest: Digest)
  {
    BcryptKey(password) == digest.key
  }

  /** A password matches the digest computed from it. */
  lemma CompareHash(p: string)
    ensures Compare(p, Hash(p))
  {
  }

  /** Passwords that agree on their first 72 UTF-8 bytes are interchangeable:
      whatever follows is ignored. */
  lemma {:induction false} LongPasswordsCollide(a: string, x: string, y: string)
    requires |Utf8(a)| >= BcryptKeyBytes
    ensures Compare(a + x, Hash(a + y))
  {
    Utf8Append(a, x);
    Utf8Append(a, y);
    assert (Utf8(a) + Utf8(x))[..BcryptKeyBytes] == Utf8(a)[..BcryptKeyBytes];
    assert (Utf8(a) + Utf8(y))[..BcryptKeyBytes] == Utf8(a)[..BcryptKeyBytes];
  }

  /** Distinct ASCII passwords of at most 72 characters never match each other's
      digests. */
  lemma ShortAsciiDistinct(p: string, q: string)
    requires |p| <= BcryptKeyBytes && |q| <= BcryptKeyBytes
    requires forall k :: 0 <= k < |p| ==> (p[k] as int) < 0x80
    requires forall k :: 0 <= k < |q| ==> (q[k] as int) < 0x80
    ensures Compare(p, Hash(q)) <==> p == q
  {
    Utf8Ascii(p);
    Utf8Ascii(q);
    if Compare(p, Hash(q)) {
      assert Utf8(p) == Utf8(q);
      forall k | 0 <= k < |p|
        ensures p[k] == q[k]
      {
        assert Utf8(p)[k] == Utf8(q)[k];
      }
    }
  }

  // ---------------------------------------------------------------- store

  datatype User = User(email: string, name: string, password: Digest, isEmailVerified: bool)

  /** A user as sent to a client: the stored user without the password. */
  datatype PublicUser = PublicUser(id: UserId, email: string, name: string, isEmailVerified: bool)

  function Public(id: UserId, u: User): PublicUser
  {
    PublicUser(id, u.email, u.name, u.isEmailVerified)
  }

  /** A ledger entry. It records no purpose: the purpose lives only in the token's
      payload. */
  datatype Entry = Entry(userId: UserId, token: string, expiresAt: nat)

  datatype Store = Store(users: seq<User>, ledger: seq<Entry>)

  datatype Purpose = EmailVerification | ResetPassword

  /** A signed token's payload. Session tokens carry no purpose; `exp` is the
      expiry claim `jwt.sign` adds for `expiresIn`, in whole seconds. */
  datatype Payload = Payload(userId: UserId, purpose: Option<Purpose>, exp: Option<nat>)

  /** The payload `jwt.sign` writes at time `signedAt` (milliseconds) with an
      `expiresIn` of `ttl` seconds: `iat` is the whole second and `exp` is
      `iat + ttl`. */
  function Signed(userId: UserId, purpose: Option<Purpose>, signedAt: nat, ttl: nat): Payload
  {
    Payload(userId, purpose, Some(signedAt / 1000 + ttl))
  }

  /** The tokens whose signature verifies, with their payloads. */
  type Verifier = map<string, Payload>

  /** `jwt.verify(token)` at time `now` returns instead of throwing: the signature
      verifies and the current whole second is before `exp`. */
  predicate Accepts(jwt: Verifier, token: string, now: nat)
  {
    token in jwt && (jwt[token].exp.Some? ==> now / 1000 < jwt[token].exp.value)
  }

  /** An HTTP reply and the state the handler leaves behind. */
  datatype Reply = Reply(code: nat, message: string, store: Store)

  const InternalError := "Internal server error"

  /** `User.findOne({ email })`. */
  function FindByEmail(users: seq<User>, email: string): Option<UserId>
  {
    FirstMatch(users, (u: User) => u.email == email)
  }

  /** `Verification.findOne({ userId, token })`. */
  function FindEntry(ledger: seq<Entry>, userId: UserId, token: string): Option<nat>
  {
    FirstMatch(ledger, (e: Entry) => e.userId == userId && e.token == token)
  }

  /** The expiry test: strictly earlier than now. */
  predicate Expired(e: Entry, now: nat)
  {
    e.expiresAt < now
  }

  /** `Verification.findByIdAndDelete`: removes exactly the entry at `i`. */
  function RemoveAt(ledger: seq<Entry>, i: nat): (r: seq<Entry>)
    requires i < |ledger|
    ensures |r| == |ledger| - 1
    ensures multiset(r) == multiset(ledger) - multiset{ledger[i]}
    ensures forall k :: 0 <= k < i ==> r[k] == ledger[k]
    ensures forall k :: i <= k < |r| ==> r[k] == ledger[k + 1]
  {
    assert ledger == ledger[..i] + [ledger[i]] + ledger[i + 1..];
    ledger[..i] + ledger[i + 1..]
  }

  /** `User.findByIdAndUpdate(id, change)`: a no-op when there is no such user. */
  function UpdateUser(users: seq<User>, id: UserId, change: User -> User): (r: seq<User>)
    ensures |r| == |users|
    ensures forall k :: 0 <= k < |users| && k != id ==> r[k] == users[k]
    ensures id < |users| ==> r[id] == change(users[id])
  {
    if id < |users| then users[id := change(users[id])] else users
  }

  /** The store invariant: emails are unique, and every ledger entry belongs to an
      existing user. */
  predicate Valid(s: Store)
  {
    && (forall i, j :: 0 <= i < j < |s.users| ==> s.users[i].email != s.users[j].email)
    && (forall k :: 0 <= k < |s.ledger| ==> s.ledger[k].userId < |s.users|)
  }

  // ---------------------------------------------------------------- register

  /** `registerUser`. `password` is `None` when the body has none; `bcrypt.hash`
      then throws before anything is written. */
  function RegisterUser(s: Store, denied: bool, email: string, name: string,
                    password: Option<string>, token: string, sent: bool, now: nat): (r: Reply)
    ensures denied ==> r.code == 403 && r.store == s
    ensures !denied && FindByEmail(s.users, email).Some? ==> r.code == 400 && r.message == "Email already in use" && r.store == s
    ensures r.store != s <==> !denied && FindByEmail(s.users, email).None? && password.Some?
    ensures r.store != s ==>
      var id := |s.users|;
      && |r.store.users| == id + 1
      && r.store.users[..id] == s.users
      && r.store.users[id].email == email
      && r.store.users[id].name == name
      && Compare(password.value, r.store.users[id].password)
      && !r.store.users[id].isEmailVerified
      && r.store.ledger == s.ledger + [Entry(id, token, now + EmailVerificationTtl)]
    ensures r.code == 201 <==> r.store != s && sent
    ensures r.store != s && !sent ==> r.code == 500
    ensures !denied && FindByEmail(s.users, email).None? && password.None? ==> r.code == 500
  {
    if denied then Reply(403, "Invalid email address", s)
    else if FindByEmail(s.users, email).Some? then Reply(400, "Email already in use", s)
    else if password.None? then Reply(500, InternalError, s)
    else
      var id := |s.users|;
      var user := User(email, name, Hash(password.value), false);
      var s' := Store(s.users + [user], s.ledger + [Entry(id, token, now + EmailVerificationTtl)]);
      assert s'.users != s.users by { assert |s'.users| != |s.users|; }
      if !sent then Reply(500, "Email could not be sent", s')
      else Reply(201, "Verification email sent. Please verify your account.", s')
  }

  // ---------------------------------------------------------------- login

  /** A login reply: the session token and the password-free user on success. */
  datatype LoginReply = LoginReply(code: nat, message: string, token: Option<string>, user: Option<PublicUser>)

  /** A request field JavaScript treats as truthy: present and non-empty. */
  predicate Given(field: Option<string>)
  {
    field.Some? && field.value != ""
  }

  /** `loginUser`. `session` is the token `jwt.sign` produced. Login reads the
      store and never changes it. */
  function LoginUser(s: Store, email: Option<string>, password: Option<string>, session: string): (r: LoginReply)
    ensures !Given(email) || !Given(password) ==> r.code == 400
    ensures Given(email) && Given(password) && FindByEmail(s.users, email.value).None? ==> r.code == 404
    ensures Given(email) && Given(password) && FindByEmail(s.users, email.value).Some?
            && !Compare(password.value, s.users[FindByEmail(s.users, email.value).value].password)
            ==> r.code == 400 && r.message == "Invalid password"
    ensures r.code == 200 <==>
      && Given(email) && Given(password)
      && var id := FindByEmail(s.users, email.value);
         id.Some? && Compare(password.value, s.users[id.value].password)
    ensures r.code == 200 ==>
      && r.token == Some(session)
      && r.user.Some?
      && r.user.value.id < |s.users|
      && r.user.value == Public(r.user.value.id, s.users[r.user.value.id])
      && r.user.value.email == email.value
      && r.user.value.id == FindByEmail(s.users, email.value).value
    ensures r.code != 200 ==> r.token.None? && r.user.None?
  {
    if !Given(email) || !Given(password) then LoginReply(400, "Email & password required", None, None)
    else match FindByEmail(s.users, email.value)
      case None => LoginReply(404, "User not found", None, None)
      case Some(id) =>
        if !Compare(password.value, s.users[id].password) then LoginReply(400, "Invalid password", None, None)
        else LoginReply(200, "Login successful", Some(session), Some(Public(id, s.users[id])))
  }

  // ---------------------------------------------------------------- verify email

  /** `verifyEmail`. A token `jwt.verify` rejects, including an expired one,
      throws, and the catch-all turns that into 500, not 403. */
  function VerifyEmail(s: Store, jwt: Verifier, token: string, now: nat): (r: Reply)
    ensures !Accepts(jwt, token, now) ==> r.code == 500 && r.store == s
    ensures Accepts(jwt, token, now) && jwt[token].purpose != Some(EmailVerification)
            ==> r.code == 403 && r.message == "Invalid token" && r.store == s
    ensures Accepts(jwt, token, now) && jwt[token].purpose == Some(EmailVerification)
            && FindEntry(s.ledger, jwt[token].userId, token).None?
            ==> r.code == 403 && r.message == "Invalid token"
    ensures Accepts(jwt, token, now) && jwt[token].purpose == Some(EmailVerification)
            && FindEntry(s.ledger, jwt[token].userId, token).Some?
            && Expired(s.ledger[FindEntry(s.ledger, jwt[token].userId, token).value], now)
            ==> r.code == 403 && r.message == "Token expired"
    ensures r.code != 200 ==> r.store == s
    ensures r.code == 200 <==>
      && Accepts(jwt, token, now) && jwt[token].purpose == Some(EmailVerification)
      && var i := FindEntry(s.ledger, jwt[token].userId, token);
         i.Some? && !Expired(s.ledger[i.value], now)
    ensures r.code == 200 ==>
      var uid := jwt[token].userId;
      var i := FindEntry(s.ledger, uid, token).value;
      && r.store.ledger == RemoveAt(s.ledger, i)
      && |r.store.users| == |s.users|
      && (forall k :: 0 <= k < |s.users| && k != uid ==> r.store.users[k] == s.users[k])
      && (uid < |s.users| ==> r.store.users[uid] == s.users[uid].(isEmailVerified := true))
  {
    if !Accepts(jwt, token, now) then Reply(500, InternalError, s)
    else
      var payload := jwt[token];
      if payload.purpose != Some(EmailVerification) then Reply(403, "Invalid token", s)
      else match FindEntry(s.ledger, payload.userId, token)
        case None => Reply(403, "Invalid token", s)
        case Some(i) =>
          if Expired(s.ledger[i], now) then Reply(403, "Token expired", s)
          else
            var users := UpdateUser(s.users, payload.userId, (u: User) => u.(isEmailVerified := true));
            Reply(200, "Email verified successfully", Store(users, RemoveAt(s.ledger, i)))
  }

  // ---------------------------------------------------------------- reset request

  /** `resetPasswordRequest`. */
  function ResetPasswordRequest(s: Store, email: string, token: string, sent: bool, now: nat): (r: Reply)
    ensures FindByEmail(s.users, email).None? ==> r.code == 400 && r.message == "User not found" && r.store == s
    ensures FindByEmail(s.users, email).Some? && !s.users[FindByEmail(s.users, email).value].isEmailVerified
            ==> r.code == 400 && r.message == "Email not verified" && r.store == s
    ensures r.store != s <==>
      var id := FindByEmail(s.users, email); id.Some? && s.users[id.value].isEmailVerified
    ensures r.store != s ==>
      && r.store.users == s.users
      && r.store.ledger == s.ledger + [Entry(FindByEmail(s.users, email).value, token, now + ResetPasswordTtl)]
    ensures r.code == 200 <==> r.store != s && sent
    ensures r.store != s && !sent ==> r.code == 500
    ensures r.store == s ==> r.code == 400
  {
    match FindByEmail(s.users, email)
    case None => Reply(400, "User not found", s)
    case Some(id) =>
      if !s.users[id].isEmailVerified then Reply(400, "Email not verified", s)
      else
        var s' := s.(ledger := s.ledger + [Entry(id, token, now + ResetPasswordTtl)]);
        assert |s'.ledger| != |s.ledger|;
        if !sent then Reply(500, "Failed to send reset password email", s')
        else Reply(200, "Reset password email sent", s')
  }

  // ---------------------------------------------------------------- reset final

  /** `verifyResetPasswordTokenAndResetPassword`. A missing `newPassword` that
      equals a missing `confirmPassword` passes the match check and then makes
      `bcrypt.hash` throw. */
  function ResetPasswordWithToken(s: Store, jwt: Verifier, token: string,
                                  newPassword: Option<string>, confirmPassword: Option<string>, now: nat): (r: Reply)
    ensures !Accepts(jwt, token, now) ==> r.code == 500 && r.store == s
    ensures Accepts(jwt, token, now) && jwt[token].purpose != Some(ResetPassword)
            ==> r.code == 403 && r.message == "Invalid token" && r.store == s
    ensures Accepts(jwt, token, now) && jwt[token].purpose == Some(ResetPassword) && newPassword != confirmPassword
            ==> r.code == 400 && r.message == "Passwords do not match" && r.store == s
    ensures Accepts(jwt, token, now) && jwt[token].purpose == Some(ResetPassword) && newPassword == confirmPassword
            && (var i := FindEntry(s.ledger, jwt[token].userId, token); i.None? || Expired(s.ledger[i.value], now))
            ==> r.code == 403 && r.message == "Token expired"
    ensures Accepts(jwt, token, now) && jwt[token].purpose == Some(ResetPassword) && newPassword == confirmPassword
            && (var i := FindEntry(s.ledger, jwt[token].userId, token); i.Some? && !Expired(s.ledger[i.value], now))
            && newPassword.None?
            ==> r.code == 500
    ensures r.code != 200 ==> r.store == s
    ensures r.code == 200 <==>
      && Accepts(jwt, token, now) && jwt[token].purpose == Some(ResetPassword)
      && newPassword == confirmPassword && newPassword.Some?
      && var i := FindEntry(s.ledger, jwt[token].userId, token);
         i.Some? && !Expired(s.ledger[i.value], now)
    ensures r.code == 200 ==>
      var uid := jwt[token].userId;
      var i := FindEntry(s.ledger, uid, token).value;
      && r.store.ledger == RemoveAt(s.ledger, i)
      && |r.store.users| == |s.users|
      && (forall k :: 0 <= k < |s.users| && k != uid ==> r.store.users[k] == s.users[k])
      && (uid < |s.users| ==>
            && r.store.users[uid] == s.users[uid].(password := r.store.users[uid].password)
            && Compare(newPassword.value, r.store.users[uid].password))
  {
    if !Accepts(jwt, token, now) then Reply(500, InternalError, s)
    else
      var payload := jwt[token];
      if payload.purpose != Some(ResetPassword) then Reply(403, "Invalid token", s)
      else if newPassword != confirmPassword then Reply(400, "Passwords do not match", s)
      else match FindEntry(s.ledger, payload.userId, token)
        case None => Reply(403, "Token expired", s)
        case Some(i) =>
          if Expired(s.ledger[i], now) then Reply(403, "Token expired", s)
          else if newPassword.None? then Reply(500, InternalError, s)
          else
            var digest := Hash(newPassword.value);
            var users := UpdateUser(s.users, payload.userId, (u: User) => u.(password := digest));
            Reply(200, "Password reset successfully", Store(users, RemoveAt(s.ledger, i)))
  }
}
