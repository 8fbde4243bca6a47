/** Properties of the account and token lifecycle that relate several handler
    calls: the store invariant, single use of ledger entries, the expiry window,
    and the register → verify and reset-request → reset → login sequences. */
module Lifecycle {
  import opened Base
  import opened Accounts

  /** Registration keeps emails unique and ledger entries attached to users. */
  lemma RegisterPreservesValid(s: Store, denied: bool, email: string, name: string,
                               password: Option<string>, token: string, sent: bool, now: nat)
    requires Valid(s)
    ensures Valid(RegisterUser(s, denied, email, name, password, token, sent, now).store)
  {
    var r := RegisterUser(s, denied, email, name, password, token, sent, now);
    if r.store != s {
      var id := |s.users|;
      assert forall k :: 0 <= k < id ==> r.store.users[k] == s.users[k] by {
        assert r.store.users[..id] == s.users;
      }
      assert forall k :: 0 <= k < id ==> s.users[k].email != email;
    }
  }

  lemma VerifyEmailPreservesValid(s: Store, jwt: Verifier, token: string, now: nat)
    requires Valid(s)
    ensures Valid(VerifyEmail(s, jwt, token, now).store)
  {
  }

  lemma ResetPasswordRequestPreservesValid(s: Store, email: string, token: string, sent: bool, now: nat)
    requires Valid(s)
    ensures Valid(ResetPasswordRequest(s, email, token, sent, now).store)
  {
  }

  lemma ResetPasswordWithTokenPreservesValid(s: Store, jwt: Verifier, token: string,
                                             newPassword: Option<string>, confirmPassword: Option<string>, now: nat)
    requires Valid(s)
    ensures Valid(ResetPasswordWithToken(s, jwt, token, newPassword, confirmPassword, now).store)
  {
  }

  /** No two ledger entries share this user and token. */
  predicate SingleEntry(ledger: seq<Entry>, uid: UserId, token: string)
  {
    forall a, b :: 0 <= a < b < |ledger| && ledger[a].userId == uid && ledger[a].token == token
                   ==> !(ledger[b].userId == uid && ledger[b].token == token)
  }

  /** Removing the only matching entry leaves none. */
  lemma {:induction false} RemoveOnlyMatch(ledger: seq<Entry>, i: nat, uid: UserId, token: string)
    requires i < |ledger| && ledger[i].userId == uid && ledger[i].token == token
    requires SingleEntry(ledger, uid, token)
    ensures FindEntry(RemoveAt(ledger, i), uid, token).None?
  {
    var r := RemoveAt(ledger, i);
    forall k | 0 <= k < |r|
      ensures !(r[k].userId == uid && r[k].token == token)
    {
      if k < i {
        assert r[k] == ledger[k];
      } else {
        assert r[k] == ledger[k + 1];
      }
    }
  }

  /** A verification entry is consumed once: when the entry was the only one for
      its user and token, repeating a successful call never succeeds, and answers
      403 while the token itself is still accepted. */
  lemma VerifyEmailSingleUse(s: Store, jwt: Verifier, token: string, now: nat, later: nat)
    requires VerifyEmail(s, jwt, token, now).code == 200
    requires SingleEntry(s.ledger, jwt[token].userId, token)
    ensures var again := VerifyEmail(VerifyEmail(s, jwt, token, now).store, jwt, token, later);
            && again.code != 200
            && (Accepts(jwt, token, later) ==> again.code == 403 && again.message == "Invalid token")
  {
    var uid := jwt[token].userId;
    RemoveOnlyMatch(s.ledger, FindEntry(s.ledger, uid, token).value, uid, token);
  }

  /** A reset entry is consumed once, in the same sense. */
  lemma ResetSingleUse(s: Store, jwt: Verifier, token: string, p: Option<string>, now: nat, later: nat)
    requires ResetPasswordWithToken(s, jwt, token, p, p, now).code == 200
    requires SingleEntry(s.ledger, jwt[token].userId, token)
    ensures var again := ResetPasswordWithToken(ResetPasswordWithToken(s, jwt, token, p, p, now).store,
                                                jwt, token, p, p, later);
            && again.code != 200
            && (Accepts(jwt, token, later) ==> again.code == 403)
  {
    var uid := jwt[token].userId;
    RemoveOnlyMatch(s.ledger, FindEntry(s.ledger, uid, token).value, uid, token);
  }

  /** A token signed no later than its ledger entry was written expires no later
      than the entry: while the token is accepted, the entry is unexpired. */
  lemma JwtExpiresFirst(signed: nat, issued: nat, now: nat, ttl: nat)
    requires signed <= issued
    requires now / 1000 < signed / 1000 + ttl
    ensures now <= issued + ttl * 1000
  {
    assert now < (now / 1000) * 1000 + 1000;
    assert (now / 1000 + 1) * 1000 <= (signed / 1000 + ttl) * 1000;
    assert (signed / 1000) * 1000 <= signed;
  }

  /** A fresh registration's token verifies the new account exactly while the
      token's own 12-hour expiry has not passed. After that `jwt.verify` throws and
      the answer is 500: the ledger entry, written after signing with the same
      lifetime, never expires first, so "Token expired" is never the answer. */
  lemma RegisterThenVerify(s: Store, email: string, name: string, password: string,
                           token: string, sent: bool, signed: nat, issued: nat, jwt: Verifier, now: nat)
    requires Valid(s)
    requires FindByEmail(s.users, email).None?
    requires signed <= issued
    requires token in jwt
    requires jwt[token] == Signed(|s.users|, Some(EmailVerification), signed, EmailVerificationJwtTtl)
    ensures var r := RegisterUser(s, false, email, name, Some(password), token, sent, issued);
            var v := VerifyEmail(r.store, jwt, token, now);
            && (v.code == 200 <==> now / 1000 < signed / 1000 + EmailVerificationJwtTtl)
            && (v.code == 200 ==> v.store.users[|s.users|].isEmailVerified)
            && (v.code != 200 ==> v.code == 500)
  {
    var r := RegisterUser(s, false, email, name, Some(password), token, sent, issued);
    var id := |s.users|;
    var n := |s.ledger|;
    assert r.store.ledger == s.ledger + [Entry(id, token, issued + EmailVerificationTtl)];
    assert forall k :: 0 <= k < n ==> s.ledger[k].userId != id;
    FirstMatchAppend(s.ledger, Entry(id, token, issued + EmailVerificationTtl),
                     (e: Entry) => e.userId == id && e.token == token);
    assert FindEntry(r.store.ledger, id, token) == Some(n);
    if now / 1000 < signed / 1000 + EmailVerificationJwtTtl {
      JwtExpiresFirst(signed, issued, now, EmailVerificationJwtTtl);
    }
  }

  /** A reset request for a verified account with no entry for the token
      appends the entry that the token then finds. */
  lemma ResetRequestEntry(s: Store, email: string, token: string, sent: bool, issued: nat)
    requires FindByEmail(s.users, email).Some?
    requires s.users[FindByEmail(s.users, email).value].isEmailVerified
    requires FindEntry(s.ledger, FindByEmail(s.users, email).value, token).None?
    ensures var r := ResetPasswordRequest(s, email, token, sent, issued);
            var id := FindByEmail(s.users, email).value;
            && r.store.users == s.users
            && FindEntry(r.store.ledger, id, token) == Some(|s.ledger|)
            && r.store.ledger[|s.ledger|] == Entry(id, token, issued + ResetPasswordTtl)
  {
    var id := FindByEmail(s.users, email).value;
    FirstMatchAppend(s.ledger, Entry(id, token, issued + ResetPasswordTtl),
                     (e: Entry) => e.userId == id && e.token == token);
  }

  /** A reset requested for a verified account and completed with matching
      passwords succeeds exactly while the reset token's 15-minute expiry has not
      passed (500 after it). On success the user logs in with the new password,
      and not with a password whose bcrypt key differs. */
  lemma ResetThenLogin(s: Store, email: string, token: string, sent: bool, signed: nat, issued: nat,
                       jwt: Verifier, now: nat, newPassword: string, other: string, session: string)
    requires Valid(s)
    requires email != "" && newPassword != "" && other != ""
    requires BcryptKey(other) != BcryptKey(newPassword)
    requires FindByEmail(s.users, email).Some?
    requires s.users[FindByEmail(s.users, email).value].isEmailVerified
    requires FindEntry(s.ledger, FindByEmail(s.users, email).value, token).None?
    requires signed <= issued
    requires token in jwt
    requires jwt[token] == Signed(FindByEmail(s.users, email).value, Some(ResetPassword), signed, ResetPasswordJwtTtl)
    ensures var r1 := ResetPasswordRequest(s, email, token, sent, issued);
            var r2 := ResetPasswordWithToken(r1.store, jwt, token, Some(newPassword), Some(newPassword), now);
            && (r2.code == 200 <==> now / 1000 < signed / 1000 + ResetPasswordJwtTtl)
            && (r2.code != 200 ==> r2.code == 500)
            && (r2.code == 200 ==>
                  && LoginUser(r2.store, Some(email), Some(newPassword), session).code == 200
                  && LoginUser(r2.store, Some(email), Some(other), session).code == 400)
  {
    var id := FindByEmail(s.users, email).value;
    var r1 := ResetPasswordRequest(s, email, token, sent, issued);
    ResetRequestEntry(s, email, token, sent, issued);
    var r2 := ResetPasswordWithToken(r1.store, jwt, token, Some(newPassword), Some(newPassword), now);
    if now / 1000 < signed / 1000 + ResetPasswordJwtTtl {
      JwtExpiresFirst(signed, issued, now, ResetPasswordJwtTtl);
      assert r2.code == 200;
      FirstMatchKept(s.users, r2.store.users, (u: User) => u.email == email, id);
    }
  }

  /** Login does not look at `isEmailVerified`: a freshly registered, unverified
      account can log in at once. */
  lemma RegisterThenLoginUnverified(s: Store, email: string, name: string, password: string,
                                    token: string, sent: bool, issued: nat, session: string)
    requires Valid(s)
    requires email != "" && password != ""
    requires FindByEmail(s.users, email).None?
    ensures var r := RegisterUser(s, false, email, name, Some(password), token, sent, issued);
            var l := LoginUser(r.store, Some(email), Some(password), session);
            && l.code == 200
            && !l.user.value.isEmailVerified
  {
    var r := RegisterUser(s, false, email, name, Some(password), token, sent, issued);
    assert r.store.users == s.users + [r.store.users[|s.users|]];
    FirstMatchAppend(s.users, r.store.users[|s.users|], (u: User) => u.email == email);
  }
}
