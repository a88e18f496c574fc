/**
 * Properties of the per-user credential and session state across several
 * handler calls on the same table.
 */
module SessionProperties {
  import opened Wrappers
  import opened Guids
  import opened DotNetText
  import opened Domain
  import opened Exceptions
  import opened PasswordManagement
  import opened Store
  import Login
  import RefreshToken
  import Logout
  import ChangePassword
  import ForgotPassword
  import ResetPassword
  import Register

  /** The table after a handler step. */
  function After<T>(rows: seq<User>, s: Step<T>): seq<User> {
    ApplyAll(rows, s.writes)
  }

  /** The write of a successful single-update step lands on the row with its key. */
  lemma {:induction false} UpdateLands(rows: seq<User>, before: User, after: User)
    requires Stored(rows) && before in rows && after.id == before.id && after.email == before.email && FitsColumns(after)
    ensures Stored(ApplyAll(rows, [UpdateRow(after)]))
    ensures FindById(ApplyAll(rows, [UpdateRow(after)]), after.id) == Some(after)
    ensures FindByEmail(ApplyAll(rows, [UpdateRow(after)]), after.email) == Some(after)
  {
    ApplyAllSingle(rows, UpdateRow(after));
    UpdateKeepingEmailAccepted(rows, before, after);
    StoredKept(rows, UpdateRow(after));
    FindAfterReplace(rows, after, after.id);
    FindByIdIn(rows, before);
    FindByEmailAfterReplace(rows, after, after.email);
  }

  // ---- Login ----

  /** An unknown e-mail and a wrong password get the same answer, so the
      response does not tell whether an account exists. */
  lemma LoginFailuresAlike(rows: seq<User>, h: Hasher, unknown: string, p1: string, known: string, p2: string,
                           at: string, rt: string, now: Time, fault: StoreFault)
    requires fault != ReadFails
    requires FindByEmail(rows, unknown).None?
    requires FindByEmail(rows, known).Some? && !VerifyPassword(h, p2, FindByEmail(rows, known).value.passwordHash)
    ensures Login.Handle(rows, h, unknown, p1, at, rt, now, fault) == Login.Handle(rows, h, known, p2, at, rt, now, fault)
    ensures Login.Handle(rows, h, unknown, p1, at, rt, now, fault) == Step(Err(Unauthorized(Login.BadCredentials)), [])
  {
  }

  /** With no user for the e-mail the hasher is never consulted: any two hashers give the same step. */
  lemma LoginUnknownEmailSkipsVerification(rows: seq<User>, h1: Hasher, h2: Hasher, email: string, password: string,
                                           at: string, rt: string, now: Time, fault: StoreFault)
    requires FindByEmail(rows, email).None?
    ensures Login.Handle(rows, h1, email, password, at, rt, now, fault) ==
            Login.Handle(rows, h2, email, password, at, rt, now, fault)
  {
  }

  /** After a login the stored refresh token is the one returned, and a refresh
      for that user succeeds with any non-blank token until the expiry 7 days later. */
  lemma {:induction false} LoginOpensRefreshableSession(rows: seq<User>, h: Hasher, email: string, password: string,
                                                        at: string, rt: string, now: Time,
                                                        presented: Option<string>, at2: string, rt2: string, later: Time)
    requires Stored(rows)
    requires Login.Handle(rows, h, email, password, at, rt, now, Healthy).result.Ok?
    requires !IsNullOrWhiteSpace(presented) && later < now + RefreshTokenLifetime
    ensures var s := Login.Handle(rows, h, email, password, at, rt, now, Healthy);
            var id := FindByEmail(rows, email).value.id;
            && FindById(After(rows, s), id).Some?
            && FindById(After(rows, s), id).value.refreshToken == Some(s.result.value.refreshToken)
            && RefreshToken.Handle(After(rows, s), id, presented, at2, rt2, later, Healthy).result.Ok?
  {
    var s := Login.Handle(rows, h, email, password, at, rt, now, Healthy);
    var u := FindByEmail(rows, email).value;
    var t := s.writes[0].user;
    assert s.writes == [UpdateRow(t)];
    UpdateLands(rows, u, t);
  }

  // ---- Refresh ----

  /** The presented refresh token is never compared with the stored one: any
      two non-blank values lead to the same step. */
  lemma RefreshIgnoresPresentedValue(rows: seq<User>, id: Guid, a: string, b: string,
                                     at: string, rt: string, now: Time, fault: StoreFault)
    requires !IsBlank(a) && !IsBlank(b)
    ensures RefreshToken.Handle(rows, id, Some(a), at, rt, now, fault) ==
            RefreshToken.Handle(rows, id, Some(b), at, rt, now, fault)
  {
  }

  /** Rotation: after a refresh the stored token is the returned one, so the old
      value no longer is; only the session and `UpdatedAt` of that user changed,
      and every other user is found as before. */
  lemma {:induction false} RefreshRotates(rows: seq<User>, id: Guid, presented: Option<string>,
                                          at: string, rt: string, now: Time)
    requires Stored(rows)
    requires RefreshToken.Handle(rows, id, presented, at, rt, now, Healthy).result.Ok?
    ensures var s := RefreshToken.Handle(rows, id, presented, at, rt, now, Healthy);
            && Stored(After(rows, s))
            && FindById(After(rows, s), id).Some?
            && FindById(After(rows, s), id).value.refreshToken == Some(s.result.value.refreshToken)
            && FindById(After(rows, s), id).value.refreshTokenExpiryTime == Some(now + RefreshTokenLifetime)
            && RefreshToken.Rotated(FindById(rows, id).value, FindById(After(rows, s), id).value,
                                    s.result.value.refreshToken, now)
            && (forall other :: other != id ==> FindById(After(rows, s), other) == FindById(rows, other))
  {
    var s := RefreshToken.Handle(rows, id, presented, at, rt, now, Healthy);
    var u := FindById(rows, id).value;
    var t := s.writes[0].user;
    assert s.writes == [UpdateRow(t)];
    UpdateLands(rows, u, t);
    ApplyAllSingle(rows, UpdateRow(t));
    UpdateKeepingEmailAccepted(rows, u, t);
    forall other | other != id
      ensures FindById(After(rows, s), other) == FindById(rows, other)
    {
      FindAfterReplace(rows, t, other);
    }
  }

  /** As written: a token that a refresh has already rotated away still opens
      the session again, until the new expiry. */
  lemma {:induction false} RotatedTokenReplays(rows: seq<User>, id: Guid, old_: string, at: string, rt: string,
                                               now: Time, at2: string, rt2: string, later: Time)
    requires Stored(rows) && !IsBlank(old_) && old_ != rt && later < now + RefreshTokenLifetime
    requires RefreshToken.Handle(rows, id, Some(old_), at, rt, now, Healthy).result.Ok?
    ensures var rows1 := After(rows, RefreshToken.Handle(rows, id, Some(old_), at, rt, now, Healthy));
            && FindById(rows1, id).Some? && FindById(rows1, id).value.refreshToken != Some(old_)
            && RefreshToken.Handle(rows1, id, Some(old_), at2, rt2, later, Healthy).result.Ok?
  {
    RefreshRotates(rows, id, Some(old_), at, rt, now);
  }

  /** Corrected: once rotated, the old token is refused and nothing is written,
      while the token the refresh returned opens the session. */
  lemma {:induction false} CheckedRefreshRefusesReplay(rows: seq<User>, id: Guid, presented: Option<string>,
                                                       at: string, rt: string, now: Time,
                                                       at2: string, rt2: string, later: Time)
    requires Stored(rows) && later < now + RefreshTokenLifetime
    requires presented != Some(rt) && !IsBlank(rt)
    requires RefreshToken.HandleChecked(rows, id, presented, at, rt, now, Healthy).result.Ok?
    ensures var rows1 := After(rows, RefreshToken.HandleChecked(rows, id, presented, at, rt, now, Healthy));
            && RefreshToken.HandleChecked(rows1, id, presented, at2, rt2, later, Healthy) ==
                 Step(Err(Unauthorized(RefreshToken.Invalid)), [])
            && RefreshToken.HandleChecked(rows1, id, Some(rt), at2, rt2, later, Healthy).result.Ok?
  {
    assert RefreshToken.HandleChecked(rows, id, presented, at, rt, now, Healthy) ==
           RefreshToken.Handle(rows, id, presented, at, rt, now, Healthy);
    RefreshRotates(rows, id, presented, at, rt, now);
  }

  // ---- Logout ----

  /** Logging out twice leaves the table as logging out once. */
  lemma {:induction false} LogoutIdempotent(rows: seq<User>, email: string)
    requires Stored(rows)
    ensures var once := After(rows, Logout.Handle(rows, email, Healthy));
            After(once, Logout.Handle(once, email, Healthy)) == once
  {
    var s := Logout.Handle(rows, email, Healthy);
    if FindByEmail(rows, email).Some? {
      var u := FindByEmail(rows, email).value;
      var t := s.writes[0].user;
      assert s.writes == [UpdateRow(t)];
      UpdateLands(rows, u, t);
      var once := After(rows, s);
      var s2 := Logout.Handle(once, email, Healthy);
      var t2 := s2.writes[0].user;
      assert s2.writes == [UpdateRow(t2)];
      assert t2 == t;
      ApplyAllSingle(once, UpdateRow(t));
      ReplaceSame(once, t);
    }
  }

  /** After a logout, refreshing that user's session fails as expired, whatever token is presented. */
  lemma {:induction false} LogoutEndsSession(rows: seq<User>, email: string, presented: Option<string>,
                                             at: string, rt: string, now: Time, fault: StoreFault)
    requires Stored(rows) && FindByEmail(rows, email).Some?
    requires !IsNullOrWhiteSpace(presented) && fault != ReadFails
    ensures var once := After(rows, Logout.Handle(rows, email, Healthy));
            RefreshToken.Handle(once, FindByEmail(rows, email).value.id, presented, at, rt, now, fault).result ==
              Err(Unauthorized(RefreshToken.Expired))
  {
    var s := Logout.Handle(rows, email, Healthy);
    var u := FindByEmail(rows, email).value;
    var t := s.writes[0].user;
    assert s.writes == [UpdateRow(t)];
    UpdateLands(rows, u, t);
  }

  // ---- Change password ----

  /** A password change keeps the session: a refresh gets the same answer before and after it. */
  lemma {:induction false} ChangePasswordKeepsSession(rows: seq<User>, h: Hasher, userId: Guid,
                                                      current: Option<string>, newPassword: Option<string>,
                                                      confirm: Option<string>, scheme: HashScheme, now: Time,
                                                      presented: Option<string>, at: string, rt: string,
                                                      later: Time, fault: StoreFault)
    requires Stored(rows)
    requires ChangePassword.Handle(rows, h, userId, current, newPassword, confirm, scheme, now, Healthy).result.Ok?
    ensures var s := ChangePassword.Handle(rows, h, userId, current, newPassword, confirm, scheme, now, Healthy);
            RefreshToken.Handle(After(rows, s), userId, presented, at, rt, later, fault).result ==
            RefreshToken.Handle(rows, userId, presented, at, rt, later, fault).result
  {
    var s := ChangePassword.Handle(rows, h, userId, current, newPassword, confirm, scheme, now, Healthy);
    var u := FindById(rows, userId).value;
    var t := s.writes[0].user;
    assert s.writes == [UpdateRow(t)];
    UpdateLands(rows, u, t);
    FindByIdIn(rows, u);
    var rotated := t.(refreshToken := Some(rt), refreshTokenExpiryTime := Some(later + RefreshTokenLifetime),
                      updatedAt := Some(later));
    var rotated0 := u.(refreshToken := Some(rt), refreshTokenExpiryTime := Some(later + RefreshTokenLifetime),
                       updatedAt := Some(later));
    UpdateKeepingEmailAccepted(After(rows, s), t, rotated);
    UpdateKeepingEmailAccepted(rows, u, rotated0);
  }

  // ---- Forgot and reset password ----

  /** Known and unknown e-mails get the same answer from forgot-password. */
  lemma ForgotPasswordSameAnswer(rows: seq<User>, e1: string, e2: string, t1: string, t2: string, now: Time)
    requires Stored(rows) && !IsBlank(e1) && !IsBlank(e2)
    ensures ForgotPassword.Handle(rows, Some(e1), t1, now, Healthy).result ==
            ForgotPassword.Handle(rows, Some(e2), t2, now, Healthy).result == Ok(Unit)
  {
  }

  /** A forgot-password request for a stored e-mail leaves that user with the new token. */
  lemma {:induction false} ForgotPasswordStoresToken(rows: seq<User>, email: string, token: string, now: Time)
    requires Stored(rows) && !IsBlank(email) && FindByEmail(rows, email).Some?
    ensures var rows1 := After(rows, ForgotPassword.Handle(rows, Some(email), token, now, Healthy));
            && Stored(rows1)
            && FindByEmail(rows1, email).Some?
            && FindByEmail(rows1, email).value.resetToken == Some(token)
            && FindByEmail(rows1, email).value.resetTokenExpiryTime == Some(now + ResetTokenLifetime)
  {
    var u := FindByEmail(rows, email).value;
    var s := ForgotPassword.Handle(rows, Some(email), token, now, Healthy);
    var a := s.writes[0].user;
    assert s.writes == [UpdateRow(a)];
    UpdateLands(rows, u, a);
  }

  /** Reset-password refuses a token other than the stored one. */
  lemma ResetRefusesOtherToken(rows: seq<User>, h: Hasher, email: string, token: string,
                               np: string, scheme: HashScheme, now: Time, fault: StoreFault)
    requires FindByEmail(rows, email).Some? && FindByEmail(rows, email).value.resetToken != Some(token)
    requires !IsBlank(email) && !IsBlank(token) && !IsBlank(np) && fault != ReadFails
    ensures ResetPassword.Handle(rows, h, Some(email), Some(token), Some(np), Some(np), scheme, now, fault).result ==
              Err(Unauthorized(ResetPassword.InvalidToken))
  {
  }

  /** A second forgot-password request replaces the pending token: the latest
      token is stored, and the earlier one is refused by reset-password. */
  lemma {:induction false} ForgotPasswordLatestWins(rows: seq<User>, email: string, t1: string, now1: Time,
                                                    t2: string, now2: Time,
                                                    h: Hasher, np: string, scheme: HashScheme, now3: Time, fault: StoreFault)
    requires Stored(rows) && !IsBlank(email) && FindByEmail(rows, email).Some?
    requires t1 != t2 && !IsBlank(t1) && !IsBlank(np) && fault != ReadFails
    ensures var rows1 := After(rows, ForgotPassword.Handle(rows, Some(email), t1, now1, Healthy));
            var rows2 := After(rows1, ForgotPassword.Handle(rows1, Some(email), t2, now2, Healthy));
            && FindByEmail(rows2, email).Some?
            && FindByEmail(rows2, email).value.resetToken == Some(t2)
            && ResetPassword.Handle(rows2, h, Some(email), Some(t1), Some(np), Some(np), scheme, now3, fault).result ==
                 Err(Unauthorized(ResetPassword.InvalidToken))
  {
    ForgotPasswordStoresToken(rows, email, t1, now1);
    var rows1 := After(rows, ForgotPassword.Handle(rows, Some(email), t1, now1, Healthy));
    ForgotPasswordStoresToken(rows1, email, t2, now2);
    var rows2 := After(rows1, ForgotPassword.Handle(rows1, Some(email), t2, now2, Healthy));
    ResetRefusesOtherToken(rows2, h, email, t1, np, scheme, now3, fault);
  }

  /** A reset token works once: replaying it after a successful reset is refused. */
  lemma {:induction false} ResetTokenSingleUse(rows: seq<User>, h: Hasher, email: string, token: string,
                                               np: string, scheme: HashScheme, now: Time,
                                               np2: string, scheme2: HashScheme, now2: Time, fault: StoreFault)
    requires Stored(rows)
    requires !IsBlank(np2) && fault != ReadFails
    requires ResetPassword.Handle(rows, h, Some(email), Some(token), Some(np), Some(np), scheme, now, Healthy).writes != []
    ensures var s := ResetPassword.Handle(rows, h, Some(email), Some(token), Some(np), Some(np), scheme, now, Healthy);
            ResetPassword.Handle(After(rows, s), h, Some(email), Some(token), Some(np2), Some(np2), scheme2, now2, fault).result ==
              Err(Unauthorized(ResetPassword.InvalidToken))
  {
    var s := ResetPassword.Handle(rows, h, Some(email), Some(token), Some(np), Some(np), scheme, now, Healthy);
    var u := FindByEmail(rows, email).value;
    var t := s.writes[0].user;
    assert s.writes == [UpdateRow(t)];
    UpdateLands(rows, u, t);
  }

  // ---- Stored hash formats ----

  /** A hasher that meets `Sound`: Identity's hash of `p` is `"I" + p`, and the
      HMAC digest of `p` under `k` is `"H" + k + p`. */
  const ToyHasher: Hasher := Hasher(
    (p: string, salt: string) => "I" + p,
    (stored: string, entered: string) => if stored == "I" + entered then Success else Failed,
    (k: string, p: string) => "H" + k + p)

  lemma ToyHasherIsSound()
    ensures Sound(ToyHasher)
  {
  }

  /** An HMAC digest is never accepted by the toy Identity verifier. */
  lemma {:induction false} ToyRejectsDigest(key: string, p: string, entered: string)
    ensures !VerifyPassword(ToyHasher, entered, StoredHash(ToyHasher, HmacDigest(key), p))
  {
    assert StoredHash(ToyHasher, HmacDigest(key), p)[0] == 'H';
    assert ("I" + entered)[0] == 'I';
  }

  /** As written: after a successful password change, neither the new nor the
      old password logs in, because the stored hash is an HMAC digest that
      `VerifyPassword` does not understand. */
  lemma {:induction false} ChangedPasswordLocksOut(rows: seq<User>, u: User, current: string, np: string,
                                                   key: string, now: Time, at: string, rt: string, later: Time)
    requires Stored(rows) && u in rows && u.passwordHash == "I" + current
    requires !IsBlank(current) && !IsBlank(np) && 1 + |key| + |np| <= PasswordHashWidth
    ensures var s := ChangePassword.Handle(rows, ToyHasher, u.id, Some(current), Some(np), Some(np),
                                           HmacDigest(key), now, Healthy);
            && s.result.Ok?
            && Login.Handle(After(rows, s), ToyHasher, u.email, np, at, rt, later, Healthy).result ==
                 Err(Unauthorized(Login.BadCredentials))
            && Login.Handle(After(rows, s), ToyHasher, u.email, current, at, rt, later, Healthy).result ==
                 Err(Unauthorized(Login.BadCredentials))
  {
    FindByIdIn(rows, u);
    var s := ChangePassword.Handle(rows, ToyHasher, u.id, Some(current), Some(np), Some(np),
                                   HmacDigest(key), now, Healthy);
    var t := s.writes[0].user;
    assert s.writes == [UpdateRow(t)];
    UpdateLands(rows, u, t);
    ToyRejectsDigest(key, np, np);
    ToyRejectsDigest(key, np, current);
  }

  /** Corrected: when the new password is stored with Identity's hash, the user
      logs in with it after the change, for every sound hasher. */
  lemma {:induction false} ChangedPasswordLogsIn(rows: seq<User>, h: Hasher, userId: Guid, current: Option<string>,
                                                 np: string, salt: string, now: Time, at: string, rt: string, later: Time)
    requires Sound(h) && Stored(rows)
    requires ChangePassword.Handle(rows, h, userId, current, Some(np), Some(np), IdentityHash(salt), now, Healthy).result.Ok?
    ensures var s := ChangePassword.Handle(rows, h, userId, current, Some(np), Some(np), IdentityHash(salt), now, Healthy);
            Login.Handle(After(rows, s), h, FindById(rows, userId).value.email, np, at, rt, later, Healthy).result.Ok?
  {
    var s := ChangePassword.Handle(rows, h, userId, current, Some(np), Some(np), IdentityHash(salt), now, Healthy);
    var u := FindById(rows, userId).value;
    var t := s.writes[0].user;
    assert s.writes == [UpdateRow(t)];
    FindByIdIn(rows, u);
    UpdateLands(rows, u, t);
    VerifyAcceptsIdentityHash(h, np, salt);
  }

  /** As written: after a successful reset, the new password does not log in. */
  lemma {:induction false} ResetPasswordLocksOut(rows: seq<User>, u: User, token: string, np: string,
                                                 key: string, now: Time, at: string, rt: string, later: Time)
    requires Stored(rows) && u in rows && !IsBlank(u.email) && !IsBlank(np) && 1 + |key| + |np| <= PasswordHashWidth
    requires ResetPassword.TokenAccepted(u, token, now)
    ensures var s := ResetPassword.Handle(rows, ToyHasher, Some(u.email), Some(token), Some(np), Some(np),
                                          HmacDigest(key), now, Healthy);
            && s.result.Ok? && s.writes != []
            && Login.Handle(After(rows, s), ToyHasher, u.email, np, at, rt, later, Healthy).result ==
                 Err(Unauthorized(Login.BadCredentials))
  {
    FindByEmailIn(rows, u);
    var s := ResetPassword.Handle(rows, ToyHasher, Some(u.email), Some(token), Some(np), Some(np),
                                  HmacDigest(key), now, Healthy);
    var t := s.writes[0].user;
    assert s.writes == [UpdateRow(t)];
    UpdateLands(rows, u, t);
    ToyRejectsDigest(key, np, np);
  }

  /** Corrected: a reset that stores Identity's hash lets the user log in with the new password. */
  lemma {:induction false} ResetPasswordLogsIn(rows: seq<User>, h: Hasher, email: string, token: string,
                                               np: string, salt: string, now: Time, at: string, rt: string, later: Time)
    requires Sound(h) && Stored(rows)
    requires ResetPassword.Handle(rows, h, Some(email), Some(token), Some(np), Some(np), IdentityHash(salt), now, Healthy).writes != []
    ensures var s := ResetPassword.Handle(rows, h, Some(email), Some(token), Some(np), Some(np), IdentityHash(salt), now, Healthy);
            Login.Handle(After(rows, s), h, email, np, at, rt, later, Healthy).result.Ok?
  {
    var s := ResetPassword.Handle(rows, h, Some(email), Some(token), Some(np), Some(np), IdentityHash(salt), now, Healthy);
    var u := FindByEmail(rows, email).value;
    var t := s.writes[0].user;
    assert s.writes == [UpdateRow(t)];
    UpdateLands(rows, u, t);
    VerifyAcceptsIdentityHash(h, np, salt);
  }

  // ---- Register ----

  /** A registered user can log in with the password they registered with. */
  lemma {:induction false} RegisterThenLogin(rows: seq<User>, h: Hasher, request: Register.RegisterRequest,
                                             newId: Guid, salt: string, now: Time,
                                             at: string, rt: string, later: Time)
    requires Sound(h) && Stored(rows)
    requires Register.Handle(rows, h, request, newId, salt, now, Healthy).result.Ok?
    ensures var rows1 := After(rows, Register.Handle(rows, h, request, newId, salt, now, Healthy));
            && Stored(rows1) && |rows1| == |rows| + 1
            && Login.Handle(rows1, h, request.email, request.password, at, rt, later, Healthy).result.Ok?
  {
    var s := Register.Handle(rows, h, request, newId, salt, now, Healthy);
    var u := s.writes[0].user;
    assert Accepts(rows, InsertRow(u));
    StoredKept(rows, InsertRow(u));
    var rows1 := rows + [u];
    assert u in rows1;
    FindByEmailIn(rows1, u);
    VerifyAcceptsIdentityHash(h, request.password, salt);
  }
}
