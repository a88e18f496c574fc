/**
 * `ResetPasswordCommandHandler.Handle`: check the request, check the stored
 * reset token and its expiry, then replace the password hash and consume the
 * token. `ResetPasswordRequestDto` carries nullable strings, kept as `Option`.
 */
module ResetPassword {
  import opened Wrappers
  import opened DotNetText
  import opened Domain
  import opened Exceptions
  import opened PasswordManagement
  import opened Store

  const MissingFields := "Champs requis manquants."
  const Mismatch := "Les mots de passe ne correspondent pas."
  const InvalidToken := "Reset token invalide ou expiré."

  predicate AnyBlank(email: Option<string>, token: Option<string>, newPassword: Option<string>, confirm: Option<string>) {
    IsNullOrWhiteSpace(email) || IsNullOrWhiteSpace(token) || IsNullOrWhiteSpace(newPassword) || IsNullOrWhiteSpace(confirm)
  }

  /** The stored reset token is present, not blank, ordinally equal to the
      presented one, and its expiry lies after `now`. */
  predicate TokenAccepted(u: User, presented: string, now: Time) {
    && !IsNullOrWhiteSpace(u.resetToken)
    && u.resetToken == Some(presented)
    && u.resetTokenExpiryTime.Some? && u.resetTokenExpiryTime.value > now
  }

  /** `after` is `before` with a new hash, the reset pair consumed and `UpdatedAt = now`;
      the session is kept. */
  predicate ResetConsumed(before: User, after: User, hash: string, now: Time) {
    && SameIdentity(before, after)
    && SameSession(before, after)
    && after.passwordHash == hash
    && after.resetToken.None? && after.resetTokenExpiryTime.None?
    && after.updatedAt == Some(now)
  }

  /** The handler; `scheme` makes the stored hash of the new password (`Run`
      passes `HmacDigest`, as the handler does). */
  function Handle(rows: seq<User>, h: Hasher, email: Option<string>, token: Option<string>,
                  newPassword: Option<string>, confirm: Option<string>, scheme: HashScheme, now: Time,
                  fault: StoreFault): (s: Step<Unit>)
    ensures s.result.Err? ==> s.writes == []
    ensures AnyBlank(email, token, newPassword, confirm) ==> s.result == Err(Argument(MissingFields))
    ensures !AnyBlank(email, token, newPassword, confirm) && newPassword != confirm ==>
              s.result == Err(Argument(Mismatch))
    ensures !AnyBlank(email, token, newPassword, confirm) && newPassword == confirm && fault != ReadFails ==>
              match FindByEmail(rows, email.value)
              case None => s == Step(Ok(Unit), [])
              case Some(u) =>
                if !TokenAccepted(u, token.value, now) then s.result == Err(Unauthorized(InvalidToken))
                else && (s.result.Ok? || s.result == Err(Infrastructure))
                     && (fault == WriteFails ==> s == Step(Err(Infrastructure), []))
                     && (s.result.Ok? ==> |s.writes| == 1 && s.writes[0].UpdateRow?)
    ensures s.result.Ok? && s.writes != [] ==>
              && !AnyBlank(email, token, newPassword, confirm) && newPassword == confirm
              && FindByEmail(rows, email.value).Some?
              && TokenAccepted(FindByEmail(rows, email.value).value, token.value, now)
              && |s.writes| == 1 && s.writes[0].UpdateRow?
              && ResetConsumed(FindByEmail(rows, email.value).value, s.writes[0].user,
                               StoredHash(h, scheme, newPassword.value), now)
    ensures Stored(rows) && StandardLengths(h) && fault == Healthy && !AnyBlank(email, token, newPassword, confirm) &&
            newPassword == confirm && FindByEmail(rows, email.value).Some? &&
            TokenAccepted(FindByEmail(rows, email.value).value, token.value, now) ==>
              s.result.Ok? && s.writes != []
  {
    if AnyBlank(email, token, newPassword, confirm) then Step(Err(Argument(MissingFields)), [])
    else if newPassword.value != confirm.value then Step(Err(Argument(Mismatch)), [])
    else if fault == ReadFails then Step(Err(Infrastructure), [])
    else match FindByEmail(rows, email.value)
      case None => Step(Ok(Unit), [])
      case Some(user) =>
        if !TokenAccepted(user, token.value, now) then Step(Err(Unauthorized(InvalidToken)), [])
        else
          var reset := user.(passwordHash := StoredHash(h, scheme, newPassword.value),
                             resetToken := None, resetTokenExpiryTime := None, updatedAt := Some(now));
          StoredHashLength(h, scheme, newPassword.value);
          UpdateKeepingEmailAccepted(rows, user, reset);
          Persist(rows, fault, UpdateRow(reset), Unit, Infrastructure)
  }

  method Run(store: UserStore, h: Hasher, email: Option<string>, token: Option<string>,
             newPassword: Option<string>, confirm: Option<string>, key: string, now: Time) returns (r: Outcome<Unit>)
    modifies store
    ensures var s := Handle(old(store.rows), h, email, token, newPassword, confirm, HmacDigest(key), now, store.fault);
            && r == s.result
            && store.rows == ApplyAll(old(store.rows), s.writes)
            && store.log == old(store.log) + s.writes
    ensures old(store.Valid()) ==> store.Valid()
  {
    if IsNullOrWhiteSpace(email) || IsNullOrWhiteSpace(token) ||
       IsNullOrWhiteSpace(newPassword) || IsNullOrWhiteSpace(confirm) {
      return Err(Argument(MissingFields));
    }
    if newPassword.value != confirm.value {
      return Err(Argument(Mismatch));
    }
    var found := store.GetByEmail(email.value);
    if found.Err? {
      return Err(found.error);
    }
    if found.value.None? {
      return Ok(Unit);
    }
    var user := found.value.value;
    if IsNullOrWhiteSpace(user.resetToken) || user.resetToken != token ||
       user.resetTokenExpiryTime.None? || user.resetTokenExpiryTime.value <= now {
      return Err(Unauthorized(InvalidToken));
    }
    var hashed := HashPassword(h, newPassword.value, key);
    user := user.(passwordHash := hashed.hash);
    user := user.(resetToken := None);
    user := user.(resetTokenExpiryTime := None);
    user := user.(updatedAt := Some(now));
    var saved := store.Save(UpdateRow(user));
    if saved.Err? {
      return Err(saved.error);
    }
    return Ok(Unit);
  }
}
