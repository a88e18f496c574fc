/**
 * `ChangePasswordCommandHandler.Handle`: four guards in a fixed order, then
 * the stored hash is replaced by the HMAC digest of the new password.
 * `ChangePasswordRequestDto` carries nullable strings, kept here as `Option`.
 */
module ChangePassword {
  import opened Wrappers
  import opened Guids
  import opened DotNetText
  import opened Domain
  import opened Exceptions
  import opened PasswordManagement
  import opened Store

  const MissingFields := "Champs requis manquants."
  const Mismatch := "Les mots de passe ne correspondent pas."
  const UnknownUser := "Utilisateur introuvable."
  const WrongPassword := "Mot de passe actuel incorrect."

  predicate AnyBlank(current: Option<string>, newPassword: Option<string>, confirm: Option<string>) {
    IsNullOrWhiteSpace(current) || IsNullOrWhiteSpace(newPassword) || IsNullOrWhiteSpace(confirm)
  }

  /** `after` is `before` with a new password hash and `UpdatedAt = now`; the session
      and the reset pair survive the change. */
  predicate PasswordReplaced(before: User, after: User, hash: string, now: Time) {
    && SameIdentity(before, after)
    && SameSession(before, after)
    && SameReset(before, after)
    && after.passwordHash == hash
    && after.updatedAt == Some(now)
  }

  /**
   * The handler for user `userId`; `scheme` makes the stored hash of the new
   * password (`Run` passes `HmacDigest`, as the handler does).
   */
  function Handle(rows: seq<User>, h: Hasher, userId: Guid, current: Option<string>, newPassword: Option<string>,
                  confirm: Option<string>, scheme: HashScheme, now: Time, fault: StoreFault): (s: Step<Unit>)
    ensures s.result.Err? ==> s.writes == []
    ensures AnyBlank(current, newPassword, confirm) ==> s.result == Err(Argument(MissingFields))
    ensures !AnyBlank(current, newPassword, confirm) && newPassword != confirm ==>
              s.result == Err(Argument(Mismatch))
    ensures !AnyBlank(current, newPassword, confirm) && newPassword == confirm && fault != ReadFails ==>
              match FindById(rows, userId)
              case None => s.result == Err(KeyNotFound(UnknownUser))
              case Some(u) =>
                if !VerifyPassword(h, current.value, u.passwordHash) then s.result == Err(Unauthorized(WrongPassword))
                else s.result.Ok? || s.result == Err(Infrastructure)
    ensures s.result.Ok? ==>
              && !AnyBlank(current, newPassword, confirm) && newPassword == confirm
              && FindById(rows, userId).Some?
              && VerifyPassword(h, current.value, FindById(rows, userId).value.passwordHash)
              && |s.writes| == 1 && s.writes[0].UpdateRow?
              && PasswordReplaced(FindById(rows, userId).value, s.writes[0].user,
                                  StoredHash(h, scheme, newPassword.value), now)
    ensures Stored(rows) && StandardLengths(h) && fault == Healthy && !AnyBlank(current, newPassword, confirm) &&
            newPassword == confirm && FindById(rows, userId).Some? &&
            VerifyPassword(h, current.value, FindById(rows, userId).value.passwordHash) ==>
              s.result.Ok?
  {
    if AnyBlank(current, newPassword, confirm) then Step(Err(Argument(MissingFields)), [])
    else if newPassword.value != confirm.value then Step(Err(Argument(Mismatch)), [])
    else if fault == ReadFails then Step(Err(Infrastructure), [])
    else match FindById(rows, userId)
      case None => Step(Err(KeyNotFound(UnknownUser)), [])
      case Some(user) =>
        if !VerifyPassword(h, current.value, user.passwordHash) then Step(Err(Unauthorized(WrongPassword)), [])
        else
          var changed := user.(passwordHash := StoredHash(h, scheme, newPassword.value), updatedAt := Some(now));
          StoredHashLength(h, scheme, newPassword.value);
          UpdateKeepingEmailAccepted(rows, user, changed);
          Persist(rows, fault, UpdateRow(changed), Unit, Infrastructure)
  }

  method Run(store: UserStore, h: Hasher, userId: Guid, current: Option<string>, newPassword: Option<string>,
             confirm: Option<string>, key: string, now: Time) returns (r: Outcome<Unit>)
    modifies store
    ensures var s := Handle(old(store.rows), h, userId, current, newPassword, confirm, HmacDigest(key), now, store.fault);
            && r == s.result
            && store.rows == ApplyAll(old(store.rows), s.writes)
            && store.log == old(store.log) + s.writes
    ensures old(store.Valid()) ==> store.Valid()
  {
    if IsNullOrWhiteSpace(current) || IsNullOrWhiteSpace(newPassword) || IsNullOrWhiteSpace(confirm) {
      return Err(Argument(MissingFields));
    }
    if newPassword.value != confirm.value {
      return Err(Argument(Mismatch));
    }
    var found := store.GetById(userId);
    if found.Err? {
      return Err(found.error);
    }
    if found.value.None? {
      return Err(KeyNotFound(UnknownUser));
    }
    var user := found.value.value;
    if !VerifyPassword(h, current.value, user.passwordHash) {
      return Err(Unauthorized(WrongPassword));
    }
    var hashed := HashPassword(h, newPassword.value, key);
    user := user.(passwordHash := hashed.hash);
    user := user.(updatedAt := Some(now));
    var saved := store.Save(UpdateRow(user));
    if saved.Err? {
      return Err(saved.error);
    }
    return Ok(Unit);
  }
}
