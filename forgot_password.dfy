/**
 * `ForgotPasswordCommandHandler.Handle`: give the user with the e-mail a
 * fresh reset token valid for 15 minutes; an unknown e-mail is answered the
 * same way, without any write.
 */
module ForgotPassword {
  import opened Wrappers
  import opened DotNetText
  import opened Domain
  import opened Exceptions
  import opened Store

  const EmailRequired := "Email requis."

  /** `after` is `before` with the reset pair set to `token` for 15 minutes and
      `UpdatedAt = now`; the password and the session are kept. */
  predicate ResetIssued(before: User, after: User, token: string, now: Time) {
    && SameIdentity(before, after)
    && after.passwordHash == before.passwordHash
    && SameSession(before, after)
    && after.resetToken == Some(token)
    && after.resetTokenExpiryTime == Some(now + ResetTokenLifetime)
    && after.updatedAt == Some(now)
  }

  /** The handler for the request e-mail `email`; `resetToken` is the generated token. */
  function Handle(rows: seq<User>, email: Option<string>, resetToken: string, now: Time, fault: StoreFault): (s: Step<Unit>)
    ensures s.result.Err? ==> s.writes == []
    ensures IsNullOrWhiteSpace(email) ==> s.result == Err(Argument(EmailRequired))
    ensures s.result.Err? && s.result != Err(Argument(EmailRequired)) ==> s.result == Err(Infrastructure)
    ensures !IsNullOrWhiteSpace(email) && fault != ReadFails && FindByEmail(rows, email.value).None? ==>
              s == Step(Ok(Unit), [])
    ensures !IsNullOrWhiteSpace(email) && FindByEmail(rows, email.value).Some? && s.result.Ok? ==>
              |s.writes| == 1 && s.writes[0].UpdateRow?
              && ResetIssued(FindByEmail(rows, email.value).value, s.writes[0].user, resetToken, now)
    ensures Stored(rows) && fault == Healthy && !IsNullOrWhiteSpace(email) ==> s.result.Ok?
  {
    if IsNullOrWhiteSpace(email) then Step(Err(Argument(EmailRequired)), [])
    else if fault == ReadFails then Step(Err(Infrastructure), [])
    else match FindByEmail(rows, email.value)
      case None => Step(Ok(Unit), [])
      case Some(user) =>
        var issued := user.(resetToken := Some(resetToken),
                            resetTokenExpiryTime := Some(now + ResetTokenLifetime),
                            updatedAt := Some(now));
        UpdateKeepingColumnsAccepted(rows, user, issued);
        Persist(rows, fault, UpdateRow(issued), Unit, Infrastructure)
  }

  method Run(store: UserStore, email: Option<string>, resetToken: string, now: Time) returns (r: Outcome<Unit>)
    modifies store
    ensures var s := Handle(old(store.rows), email, resetToken, now, store.fault);
            && r == s.result
            && store.rows == ApplyAll(old(store.rows), s.writes)
            && store.log == old(store.log) + s.writes
    ensures old(store.Valid()) ==> store.Valid()
  {
    if IsNullOrWhiteSpace(email) {
      return Err(Argument(EmailRequired));
    }
    var found := store.GetByEmail(email.value);
    if found.Err? {
      return Err(found.error);
    }
    if found.value.None? {
      return Ok(Unit);
    }
    var user := found.value.value;
    user := user.(resetToken := Some(resetToken));
    user := user.(resetTokenExpiryTime := Some(now + ResetTokenLifetime));
    user := user.(updatedAt := Some(now));
    var saved := store.Save(UpdateRow(user));
    if saved.Err? {
      return Err(saved.error);
    }
    return Ok(Unit);
  }
}
