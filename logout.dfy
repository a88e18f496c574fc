/**
 * `LogoutCommandHandler.Handle`: close the session of the user with the
 * given e-mail, if there is one.
 */
module Logout {
  import opened Wrappers
  import opened Domain
  import opened Exceptions
  import opened Store

  /** `after` is `before` with no session; nothing else changes, not even `UpdatedAt`. */
  predicate SessionCleared(before: User, after: User) {
    && SameIdentity(before, after)
    && after.passwordHash == before.passwordHash
    && SameReset(before, after)
    && after.updatedAt == before.updatedAt
    && after.refreshToken.None? && after.refreshTokenExpiryTime.None?
  }

  function Handle(rows: seq<User>, email: string, fault: StoreFault): (s: Step<Unit>)
    ensures s.result.Err? ==> s.result.error == Infrastructure && s.writes == []
    ensures fault != ReadFails && FindByEmail(rows, email).None? ==> s == Step(Ok(Unit), [])
    ensures FindByEmail(rows, email).Some? && s.result.Ok? ==>
              |s.writes| == 1 && s.writes[0].UpdateRow?
              && SessionCleared(FindByEmail(rows, email).value, s.writes[0].user)
    ensures Stored(rows) && fault == Healthy ==> s.result.Ok?
  {
    if fault == ReadFails then Step(Err(Infrastructure), [])
    else match FindByEmail(rows, email)
      case None => Step(Ok(Unit), [])
      case Some(user) =>
        var cleared := user.(refreshToken := None, refreshTokenExpiryTime := None);
        UpdateKeepingColumnsAccepted(rows, user, cleared);
        Persist(rows, fault, UpdateRow(cleared), Unit, Infrastructure)
  }

  method Run(store: UserStore, email: string) returns (r: Outcome<Unit>)
    modifies store
    ensures var s := Handle(old(store.rows), email, store.fault);
            && r == s.result
            && store.rows == ApplyAll(old(store.rows), s.writes)
            && store.log == old(store.log) + s.writes
    ensures old(store.Valid()) ==> store.Valid()
  {
    var found := store.GetByEmail(email);
    if found.Err? {
      return Err(found.error);
    }
    if found.value.None? {
      return Ok(Unit);
    }
    var user := found.value.value;
    user := user.(refreshToken := None);
    user := user.(refreshTokenExpiryTime := None);
    var saved := store.Save(UpdateRow(user));
    if saved.Err? {
      return Err(saved.error);
    }
    return Ok(Unit);
  }
}
