/**
 * `RefreshTokenCommandHandler.Handle`: check that a refresh token was
 * presented and that the user's stored session has not expired, then rotate
 * the session. The handler has no `try`: a database failure propagates as is.
 */
module RefreshToken {
  import opened Wrappers
  import opened Guids
  import opened DotNetText
  import opened Domain
  import opened Exceptions
  import opened Store

  const Missing := "Refresh token manquant."
  const Invalid := "Refresh token invalide."
  const Expired := "Refresh token expiré."

  /** `RefreshTokenResponseDto`. */
  datatype RefreshResponse = RefreshResponse(accessToken: string, refreshToken: string)

  /** The stored session of `u` is still open at `now`. */
  predicate Unexpired(u: User, now: Time) {
    u.refreshTokenExpiryTime.Some? && u.refreshTokenExpiryTime.value > now
  }

  /** `after` is `before` with its session replaced by `token`, a new 7-day expiry
      and `UpdatedAt = now`; the credentials, the reset pair and the profile are kept. */
  predicate Rotated(before: User, after: User, token: string, now: Time) {
    && SameIdentity(before, after)
    && after.passwordHash == before.passwordHash
    && SameReset(before, after)
    && after.refreshToken == Some(token)
    && after.refreshTokenExpiryTime == Some(now + RefreshTokenLifetime)
    && after.updatedAt == Some(now)
  }

  /**
   * The handler for the request `{ Id: id, RefreshToken: presented }`;
   * `accessToken` and `newRefreshToken` are the generated tokens.
   */
  function Handle(rows: seq<User>, id: Guid, presented: Option<string>,
                  accessToken: string, newRefreshToken: string, now: Time, fault: StoreFault): (s: Step<RefreshResponse>)
    ensures s.result.Err? ==> s.writes == []
    ensures IsNullOrWhiteSpace(presented) ==> s.result == Err(Unauthorized(Missing))
    ensures !IsNullOrWhiteSpace(presented) && fault != ReadFails && FindById(rows, id).None? ==>
              s.result == Err(Unauthorized(Invalid))
    ensures !IsNullOrWhiteSpace(presented) && fault != ReadFails && FindById(rows, id).Some? &&
            !Unexpired(FindById(rows, id).value, now) ==>
              s.result == Err(Unauthorized(Expired))
    ensures s.result.Err? && !s.result.error.Unauthorized? ==> s.result.error == Infrastructure
    ensures s.result.Ok? ==>
              && !IsNullOrWhiteSpace(presented)
              && FindById(rows, id).Some? && Unexpired(FindById(rows, id).value, now)
              && s.result.value == RefreshResponse(accessToken, newRefreshToken)
              && |s.writes| == 1 && s.writes[0].UpdateRow?
              && Rotated(FindById(rows, id).value, s.writes[0].user, newRefreshToken, now)
              && s.writes[0].user.refreshToken == Some(s.result.value.refreshToken)
    ensures Stored(rows) && fault == Healthy && !IsNullOrWhiteSpace(presented) &&
            FindById(rows, id).Some? && Unexpired(FindById(rows, id).value, now) ==>
              s.result.Ok?
  {
    if IsNullOrWhiteSpace(presented) then Step(Err(Unauthorized(Missing)), [])
    else if fault == ReadFails then Step(Err(Infrastructure), [])
    else match FindById(rows, id)
      case None => Step(Err(Unauthorized(Invalid)), [])
      case Some(user) =>
        if !Unexpired(user, now) then Step(Err(Unauthorized(Expired)), [])
        else
          var rotated := user.(refreshToken := Some(newRefreshToken),
                               refreshTokenExpiryTime := Some(now + RefreshTokenLifetime),
                               updatedAt := Some(now));
          UpdateKeepingColumnsAccepted(rows, user, rotated);
          Persist(rows, fault, UpdateRow(rotated), RefreshResponse(accessToken, newRefreshToken), Infrastructure)
  }

  /**
   * Corrected: the same guards, and before rotating, the presented token must
   * be the one stored for the user (ordinal comparison); a different one is
   * refused as invalid and nothing is written.
   */
  function HandleChecked(rows: seq<User>, id: Guid, presented: Option<string>,
                         accessToken: string, newRefreshToken: string, now: Time, fault: StoreFault)
    : (s: Step<RefreshResponse>)
    ensures s.result.Ok? ==> FindById(rows, id).Some? && FindById(rows, id).value.refreshToken == presented
    ensures !IsNullOrWhiteSpace(presented) && fault != ReadFails && FindById(rows, id).Some? &&
            Unexpired(FindById(rows, id).value, now) && FindById(rows, id).value.refreshToken != presented ==>
              s == Step(Err(Unauthorized(Invalid)), [])
    ensures FindById(rows, id).Some? && FindById(rows, id).value.refreshToken == presented ==>
              s == Handle(rows, id, presented, accessToken, newRefreshToken, now, fault)
  {
    if !IsNullOrWhiteSpace(presented) && fault != ReadFails && FindById(rows, id).Some? &&
       Unexpired(FindById(rows, id).value, now) && FindById(rows, id).value.refreshToken != presented
    then Step(Err(Unauthorized(Invalid)), [])
    else Handle(rows, id, presented, accessToken, newRefreshToken, now, fault)
  }

  method Run(store: UserStore, id: Guid, presented: Option<string>,
             accessToken: string, newRefreshToken: string, now: Time) returns (r: Outcome<RefreshResponse>)
    modifies store
    ensures var s := Handle(old(store.rows), id, presented, accessToken, newRefreshToken, now, store.fault);
            && r == s.result
            && store.rows == ApplyAll(old(store.rows), s.writes)
            && store.log == old(store.log) + s.writes
    ensures old(store.Valid()) ==> store.Valid()
  {
    if IsNullOrWhiteSpace(presented) {
      return Err(Unauthorized(Missing));
    }
    var found := store.GetById(id);
    if found.Err? {
      return Err(found.error);
    }
    if found.value.None? {
      return Err(Unauthorized(Invalid));
    }
    var user := found.value.value;
    if user.refreshTokenExpiryTime.None? || user.refreshTokenExpiryTime.value <= now {
      return Err(Unauthorized(Expired));
    }
    user := user.(refreshToken := Some(newRefreshToken));
    user := user.(refreshTokenExpiryTime := Some(now + RefreshTokenLifetime));
    user := user.(updatedAt := Some(now));
    var saved := store.Save(UpdateRow(user));
    if saved.Err? {
      return Err(saved.error);
    }
    return Ok(RefreshResponse(accessToken, newRefreshToken));
  }
}
