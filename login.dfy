/**
 * `LoginCommandHandler.Handle`: check the credentials, issue an access token
 * and a refresh token, and persist the refresh token with a 7-day expiry on
 * the row re-read by id.
 */
module Login {
  import opened Wrappers
  import opened Domain
  import opened Exceptions
  import opened PasswordManagement
  import opened Store

  const BadCredentials := "Nom d'utilisateur ou mot de passe incorrect."
  const LoginFailed := "Une erreur est survenue lors de la tentative de connexion."

  /** `LoginResponseDto`. */
  datatype LoginResponse = LoginResponse(accessToken: string, refreshToken: string)

  /** A user has the e-mail and the password verifies against their stored hash. */
  predicate CredentialsMatch(rows: seq<User>, h: Hasher, email: string, password: string) {
    FindByEmail(rows, email).Some? && VerifyPassword(h, password, FindByEmail(rows, email).value.passwordHash)
  }

  /** `after` is `before` with a new session: the refresh token and its expiry are
      set and every other field, `UpdatedAt` included, is kept. */
  predicate SessionIssued(before: User, after: User, token: string, expiry: Time) {
    && SameIdentity(before, after)
    && after.passwordHash == before.passwordHash
    && SameReset(before, after)
    && after.updatedAt == before.updatedAt
    && after.refreshToken == Some(token)
    && after.refreshTokenExpiryTime == Some(expiry)
  }

  /**
   * The handler on the table `rows`. `accessToken` and `refreshToken` are the
   * values the token service generates; `now` is `DateTime.UtcNow`.
   */
  function Handle(rows: seq<User>, h: Hasher, email: string, password: string,
                  accessToken: string, refreshToken: string, now: Time, fault: StoreFault): (s: Step<LoginResponse>)
    ensures s.result.Err? ==> s.writes == []
    ensures s.result.Err? ==> s.result.error in {Unauthorized(BadCredentials), Application(LoginFailed)}
    ensures s.result == Err(Unauthorized(BadCredentials)) <==>
              fault != ReadFails && !CredentialsMatch(rows, h, email, password)
    ensures s.result.Ok? ==>
              && CredentialsMatch(rows, h, email, password)
              && s.result.value == LoginResponse(accessToken, refreshToken)
              && |s.writes| == 1 && s.writes[0].UpdateRow?
              && s.writes[0].user.refreshToken == Some(s.result.value.refreshToken)
    ensures UniqueKeys(rows) && s.result.Ok? ==>
              SessionIssued(FindByEmail(rows, email).value, s.writes[0].user, refreshToken, now + RefreshTokenLifetime)
    ensures Stored(rows) && fault == Healthy && CredentialsMatch(rows, h, email, password) ==> s.result.Ok?
  {
    if fault == ReadFails then Step(Err(Application(LoginFailed)), [])
    else match FindByEmail(rows, email)
      case None => Step(Err(Unauthorized(BadCredentials)), [])
      case Some(user) =>
        if !VerifyPassword(h, password, user.passwordHash) then Step(Err(Unauthorized(BadCredentials)), [])
        else match FindById(rows, user.id)
          case None => Step(Err(Application(LoginFailed)), [])
          case Some(tracked) =>
            var updated := tracked.(refreshToken := Some(refreshToken),
                                    refreshTokenExpiryTime := Some(now + RefreshTokenLifetime));
            FindByIdIn(rows, user);
            UpdateKeepingColumnsAccepted(rows, tracked, updated);
            Persist(rows, fault, UpdateRow(updated), LoginResponse(accessToken, refreshToken), Application(LoginFailed))
  }

  /** The handler against the repository: two reads, then at most one `Update`. */
  method Run(store: UserStore, h: Hasher, email: string, password: string,
             accessToken: string, refreshToken: string, now: Time) returns (r: Outcome<LoginResponse>)
    modifies store
    ensures var s := Handle(old(store.rows), h, email, password, accessToken, refreshToken, now, store.fault);
            && r == s.result
            && store.rows == ApplyAll(old(store.rows), s.writes)
            && store.log == old(store.log) + s.writes
    ensures old(store.Valid()) ==> store.Valid()
  {
    var byEmail := store.GetByEmail(email);
    if byEmail.Err? {
      return Err(Application(LoginFailed));
    }
    var user := byEmail.value;
    if user.None? || !VerifyPassword(h, password, user.value.passwordHash) {
      return Err(Unauthorized(BadCredentials));
    }
    var byId := store.GetById(user.value.id);
    if byId.Err? || byId.value.None? {
      return Err(Application(LoginFailed));
    }
    var tracked := byId.value.value;
    tracked := tracked.(refreshToken := Some(refreshToken));
    tracked := tracked.(refreshTokenExpiryTime := Some(now + RefreshTokenLifetime));
    var saved := store.Save(UpdateRow(tracked));
    if saved.Err? {
      return Err(Application(LoginFailed));
    }
    return Ok(LoginResponse(accessToken, refreshToken));
  }
}
