/**
 * `AuthController`: the exception-to-response mapping, the `ExecuteAsync`
 * wrapper every endpoint goes through, and the endpoints that do more than
 * forward a command: `Refresh` and `ChangePassword` (guards before the
 * handler) and `ForgotPassword` (a neutral answer).
 */
module AuthController {
  import opened Wrappers
  import opened Guids
  import opened DotNetText
  import opened Domain
  import opened Exceptions
  import opened PasswordManagement
  import opened Store
  import RefreshToken
  import ChangePassword
  import ForgotPassword

  /** The body of a response: an `ApiError`, an anonymous `{ message }`, or a DTO. */
  datatype Body<T> = ErrorBody(message: string, errorCode: string) | MessageBody(message: string) | Payload(value: T)

  datatype ApiResponse<T> = ApiResponse(status: int, body: Body<T>)

  const WeakPasswordMessage := "Mot de passe trop faible. Utilisez au moins 8 caractères avec une majuscule, une minuscule, un chiffre et un caractère spécial."
  const UnauthorizedMessage := "Accès non autorisé. Veuillez vous authentifier puis réessayer."
  const NotFoundMessage := "Ressource introuvable."
  const InternalMessage := "Une erreur technique est survenue. Veuillez réessayer plus tard."
  const RefreshRequiredMessage := "Le jeton de rafraîchissement (refresh token) est requis."
  const InvalidSessionMessage := "Session invalide. Veuillez vous reconnecter."
  const PasswordChangedMessage := "Mot de passe mis à jour avec succès."
  const ResetRequestedMessage := "Si un compte existe pour cet e-mail, un message de réinitialisation a été envoyé."

  /**
   * `MapExceptionToResponse`: the arms of the `switch` are tried in order, so
   * `WeakPasswordException` is caught by its own arm before the
   * `ApplicationException` arm it also matches.
   */
  function MapExceptionToResponse<T>(e: Exn): (r: ApiResponse<T>)
    ensures e.WeakPassword? <==> r.body == ErrorBody(WeakPasswordMessage, "WEAK_PASSWORD")
    ensures e.WeakPassword? ==> r.status == 400
    ensures e.Unauthorized? <==> r == ApiResponse(401, ErrorBody(UnauthorizedMessage, "AUTH_UNAUTHORIZED"))
    ensures e.KeyNotFound? <==> r == ApiResponse(404, ErrorBody(NotFoundMessage, "NOT_FOUND"))
    ensures e.Application? <==> r == ApiResponse(400, ErrorBody(Message(e), "BUSINESS_RULE"))
    ensures !IsApplicationException(e) && !e.Unauthorized? && !e.KeyNotFound? <==>
              r == ApiResponse(500, ErrorBody(InternalMessage, "INTERNAL_ERROR"))
  {
    if e.WeakPassword? then ApiResponse(400, ErrorBody(WeakPasswordMessage, "WEAK_PASSWORD"))
    else if e.Unauthorized? then ApiResponse(401, ErrorBody(UnauthorizedMessage, "AUTH_UNAUTHORIZED"))
    else if e.KeyNotFound? then ApiResponse(404, ErrorBody(NotFoundMessage, "NOT_FOUND"))
    else if IsApplicationException(e) then ApiResponse(400, ErrorBody(Message(e), "BUSINESS_RULE"))
    else ApiResponse(500, ErrorBody(InternalMessage, "INTERNAL_ERROR"))
  }

  /** `ExecuteAsync`: the action's own response, or the mapped response of the exception it threw. */
  function Execute<T, U>(outcome: Outcome<T>, respond: T -> ApiResponse<U>): (r: ApiResponse<U>)
    ensures outcome.Ok? ==> r == respond(outcome.value)
    ensures outcome.Err? ==> r == MapExceptionToResponse(outcome.error) && r.status in {400, 401, 404, 500}
    ensures outcome.Err? ==> r.body.ErrorBody?
  {
    match outcome
    case Ok(v) => respond(v)
    case Err(e) => MapExceptionToResponse(e)
  }

  function OkPayload<T>(v: T): ApiResponse<T> { ApiResponse(200, Payload(v)) }

  /** A response and the writes the request committed. */
  datatype Reply<T> = Reply(response: ApiResponse<T>, writes: seq<Write>)

  /** `RefreshTokenRequestDto`: the user id and the presented refresh token. */
  datatype RefreshRequest = RefreshRequest(id: Guid, refreshToken: Option<string>)

  /** `POST refresh`: a missing body or a blank token is answered 400 without calling the handler. */
  function Refresh(rows: seq<User>, body: Option<RefreshRequest>, at: string, rt: string, now: Time,
                   fault: StoreFault): (r: Reply<RefreshToken.RefreshResponse>)
    ensures body.None? || IsNullOrWhiteSpace(body.value.refreshToken) ==>
              r == Reply(ApiResponse(400, ErrorBody(RefreshRequiredMessage, "REFRESH_TOKEN_REQUIRED")), [])
    ensures body.Some? && !IsNullOrWhiteSpace(body.value.refreshToken) ==>
              var s := RefreshToken.Handle(rows, body.value.id, body.value.refreshToken, at, rt, now, fault);
              && r.writes == s.writes
              && (s.result.Ok? ==> r.response == ApiResponse(200, Payload(s.result.value)))
              && (s.result.Err? ==> r.response == MapExceptionToResponse(s.result.error))
  {
    if body.None? || IsNullOrWhiteSpace(body.value.refreshToken) then
      Reply(ApiResponse(400, ErrorBody(RefreshRequiredMessage, "REFRESH_TOKEN_REQUIRED")), [])
    else
      var s := RefreshToken.Handle(rows, body.value.id, body.value.refreshToken, at, rt, now, fault);
      Reply(Execute(s.result, OkPayload), s.writes)
  }

  /** `ChangePasswordRequestDto`. */
  datatype ChangePasswordRequest = ChangePasswordRequest(current: Option<string>, newPassword: Option<string>,
                                                         confirm: Option<string>)

  /**
   * `POST change-password`: the user id comes from the `NameIdentifier` claim of
   * the caller's token; a claim that does not parse as a `Guid` is answered 401
   * without calling the handler.
   */
  function ChangePasswordEndpoint(rows: seq<User>, h: Hasher, claim: Option<string>, dto: ChangePasswordRequest,
                                  key: string, now: Time, fault: StoreFault): (r: Reply<()>)
    ensures TryParse(claim).None? ==>
              r == Reply(ApiResponse(401, ErrorBody(InvalidSessionMessage, "INVALID_SESSION")), [])
    ensures TryParse(claim).Some? ==>
              var s := ChangePassword.Handle(rows, h, TryParse(claim).value, dto.current, dto.newPassword,
                                             dto.confirm, HmacDigest(key), now, fault);
              && r.writes == s.writes
              && (s.result.Ok? ==> r.response == ApiResponse(200, MessageBody(PasswordChangedMessage)))
              && (s.result.Err? ==> r.response == MapExceptionToResponse(s.result.error))
  {
    match TryParse(claim)
    case None => Reply(ApiResponse(401, ErrorBody(InvalidSessionMessage, "INVALID_SESSION")), [])
    case Some(userId) =>
      var s := ChangePassword.Handle(rows, h, userId, dto.current, dto.newPassword, dto.confirm, HmacDigest(key), now, fault);
      Reply(Execute(s.result, (_: Unit) => ApiResponse(200, MessageBody(PasswordChangedMessage))), s.writes)
  }

  /** `POST forgot-password`: the same neutral message whether or not the e-mail has an account. */
  function ForgotPasswordEndpoint(rows: seq<User>, email: Option<string>, token: string, now: Time,
                                  fault: StoreFault): (r: Reply<()>)
    ensures var s := ForgotPassword.Handle(rows, email, token, now, fault);
            && r.writes == s.writes
            && (s.result.Ok? ==> r.response == ApiResponse(200, MessageBody(ResetRequestedMessage)))
            && (s.result.Err? ==> r.response == MapExceptionToResponse(s.result.error))
  {
    var s := ForgotPassword.Handle(rows, email, token, now, fault);
    Reply(Execute(s.result, (_: Unit) => ApiResponse(200, MessageBody(ResetRequestedMessage))), s.writes)
  }

  // ---- Properties ----

  /** `WeakPasswordException` is an `ApplicationException`, yet it gets its own code. */
  lemma WeakPasswordBeforeBusinessRule()
    ensures IsApplicationException(WeakPassword)
    ensures MapExceptionToResponse<()>(WeakPassword).body.errorCode == "WEAK_PASSWORD"
    ensures MapExceptionToResponse<()>(Application(Message(WeakPassword))).body.errorCode == "BUSINESS_RULE"
  {
  }

  /** The `ArgumentException` of the password guards is not an `ApplicationException`:
      a request with a blank field is answered 500. */
  lemma {:induction false} BlankPasswordFieldIsInternalError(rows: seq<User>, h: Hasher, g: Guid, dto: ChangePasswordRequest,
                                                             key: string, now: Time, fault: StoreFault)
    requires ChangePassword.AnyBlank(dto.current, dto.newPassword, dto.confirm)
    ensures ChangePasswordEndpoint(rows, h, Some(Format(g)), dto, key, now, fault).response ==
              ApiResponse(500, ErrorBody(InternalMessage, "INTERNAL_ERROR"))
  {
    TryParseFormat(g);
  }

  /** A session claim written in the standard layout reaches the handler with that user's id. */
  lemma {:induction false} FormattedClaimReachesHandler(rows: seq<User>, h: Hasher, g: Guid, dto: ChangePasswordRequest,
                                                        key: string, now: Time, fault: StoreFault)
    ensures ChangePasswordEndpoint(rows, h, Some(Format(g)), dto, key, now, fault).writes ==
              ChangePassword.Handle(rows, h, g, dto.current, dto.newPassword, dto.confirm, HmacDigest(key), now, fault).writes
  {
    TryParseFormat(g);
  }

  /** A missing claim is refused without touching the table. */
  lemma MissingClaimRefused(rows: seq<User>, h: Hasher, dto: ChangePasswordRequest, key: string, now: Time, fault: StoreFault)
    ensures ChangePasswordEndpoint(rows, h, None, dto, key, now, fault).response.status == 401
    ensures ChangePasswordEndpoint(rows, h, None, dto, key, now, fault).writes == []
  {
  }

  /** Forgot-password gives the same HTTP answer for an e-mail with an account and one without. */
  lemma {:induction false} ForgotPasswordDoesNotRevealAccounts(rows: seq<User>, known: string, unknown: string,
                                                               t1: string, t2: string, now: Time)
    requires Stored(rows) && !IsBlank(known) && !IsBlank(unknown)
    requires FindByEmail(rows, known).Some? && FindByEmail(rows, unknown).None?
    ensures ForgotPasswordEndpoint(rows, Some(known), t1, now, Healthy).response ==
            ForgotPasswordEndpoint(rows, Some(unknown), t2, now, Healthy).response
    ensures ForgotPasswordEndpoint(rows, Some(unknown), t2, now, Healthy).writes == []
  {
  }
}
