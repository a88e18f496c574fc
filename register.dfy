/**
 * `RegisterCommandHandler.Handle`: refuse an e-mail already in use, otherwise
 * create the user with an Identity password hash and insert it. The e-mail
 * lookup sits before the `try`, so its failure is not wrapped.
 */
module Register {
  import opened Wrappers
  import opened Guids
  import opened Domain
  import opened Exceptions
  import opened PasswordManagement
  import opened Store

  const RegisterFailed := "Une erreur est survenue lors de l'enregistrement de l'utilisateur."

  function AlreadyTaken(email: string): string {
    "Le nom d'utilisateur " + email + " est déjà pris."
  }

  /** `RegisterRequestDto`. The handler never reads `ConfirmPassword`. */
  datatype RegisterRequest = RegisterRequest(userName: string, email: string, password: string, confirmPassword: string)

  /** `RegisterResponseDto`, mapped from the inserted user. */
  datatype RegisterResponse = RegisterResponse(
    id: Guid, email: string, userName: string,
    firstName: Option<string>, lastName: Option<string>, role: Option<UserRole>, createdAt: Time)

  function ResponseOf(u: User): (r: RegisterResponse)
    ensures r.id == u.id && r.email == u.email && r.userName == u.userName && r.role == u.role
  {
    RegisterResponse(u.id, u.email, u.userName, u.firstName, u.lastName, u.role, u.createdAt)
  }

  /**
   * The handler; `newId` and `now` are the key and the timestamp the database
   * assigns, `salt` the salt Identity's hasher draws.
   */
  function Handle(rows: seq<User>, h: Hasher, request: RegisterRequest, newId: Guid, salt: string,
                  now: Time, fault: StoreFault): (s: Step<RegisterResponse>)
    ensures s.result.Err? ==> s.writes == []
    ensures fault != ReadFails && FindByEmail(rows, request.email).Some? ==>
              s.result == Err(Application(AlreadyTaken(request.email)))
    ensures s.result.Err? && s.result != Err(Application(AlreadyTaken(request.email))) ==>
              s.result.error in {Infrastructure, Application(RegisterFailed)}
    ensures s.result.Ok? ==>
              && FindByEmail(rows, request.email).None?
              && |s.writes| == 1 && s.writes[0].InsertRow?
              && s.writes[0].user == NewUser(newId, now, request.userName, request.email, h.identityHash(request.password, salt))
              && s.result.value.email == request.email && s.result.value.userName == request.userName
              && s.result.value.id == newId
              && ApplyAll(rows, s.writes) == rows + [s.writes[0].user]
    ensures fault == Healthy && FindByEmail(rows, request.email).None? && !HasId(rows, newId) &&
            StandardLengths(h) && |request.userName| <= UserNameWidth && |request.email| <= EmailWidth ==>
              s.result.Ok?
    ensures |request.userName| > UserNameWidth || |request.email| > EmailWidth ==> s.result.Err? && s.writes == []
  {
    if fault == ReadFails then Step(Err(Infrastructure), [])
    else match FindByEmail(rows, request.email)
      case Some(_) => Step(Err(Application(AlreadyTaken(request.email))), [])
      case None =>
        var user := NewUser(newId, now, request.userName, request.email, h.identityHash(request.password, salt));
        StoredHashLength(h, IdentityHash(salt), request.password);
        Persist(rows, fault, InsertRow(user), ResponseOf(user), Application(RegisterFailed))
  }

  method Run(store: UserStore, h: Hasher, request: RegisterRequest, newId: Guid, salt: string, now: Time)
    returns (r: Outcome<RegisterResponse>)
    modifies store
    ensures var s := Handle(old(store.rows), h, request, newId, salt, now, store.fault);
            && r == s.result
            && store.rows == ApplyAll(old(store.rows), s.writes)
            && store.log == old(store.log) + s.writes
    ensures old(store.Valid()) ==> store.Valid()
  {
    var existing := store.GetByEmail(request.email);
    if existing.Err? {
      return Err(existing.error);
    }
    if existing.value.Some? {
      return Err(Application(AlreadyTaken(request.email)));
    }
    var user := NewUser(newId, now, request.userName, request.email, "");
    user := user.(passwordHash := h.identityHash(request.password, salt));
    var saved := store.Save(InsertRow(user));
    if saved.Err? {
      return Err(Application(RegisterFailed));
    }
    return Ok(ResponseOf(user));
  }
}
