/**
 * `UpdateProfileCommandHandler.Handle`: copy the profile fields of the DTO
 * onto the stored user. A missing user is reported as `KeyNotFoundException`;
 * every other failure is wrapped.
 */
module UpdateProfile {
  import opened Wrappers
  import opened Guids
  import opened Domain
  import opened Exceptions
  import opened Store

  const UpdateFailed := "An error occurred while updating the user profile."

  /** The `{id}` interpolation formats the `Guid` in its default "D" layout. */
  function NotFound(id: Guid): string {
    "User with ID " + Format(id) + " not found."
  }

  /** `UpdateProfileDto`: the target id and the profile fields copied onto the user. */
  datatype ProfileDto = ProfileDto(id: Guid, userName: string, firstName: Option<string>,
                                   lastName: Option<string>, phoneNumber: Option<string>)

  /** `after` carries the DTO's profile fields; its key, e-mail, credentials,
      session, reset pair, flags and timestamps are `before`'s. */
  predicate ProfileCopied(before: User, after: User, dto: ProfileDto) {
    && after.userName == dto.userName && after.firstName == dto.firstName
    && after.lastName == dto.lastName && after.phoneNumber == dto.phoneNumber
    && after.id == before.id && after.email == before.email && after.createdAt == before.createdAt
    && after.updatedAt == before.updatedAt && after.role == before.role
    && after.isEmailConfirmed == before.isEmailConfirmed && after.isActive == before.isActive
    && after.isLocked == before.isLocked && after.lockoutEnd == before.lockoutEnd
    && after.passwordHash == before.passwordHash
    && SameSession(before, after) && SameReset(before, after)
  }

  /** The DTO's fields that land in bounded columns are within their widths.
      (The DTO's own `[StringLength(256)]` on `UserName` is wider than the column.) */
  predicate FitsProfileColumns(dto: ProfileDto) {
    && |dto.userName| <= UserNameWidth
    && FitsWidth(dto.firstName, PersonNameWidth) && FitsWidth(dto.lastName, PersonNameWidth)
  }

  function Handle(rows: seq<User>, dto: ProfileDto, fault: StoreFault): (s: Step<Unit>)
    ensures s.result.Err? ==> s.writes == []
    ensures fault != ReadFails && FindById(rows, dto.id).None? ==> s.result == Err(KeyNotFound(NotFound(dto.id)))
    ensures s.result.Err? && !s.result.error.KeyNotFound? ==> s.result.error == Application(UpdateFailed)
    ensures s.result.Ok? ==>
              && FindById(rows, dto.id).Some?
              && |s.writes| == 1 && s.writes[0].UpdateRow?
              && ProfileCopied(FindById(rows, dto.id).value, s.writes[0].user, dto)
    ensures Stored(rows) && fault == Healthy && FindById(rows, dto.id).Some? && FitsProfileColumns(dto) ==> s.result.Ok?
    ensures !FitsProfileColumns(dto) ==> s.result.Err? && s.writes == []
  {
    if fault == ReadFails then Step(Err(Application(UpdateFailed)), [])
    else match FindById(rows, dto.id)
      case None => Step(Err(KeyNotFound(NotFound(dto.id))), [])
      case Some(user) =>
        var mapped := user.(userName := dto.userName, firstName := dto.firstName,
                            lastName := dto.lastName, phoneNumber := dto.phoneNumber);
        UpdateKeepingEmailAccepted(rows, user, mapped);
        Persist(rows, fault, UpdateRow(mapped), Unit, Application(UpdateFailed))
  }

  method Run(store: UserStore, dto: ProfileDto) returns (r: Outcome<Unit>)
    modifies store
    ensures var s := Handle(old(store.rows), dto, store.fault);
            && r == s.result
            && store.rows == ApplyAll(old(store.rows), s.writes)
            && store.log == old(store.log) + s.writes
    ensures old(store.Valid()) ==> store.Valid()
  {
    var found := store.GetById(dto.id);
    if found.Err? {
      return Err(Application(UpdateFailed));
    }
    if found.value.None? {
      return Err(KeyNotFound(NotFound(dto.id)));
    }
    var user := found.value.value;
    user := user.(userName := dto.userName, firstName := dto.firstName);
    user := user.(lastName := dto.lastName, phoneNumber := dto.phoneNumber);
    var saved := store.Save(UpdateRow(user));
    if saved.Err? {
      return Err(Application(UpdateFailed));
    }
    return Ok(Unit);
  }
}
