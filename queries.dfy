/**
 * The query handlers `GetUserById`, `GetUserByEmail`, `GetUserByUsername`
 * and `GetAllUsers`: a read, a mapping to a DTO, and a `catch` that wraps
 * every failure, the `KeyNotFoundException` for a missing user included, in
 * one `ApplicationException` per query. Queries only read the table.
 */
module Queries {
  import opened Wrappers
  import opened Guids
  import opened Domain
  import opened Exceptions
  import opened Store

  const ByIdFailed := "Une erreur est survenue lors de la récupération de l'utilisateur par ID."
  const ByEmailFailed := "Une erreur est survenue lors de la récupération de l'utilisateur par email."
  const ByUserNameFailed := "Une erreur est survenue lors de la récupération de l'utilisateur par nom d'utilisateur."
  const AllFailed := "Une erreur est survenue lors de la récupération des utilisateurs."

  /** The mapper writes `FirstName ?? ""`, `LastName ?? ""` and the role, `User` when unset. */
  function NameOrEmpty(s: Option<string>): string { s.GetOr("") }
  function RoleOrUser(r: Option<UserRole>): UserRole { r.GetOr(UserRole.User) }

  datatype UserByIdDto = UserByIdDto(
    id: Guid, userName: string, email: string, firstName: string, lastName: string,
    role: UserRole, createdAt: Time, updatedAt: Option<Time>)

  datatype UserByEmailDto = UserByEmailDto(
    userName: string, firstName: string, lastName: string, role: UserRole, isActive: bool,
    createdAt: Time, updatedAt: Option<Time>)

  datatype UserByUserNameDto = UserByUserNameDto(
    id: Guid, email: string, firstName: string, lastName: string, phoneNumber: Option<string>,
    role: UserRole, isActive: bool, createdAt: Time, updatedAt: Option<Time>)

  datatype UserSummaryDto = UserSummaryDto(
    userName: string, email: string, firstName: string, lastName: string, role: UserRole,
    createdAt: Time, updatedAt: Option<Time>)

  function ToByIdDto(u: User): UserByIdDto {
    UserByIdDto(u.id, u.userName, u.email, NameOrEmpty(u.firstName), NameOrEmpty(u.lastName),
                RoleOrUser(u.role), u.createdAt, u.updatedAt)
  }

  function ToByEmailDto(u: User): UserByEmailDto {
    UserByEmailDto(u.userName, NameOrEmpty(u.firstName), NameOrEmpty(u.lastName), RoleOrUser(u.role),
                   u.isActive, u.createdAt, u.updatedAt)
  }

  function ToByUserNameDto(u: User): UserByUserNameDto {
    UserByUserNameDto(u.id, u.email, NameOrEmpty(u.firstName), NameOrEmpty(u.lastName), u.phoneNumber,
                      RoleOrUser(u.role), u.isActive, u.createdAt, u.updatedAt)
  }

  function ToSummary(u: User): UserSummaryDto {
    UserSummaryDto(u.userName, u.email, NameOrEmpty(u.firstName), NameOrEmpty(u.lastName),
                   RoleOrUser(u.role), u.createdAt, u.updatedAt)
  }

  /** `GetUserByIdQueryHandler.Handle`. */
  function GetUserById(rows: seq<User>, id: Guid, fault: StoreFault): (r: Outcome<UserByIdDto>)
    ensures r.Ok? <==> fault != ReadFails && HasId(rows, id)
    ensures r.Err? ==> r.error == Application(ByIdFailed)
    ensures r.Ok? ==> exists i | 0 <= i < |rows| :: rows[i].id == id &&
                        r.value.id == id && r.value.email == rows[i].email && r.value.userName == rows[i].userName
  {
    if fault == ReadFails then Err(Application(ByIdFailed))
    else match FindById(rows, id)
      case None => Err(Application(ByIdFailed))
      case Some(u) => Ok(ToByIdDto(u))
  }

  /** `GetUserByEmailQueryHandler.Handle`. */
  function GetUserByEmail(rows: seq<User>, email: string, fault: StoreFault): (r: Outcome<UserByEmailDto>)
    ensures r.Ok? <==> fault != ReadFails && HasEmail(rows, email)
    ensures r.Err? ==> r.error == Application(ByEmailFailed)
    ensures r.Ok? ==> exists i | 0 <= i < |rows| :: rows[i].email == email && r.value.userName == rows[i].userName
  {
    if fault == ReadFails then Err(Application(ByEmailFailed))
    else match FindByEmail(rows, email)
      case None => Err(Application(ByEmailFailed))
      case Some(u) => Ok(ToByEmailDto(u))
  }

  /** `GetUserByUsernameQueryHandler.Handle`. */
  function GetUserByUsername(rows: seq<User>, userName: string, fault: StoreFault): (r: Outcome<UserByUserNameDto>)
    ensures r.Ok? <==> fault != ReadFails && exists i | 0 <= i < |rows| :: rows[i].userName == userName
    ensures r.Err? ==> r.error == Application(ByUserNameFailed)
    ensures r.Ok? ==> exists i | 0 <= i < |rows| :: rows[i].userName == userName && r.value.email == rows[i].email
  {
    if fault == ReadFails then Err(Application(ByUserNameFailed))
    else match FindByUserName(rows, userName)
      case None => Err(Application(ByUserNameFailed))
      case Some(u) => Ok(ToByUserNameDto(u))
  }

  /** `_mapper.Map<List<GetAllUsersDto>>(users)`: one DTO per row, in row order. */
  function Summaries(rows: seq<User>): (dtos: seq<UserSummaryDto>)
    ensures |dtos| == |rows|
    ensures forall i | 0 <= i < |rows| :: dtos[i].email == rows[i].email && dtos[i].userName == rows[i].userName
  {
    if rows == [] then [] else [ToSummary(rows[0])] + Summaries(rows[1..])
  }

  /** `GetAllUsersQueryHandler.Handle`. */
  function GetAllUsers(rows: seq<User>, fault: StoreFault): (r: Outcome<seq<UserSummaryDto>>)
    ensures r.Ok? <==> fault != ReadFails
    ensures r.Err? ==> r.error == Application(AllFailed)
    ensures r.Ok? ==> |r.value| == |rows|
    ensures r.Ok? ==> forall i | 0 <= i < |rows| ::
              r.value[i].email == rows[i].email && r.value[i].userName == rows[i].userName
  {
    if fault == ReadFails then Err(Application(AllFailed)) else Ok(Summaries(rows))
  }

  /** Under unique keys, the user found by id is the one whose e-mail the by-e-mail query reports. */
  lemma QueriesAgree(rows: seq<User>, u: User, fault: StoreFault)
    requires UniqueKeys(rows) && u in rows && fault != ReadFails
    ensures GetUserById(rows, u.id, fault) == Ok(ToByIdDto(u))
    ensures GetUserByEmail(rows, u.email, fault) == Ok(ToByEmailDto(u))
  {
    FindByIdIn(rows, u);
    FindByEmailIn(rows, u);
  }
}
