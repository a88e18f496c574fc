/**
 * The `User` entity (with the `Id`, `CreatedAt` and `UpdatedAt` it inherits
 * from `BaseEntity`) and the `UserRole` enumeration.
 *
 * Timestamps are `DateTime` values counted in 100-nanosecond ticks, the unit
 * of `DateTime.Ticks`; the handlers receive the current time as a parameter.
 */
module Domain {
  import opened Wrappers
  import opened Guids

  type Time = int

  const TicksPerMinute: int := 600_000_000
  const TicksPerDay: int := 1440 * TicksPerMinute

  /** `DateTime.UtcNow.AddDays(7)`: lifetime of a refresh token. */
  const RefreshTokenLifetime: int := 7 * TicksPerDay
  /** `DateTime.UtcNow.AddMinutes(15)`: lifetime of a password-reset token. */
  const ResetTokenLifetime: int := 15 * TicksPerMinute

  /** `UserRole { Admin, User }`; the client sees them as 0 and 1. */
  datatype UserRole = Admin | User

  /** One stored user. Each token and its expiry are separate nullable columns:
      nothing ties a token to its expiry, and the model allows every combination. */
  datatype User = User(
    id: Guid,
    createdAt: Time,
    updatedAt: Option<Time>,
    userName: string,
    firstName: Option<string>,
    lastName: Option<string>,
    email: string,
    passwordHash: string,
    role: Option<UserRole>,
    isEmailConfirmed: bool,
    phoneNumber: Option<string>,
    isActive: bool,
    isLocked: bool,
    lockoutEnd: Option<Time>,
    refreshToken: Option<string>,
    refreshTokenExpiryTime: Option<Time>,
    resetToken: Option<string>,
    resetTokenExpiryTime: Option<Time>)

  /** `new User { Id, CreatedAt, UserName, Email, PasswordHash }`: every other
      property keeps the initialiser written on it, or its type's default. */
  function NewUser(id: Guid, createdAt: Time, userName: string, email: string, passwordHash: string): (u: User)
    ensures u.id == id && u.userName == userName && u.email == email && u.passwordHash == passwordHash
    ensures u.role == Some(UserRole.User)
    ensures !u.isEmailConfirmed && u.isActive && !u.isLocked
    ensures u.refreshToken.None? && u.refreshTokenExpiryTime.None?
    ensures u.resetToken.None? && u.resetTokenExpiryTime.None?
    ensures u.firstName.None? && u.lastName.None? && u.phoneNumber.None? && u.lockoutEnd.None?
    ensures u.updatedAt.None?
  {
    User.User(id, createdAt, None, userName, None, None, email, passwordHash, Some(UserRole.User),
              false, None, true, false, None, None, None, None, None)
  }

  /** The session pair: what login, refresh and logout write. */
  predicate SameSession(a: User, b: User) {
    a.refreshToken == b.refreshToken && a.refreshTokenExpiryTime == b.refreshTokenExpiryTime
  }

  /** The password-reset pair: what forgot-password and reset-password write. */
  predicate SameReset(a: User, b: User) {
    a.resetToken == b.resetToken && a.resetTokenExpiryTime == b.resetTokenExpiryTime
  }

  /** Everything that identifies the account and its profile. */
  predicate SameIdentity(a: User, b: User) {
    && a.id == b.id && a.email == b.email && a.createdAt == b.createdAt
    && a.userName == b.userName && a.firstName == b.firstName && a.lastName == b.lastName
    && a.phoneNumber == b.phoneNumber && a.role == b.role
    && a.isEmailConfirmed == b.isEmailConfirmed && a.isActive == b.isActive
    && a.isLocked == b.isLocked && a.lockoutEnd == b.lockoutEnd
  }
}
