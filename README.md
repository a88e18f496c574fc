# FinAssist authentication: a Dafny model

This project models the authentication service of FinAssist and the parts of
its Angular client that hold the session. The server side is an ASP.NET Core
microservice that stores users and keeps two kinds of credential state on
each `User` row:

- a session: a refresh token with its expiry;
- a password reset: a reset token with its expiry.

Its command handlers do three things to that state: login issues and refresh
rotates the session; logout clears it; forgot-password issues the reset pair
and reset-password consumes it. Change-password, register, update-profile and
delete act on the rest of the row. `AuthController` turns the exceptions the
handlers throw into HTTP responses. On the client, `AuthService` keeps the
tokens and the current user in `localStorage`, and `authInterceptor` attaches
the bearer token (section 2.1 of RFC 6750) and, on a 401, refreshes once and
retries once. The `Me` component derives the profile page's display from the
current user.

How the model is built:

- **Table.** The `Users` table is a `seq<User>` in the order the database
  returns rows. `UniqueKeys` states the primary key and the unique e-mail
  index, and `FitsColumns` the `HasMaxLength` widths of the bounded columns
  (`Email` 256, `UserName`, `FirstName` and `LastName` 100, `PasswordHash`
  512). `Stored` is both. The repository is the class `Store.UserStore`, and
  its `Save` keeps `Stored` invariant.
- **Handlers.** Each handler has two members:
  - a specification function `Handle`, which returns a `Step`: the outcome
    and the writes committed;
  - an imperative `Run`, which performs the reads and at most one write on a
    `UserStore` and is proved to return `Handle`'s outcome and leave the
    table as `Handle`'s writes leave it.
- **Inputs made parameters.** The clock (`now`, in `DateTime` ticks) is a
  parameter. So are the generated tokens, Identity's salt, the HMAC key and
  the database health during a request (`StoreFault`).
- **Hashing.** The hash functions are opaque function values. Two facts
  about them appear as hypotheses: `Sound` (Identity's verifier accepts
  Identity's own hash) and `StandardLengths` (an HMAC-SHA512 digest is 88
  characters and Identity's hash 84, so either fits the `PasswordHash` column).
- **Client values.** Parsed JSON (decoded JWT payloads and error bodies) is
  the `JsValues.JsValue` datatype, with JavaScript truthiness and `||`.
  `localStorage` is a `map<string, Item>`. `AuthService` is a class whose
  methods update that map, the subject's current value and the list of
  values the subject emitted.

## Model

| member | source | states |
|---|---|---|
| `Domain.NewUser` | Server_Side/AuthService/AuthService.Domain/Entities/User.cs:6-29 | A new user has role `User`, is active, unlocked and unconfirmed, and has no session, no reset pair, no optional profile fields and no `UpdatedAt`. |
| `Store.FindById` | Server_Side/AuthService/AuthService.Infrastructure/Repositories/UserRepository.cs:34-37 | Finds a row iff some row has the id, and the row found has it. |
| `Store.FindByEmail` | Server_Side/AuthService/AuthService.Infrastructure/Repositories/UserRepository.cs:24-27 | Finds a row iff some row has the e-mail (ordinal), and the row found has it. |
| `Store.FindByUserName` | Server_Side/AuthService/AuthService.Infrastructure/Repositories/UserRepository.cs:29-32 | The same for the user name. |
| `Store.Remove` | Server_Side/AuthService/AuthService.Infrastructure/Repositories/UserRepository.cs:45-53 | The rows left by a delete are exactly the rows without that id, so nothing is added. |
| `Store.RemoveAbsent` | Server_Side/AuthService/AuthService.Infrastructure/Repositories/UserRepository.cs:48-52 | Removing an id that no row has leaves the table unchanged. |
| `Store.Persist` | Server_Side/AuthService/AuthService.Infrastructure/Repositories/UserRepository.cs:39-43 | A write succeeds iff the database is writable and accepts it: the keys allow it and the written row fits the column widths. On success that single write is committed; on failure nothing is written and the handler's wrapping exception is raised. |
| `Store.UniqueIndexKeepsKeys` | Server_Side/AuthService/AuthService.Infrastructure/Data/UserDbContext.cs:39-43 | Every write the database accepts keeps ids and e-mails unique. |
| `Store.StoredKept` | Server_Side/AuthService/AuthService.Infrastructure/Data/UserDbContext.cs:39-55 | Every write the database accepts keeps the keys unique and every row within the column widths. |
| `Store.UpdateKeepingColumnsAccepted` | Server_Side/AuthService/AuthService.Infrastructure/Data/UserDbContext.cs:51-55 | An update of a stored row that keeps its key and every bounded column (e-mail, names, hash) is accepted. |
| `Store.RemoveKeepsKeys` | Server_Side/AuthService/AuthService.Infrastructure/Repositories/UserRepository.cs:45-53 | A delete keeps the keys unique and shrinks the table by one row exactly when the id was present. |
| `Store.FindAfterReplace` | Server_Side/AuthService/AuthService.Infrastructure/Repositories/UserRepository.cs:39-43 | After an update, the updated id finds the new row and every other id finds what it found before. |
| `Store.FindByEmailAfterReplace` | Server_Side/AuthService/AuthService.Infrastructure/Repositories/UserRepository.cs:24-43 | After an update that keeps the e-mail, that e-mail finds the new row and every other e-mail finds what it found before. |
| `Store.RemoveDeletesOnlyThatRow` | Server_Side/AuthService/AuthService.Infrastructure/Repositories/UserRepository.cs:45-53 | After a delete no row has the id, and every other row is still present. |
| `Store.UserStore.GetById` | Server_Side/AuthService/AuthService.Infrastructure/Repositories/UserRepository.cs:34-37 | Returns the lookup by primary key, or the database failure. |
| `Store.UserStore.GetByEmail` | Server_Side/AuthService/AuthService.Infrastructure/Repositories/UserRepository.cs:24-27 | Returns the first row with the e-mail, or the database failure. |
| `Store.UserStore.Save` | Server_Side/AuthService/AuthService.Infrastructure/Repositories/UserRepository.cs:12-53 | `Update`, `Register` and `Delete` followed by `SaveChanges`: the write is committed iff the database is writable, the keys allow it and the row fits the column widths; otherwise nothing changes. Unique keys and column widths are preserved. A delete reaches `SaveChanges` only through `DeleteById`, after the row was found. |
| `Store.UserStore.DeleteById` | Server_Side/AuthService/AuthService.Infrastructure/Repositories/UserRepository.cs:45-53 | Looks the id up first: a failed read raises; an absent id returns normally with no write, whether or not the database is writable; a present id is removed and saved, and the save can fail. Unique keys and column widths are preserved. |
| `Login.Handle` | Server_Side/AuthService/AuthService.Application/Commands/Login/LoginCommandHandler.cs:16-55 | Bad credentials are refused with the one message, exactly when no user has the e-mail or the password does not verify. Any other failure becomes the login `ApplicationException`. Every failure writes nothing. Success returns the generated pair and commits one update setting the session to that refresh token for 7 days, with everything else, `UpdatedAt` included, kept. Matching credentials on a healthy database whose rows fit their columns always succeed. |
| `Login.Run` | Server_Side/AuthService/AuthService.Application/Commands/Login/LoginCommandHandler.cs:16-55 | The handler against the repository gives `Handle`'s outcome and table, and keeps the unique index. |
| `RefreshToken.Handle` | Server_Side/AuthService/AuthService.Application/Commands/RefreshToken/RefreshTokenCommandHandler.cs:16-49 | The guards run in order: blank token, then unknown id (invalid), then missing or past expiry (expired). Failures write nothing. Success rotates the session to the new token, with expiry now + 7 days and `UpdatedAt` = now, and returns that token. |
| `RefreshToken.Run` | Server_Side/AuthService/AuthService.Application/Commands/RefreshToken/RefreshTokenCommandHandler.cs:16-49 | The handler against the repository gives `Handle`'s outcome and table. |
| `RefreshToken.HandleChecked` | Server_Side/AuthService/AuthService.Application/Commands/RefreshToken/RefreshTokenCommandHandler.cs:23-42 | Corrected handler: it succeeds only when the presented token is the stored one; a different token is refused as invalid with no write; otherwise it behaves as `Handle`. |
| `Logout.Handle` | Server_Side/AuthService/AuthService.Application/Commands/Logout/LogoutCommandHandler.cs:10-22 | An unknown e-mail returns Unit with no write. A known e-mail gets one update that clears both session fields and changes nothing else, not even `UpdatedAt`. On a healthy database whose rows fit their columns it always succeeds. |
| `Logout.Run` | Server_Side/AuthService/AuthService.Application/Commands/Logout/LogoutCommandHandler.cs:10-22 | The handler against the repository gives `Handle`'s outcome and table. |
| `ChangePassword.Handle` | Server_Side/AuthService/AuthService.Application/Commands/ChangePassword/ChangePasswordCommandHandler.cs:15-50 | The guards run in order: blank field, then mismatch, then unknown user, then wrong current password; the first failure decides. Success is one update that replaces the hash and sets `UpdatedAt`, keeping the session and the reset pair. On a healthy database, with hashes of the standard length, passing every guard succeeds. |
| `ChangePassword.Run` | Server_Side/AuthService/AuthService.Application/Commands/ChangePassword/ChangePasswordCommandHandler.cs:15-50 | The handler against the repository, storing the HMAC digest, gives `Handle`'s outcome and table. |
| `ForgotPassword.Handle` | Server_Side/AuthService/AuthService.Application/Commands/ForgotPassword/ForgotPasswordCommandHandler.cs:15-39 | A blank e-mail raises "Email requis.". An unknown e-mail returns Unit with no write. A known one gets the reset pair set for 15 minutes and `UpdatedAt` = now, keeping the password and the session. |
| `ForgotPassword.Run` | Server_Side/AuthService/AuthService.Application/Commands/ForgotPassword/ForgotPasswordCommandHandler.cs:15-39 | The handler against the repository gives `Handle`'s outcome and table. |
| `ResetPassword.Handle` | Server_Side/AuthService/AuthService.Application/Commands/ResetPassword/ResetPasswordCommandHandler.cs:15-58 | The guards run in order: blank field, then mismatch, then unknown e-mail (Unit, no write), then a token that is blank, different or expired (Unauthorized). A write happens only after all checks pass; it replaces the hash, consumes the reset pair and keeps the session. With an accepted token, an unwritable database gives the infrastructure error with no write, and success is exactly one update; on a healthy database with hashes of the standard length it always succeeds. |
| `ResetPassword.Run` | Server_Side/AuthService/AuthService.Application/Commands/ResetPassword/ResetPasswordCommandHandler.cs:15-58 | The handler against the repository, storing the HMAC digest, gives `Handle`'s outcome and table. |
| `Register.ResponseOf` | Server_Side/AuthService/AuthService.Application/Commands/Register/RegisterCommandHandler.cs:31 | The response carries the inserted user's id, e-mail, user name and role. |
| `Register.Handle` | Server_Side/AuthService/AuthService.Application/Commands/Register/RegisterCommandHandler.cs:17-38 | A taken e-mail raises "déjà pris" before any write. Success inserts exactly one new user with Identity's hash, leaves every existing row as it was, and echoes the request's e-mail and user name. Other failures raise the registration `ApplicationException`. A user name over 100 or an e-mail over 256 characters fails with no write; with both within their widths, a free e-mail and id, and the standard hash length, a healthy database registers the user. |
| `Register.Run` | Server_Side/AuthService/AuthService.Application/Commands/Register/RegisterCommandHandler.cs:17-38 | The handler against the repository gives `Handle`'s outcome and table. |
| `UpdateProfile.Handle` | Server_Side/AuthService/AuthService.Application/Commands/UpdateProfile/UpdateProfileCommandHandler.cs:12-33 | An unknown id raises the unwrapped `KeyNotFoundException` with the id in its message. A known id gets one update copying the four profile fields, keeping every other field. Other failures raise the update `ApplicationException`. A user name over 100 characters (the DTO allows 256) or a first or last name over 100 fails with no write; with the fields within their widths, a known id on a healthy database whose rows fit their columns succeeds. |
| `UpdateProfile.Run` | Server_Side/AuthService/AuthService.Application/Commands/UpdateProfile/UpdateProfileCommandHandler.cs:12-33 | The handler against the repository gives `Handle`'s outcome and table. |
| `DeleteUser.Handle` | Server_Side/AuthService/AuthService.Application/Commands/DeleteUser/DeleteUserCommandHandler.cs:12-28 | Succeeds iff the database is healthy and the id exists, with exactly one delete. Every failure, an unknown id included, is the one wrapped `ApplicationException` with no write. |
| `DeleteUser.Run` | Server_Side/AuthService/AuthService.Application/Commands/DeleteUser/DeleteUserCommandHandler.cs:12-28 | The handler against the repository gives `Handle`'s outcome and table. |
| `DeleteUser.DeleteRemovesOnlyThatUser` | Server_Side/AuthService/AuthService.Application/Commands/DeleteUser/DeleteUserCommandHandler.cs:16-22 | After a successful delete no row has the id, every other row remains and no row is added; with unique keys, the table shrinks by exactly one. |
| `Queries.GetUserById` | Server_Side/AuthService/AuthService.Application/Queries/GetUserById/GetUserByIdQueryHandler.cs:13-29 | Succeeds iff the read works and the id is stored, returning that row's id, e-mail and user name; otherwise the wrapped "par ID" `ApplicationException`. |
| `Queries.GetUserByEmail` | Server_Side/AuthService/AuthService.Application/Queries/GetUserByEmail/GetUserByEmailQueryHandler.cs:13-29 | Succeeds iff the e-mail is stored, returning that user's name; otherwise the wrapped "par email" exception. |
| `Queries.GetUserByUsername` | Server_Side/AuthService/AuthService.Application/Queries/GetUserByUsername/GetUserByUsernameQueryHandler.cs:13-29 | Succeeds iff the user name is stored, returning that user's e-mail; otherwise the wrapped "par nom d'utilisateur" exception. |
| `Queries.Summaries` | Server_Side/AuthService/AuthService.Application/Queries/GetAllUsers/GetAllUsersQueryHandler.cs:17-19 | One DTO per row, in row order, with that row's e-mail and user name. |
| `Queries.GetAllUsers` | Server_Side/AuthService/AuthService.Application/Queries/GetAllUsers/GetAllUsersQueryHandler.cs:13-25 | Fails only when the read fails, with the wrapped exception. Otherwise one DTO per stored user, in order, so an empty table gives an empty list. |
| `Queries.QueriesAgree` | Server_Side/AuthService/AuthService.Application/Queries/GetUserById/GetUserByIdQueryHandler.cs:17-23 | With unique keys, the queries by id and by e-mail both return the DTOs of the same stored user. |
| `PasswordManagement.VerifyPassword` | Server_Side/AuthService/AuthService.Application/Utils/PasswordManagement.cs:9-22 | Accepts iff Identity's verifier answers `Success` or `SuccessRehashNeeded`. |
| `PasswordManagement.VerifyAcceptsIdentityHash` | Server_Side/AuthService/AuthService.Application/Utils/PasswordManagement.cs:13-16 | For a sound hasher, a password verifies against Identity's hash of itself. |
| `PasswordManagement.HashPassword` | Server_Side/AuthService/AuthService.Application/Utils/PasswordManagement.cs:24-39 | Returns the HMAC digest of the password under the fresh key, and that key as the salt. |
| `PasswordManagement.StoredHash` | Server_Side/AuthService/AuthService.Application/Commands/ChangePassword/ChangePasswordCommandHandler.cs:43-44 | The stored hash is the `Hash` half of `HashPassword` under the HMAC scheme, and Identity's hash under the Identity scheme. |
| `PasswordManagement.StoredHashLength` | Server_Side/AuthService/AuthService.Application/Utils/PasswordManagement.cs:28-32 | Under `StandardLengths`, the stored hash is 88 characters under the HMAC scheme and 84 under Identity's. |
| `PasswordManagement.ClassOf` | Server_Side/AuthService/AuthService.Application/Utils/PasswordManagement.cs:48-51 | Each character falls in one class, the first branch of the `else if` chain that matches it. |
| `PasswordManagement.IsPasswordStrong` | Server_Side/AuthService/AuthService.Application/Utils/PasswordManagement.cs:41-54 | The scan answers true iff the password is not blank, has at least 8 characters, and has an upper-case letter, a lower-case letter, a digit and a character that is neither a letter nor a digit. |
| `PasswordManagement.HasSnoc` | Server_Side/AuthService/AuthService.Application/Utils/PasswordManagement.cs:46-52 | One more character raises a class flag iff the flag was raised already or the character is of that class. |
| `PasswordManagement.HasDependsOnMultiset` | Server_Side/AuthService/AuthService.Application/Utils/PasswordManagement.cs:45-52 | Which classes a password holds depends only on the multiset of its characters. |
| `PasswordManagement.StrengthIgnoresOrder` | Server_Side/AuthService/AuthService.Application/Utils/PasswordManagement.cs:45-52 | Any permutation of a password gets the same verdict. |
| `PasswordManagement.StrengthSurvivesAppend` | Server_Side/AuthService/AuthService.Application/Utils/PasswordManagement.cs:43-53 | Appending characters to a strong password keeps it strong. |
| `PasswordManagement.StrengthExamples` | Server_Side/AuthService/AuthService.Application/Utils/PasswordManagement.cs:43-53 | `Passw0rd!` is strong; `Pa0!` is too short; `password0!` has no upper-case letter. |
| `RoleConverter.Encode` | Server_Side/AuthService/AuthService.Infrastructure/Data/UserDbContext.cs:33 | An unset role is written "user", and a role as its lower-case name. |
| `RoleConverter.ParseRole` | Server_Side/AuthService/AuthService.Infrastructure/Data/UserDbContext.cs:34 | `Enum.Parse` with `ignoreCase`: succeeds iff the trimmed text equals a role name up to case, and returns that role. |
| `DotNetText.Trim` | Server_Side/AuthService/AuthService.Infrastructure/Data/UserDbContext.cs:34 | The result is the input with a white-space prefix and a white-space suffix cut off, and nothing else removed. It starts and ends with a visible character, and a string with no white space is its own trim. |
| `RoleConverter.Decode` | Server_Side/AuthService/AuthService.Infrastructure/Data/UserDbContext.cs:34 | An empty column reads as `User`; anything else is parsed. EF Core never hands a NULL column to the converter, so the `None` case stands for the `Role ?? User` fallback the query mappers apply to an unset role (UserMapper.cs:17). |
| `RoleConverter.RoundTrip` | Server_Side/AuthService/AuthService.Infrastructure/Data/UserDbContext.cs:32-35 | Decoding what was encoded gives the role back, and `User` for an unset role. |
| `RoleConverter.NameRoundTrip` | Server_Side/AuthService/AuthService.Infrastructure/Data/UserDbContext.cs:32-35 | Each role's lower-case name decodes to that role. |
| `RoleConverter.DecodeIgnoresCase` | Server_Side/AuthService/AuthService.Infrastructure/Data/UserDbContext.cs:34 | Any capitalisation of a role name, with surrounding white space, decodes to that role. |
| `RoleConverter.UnknownNameFails` | Server_Side/AuthService/AuthService.Infrastructure/Data/UserDbContext.cs:34 | A non-empty name of no role ("guest") makes the read fail. |
| `RoleConverter.BlankValueFails` | Server_Side/AuthService/AuthService.Infrastructure/Data/UserDbContext.cs:34 | White space alone is not empty, so it is parsed and fails. |
| `AuthController.MapExceptionToResponse` | Server_Side/AuthService/AuthService.API/Controllers/AuthController.cs:38-67 | Both directions for each arm: weak password gives 400 WEAK_PASSWORD (before the `ApplicationException` arm); unauthorized gives 401; key not found gives 404; any other `ApplicationException` gives 400 BUSINESS_RULE with its own message; everything else gives 500 INTERNAL_ERROR. |
| `AuthController.Execute` | Server_Side/AuthService/AuthService.API/Controllers/AuthController.cs:69-79 | No exception escapes: a failure becomes its mapped `ApiError` with status 400, 401, 404 or 500, and success is the action's own response. |
| `AuthController.Refresh` | Server_Side/AuthService/AuthService.API/Controllers/AuthController.cs:134-148 | When the action is reached with a missing body or a blank token, it answers 400 REFRESH_TOKEN_REQUIRED with no write. Otherwise the answer and the writes are the handler's. |
| `AuthController.ChangePasswordEndpoint` | Server_Side/AuthService/AuthService.API/Controllers/AuthController.cs:158-173 | When the action is reached, a `NameIdentifier` claim that does not parse as a `Guid` is answered 401 INVALID_SESSION with no write. Otherwise the handler runs for the parsed id. |
| `AuthController.ForgotPasswordEndpoint` | Server_Side/AuthService/AuthService.API/Controllers/AuthController.cs:182-189 | Success is answered with the neutral message, failures with their mapped error, and the writes are the handler's. |
| `AuthController.WeakPasswordBeforeBusinessRule` | Server_Side/AuthService/AuthService.API/Controllers/AuthController.cs:42-60 | A weak password is an `ApplicationException`, yet it gets WEAK_PASSWORD rather than BUSINESS_RULE. |
| `AuthController.BlankPasswordFieldIsInternalError` | Server_Side/AuthService/AuthService.API/Controllers/AuthController.cs:62-65 | When the action is reached with a blank password field, the handler's `ArgumentException` is answered 500, because it is not an `ApplicationException`. |
| `AuthController.FormattedClaimReachesHandler` | Server_Side/AuthService/AuthService.API/Controllers/AuthController.cs:161-170 | A claim holding a `Guid` in its default text form reaches the handler with that id. |
| `AuthController.MissingClaimRefused` | Server_Side/AuthService/AuthService.API/Controllers/AuthController.cs:161-168 | A missing claim is answered 401 with no write. |
| `AuthController.ForgotPasswordDoesNotRevealAccounts` | Server_Side/AuthService/AuthService.API/Controllers/AuthController.cs:182-189 | A known and an unknown e-mail get the identical HTTP answer. |
| `Guids.TryParse` | Server_Side/AuthService/AuthService.API/Controllers/AuthController.cs:162 | A missing claim never parses. |
| `Guids.Format` | Server_Side/AuthService/AuthService.Application/Commands/UpdateProfile/UpdateProfileCommandHandler.cs:19 | A `Guid` interpolated into a message is 36 characters, with hyphens at offsets 8, 13, 18 and 23. |
| `Guids.TryParseFormat` | Server_Side/AuthService/AuthService.API/Controllers/AuthController.cs:162 | `Guid.TryParse` reads back the default text form of any `Guid`. |
| `Guids.FromHexToHex` | Server_Side/AuthService/AuthService.API/Controllers/AuthController.cs:162 | Reading the hexadecimal digits of a number back gives the number. |
| `Guids.HexValueOfDigit` | Server_Side/AuthService/AuthService.API/Controllers/AuthController.cs:162 | Each hexadecimal digit reads back as its value. |
| `SessionProperties.UpdateLands` | Server_Side/AuthService/AuthService.Infrastructure/Repositories/UserRepository.cs:39-43 | An update that keeps the key and e-mail keeps the table valid, and both lookups then find the new row. |
| `SessionProperties.LoginFailuresAlike` | Server_Side/AuthService/AuthService.Application/Commands/Login/LoginCommandHandler.cs:20-25 | An unknown e-mail and a wrong password give the identical step: the same refusal and no write. |
| `SessionProperties.LoginUnknownEmailSkipsVerification` | Server_Side/AuthService/AuthService.Application/Commands/Login/LoginCommandHandler.cs:21 | With no user for the e-mail the hasher is never consulted: any two hashers give the same step. |
| `SessionProperties.LoginOpensRefreshableSession` | Server_Side/AuthService/AuthService.Application/Commands/Login/LoginCommandHandler.cs:31-45 | After a login the stored token is the one returned, and a refresh for that user succeeds until the expiry 7 days later. |
| `SessionProperties.RefreshIgnoresPresentedValue` | Server_Side/AuthService/AuthService.Application/Commands/RefreshToken/RefreshTokenCommandHandler.cs:18-36 | Any two non-blank presented tokens lead to the same step. |
| `SessionProperties.RefreshRotates` | Server_Side/AuthService/AuthService.Application/Commands/RefreshToken/RefreshTokenCommandHandler.cs:35-48 | After a refresh the stored token is the returned one and the table stays valid. That user's row differs only in the session and `UpdatedAt`, and every other id finds what it found before. |
| `SessionProperties.RotatedTokenReplays` | Server_Side/AuthService/AuthService.Application/Commands/RefreshToken/RefreshTokenCommandHandler.cs:23-42 | As written: once a refresh has rotated a token away, that old token still refreshes successfully. |
| `SessionProperties.CheckedRefreshRefusesReplay` | Server_Side/AuthService/AuthService.Application/Commands/RefreshToken/RefreshTokenCommandHandler.cs:23-42 | Corrected: after a checked refresh the old token is refused with no write, and the returned token works. |
| `SessionProperties.LogoutIdempotent` | Server_Side/AuthService/AuthService.Application/Commands/Logout/LogoutCommandHandler.cs:16-17 | Logging out twice leaves the table as logging out once. |
| `SessionProperties.LogoutEndsSession` | Server_Side/AuthService/AuthService.Application/Commands/Logout/LogoutCommandHandler.cs:16-19 | After a logout, refreshing that user fails as expired, whatever token is presented. |
| `SessionProperties.ChangePasswordKeepsSession` | Server_Side/AuthService/AuthService.Application/Commands/ChangePassword/ChangePasswordCommandHandler.cs:43-45 | A refresh gets the same answer before and after a password change. |
| `SessionProperties.ForgotPasswordSameAnswer` | Server_Side/AuthService/AuthService.Application/Commands/ForgotPassword/ForgotPasswordCommandHandler.cs:28-38 | Known and unknown e-mails get the same result. |
| `SessionProperties.ForgotPasswordStoresToken` | Server_Side/AuthService/AuthService.Application/Commands/ForgotPassword/ForgotPasswordCommandHandler.cs:31-36 | After the request the user found by the e-mail holds the new token for 15 minutes. |
| `SessionProperties.ResetRefusesOtherToken` | Server_Side/AuthService/AuthService.Application/Commands/ResetPassword/ResetPasswordCommandHandler.cs:39-45 | A token other than the stored one is refused as invalid. |
| `SessionProperties.ForgotPasswordLatestWins` | Server_Side/AuthService/AuthService.Application/Commands/ForgotPassword/ForgotPasswordCommandHandler.cs:32-33 | A second request replaces the pending token, and the first token is then refused. |
| `SessionProperties.ResetTokenSingleUse` | Server_Side/AuthService/AuthService.Application/Commands/ResetPassword/ResetPasswordCommandHandler.cs:39-52 | Replaying a reset token after a successful reset is refused. |
| `SessionProperties.ToyHasherIsSound` | Server_Side/AuthService/AuthService.Application/Utils/PasswordManagement.cs:13-16 | The assumption `Sound` can be met. |
| `SessionProperties.ToyRejectsDigest` | Server_Side/AuthService/AuthService.Application/Utils/PasswordManagement.cs:24-33 | With that hasher, no password verifies against an HMAC digest. |
| `SessionProperties.ChangedPasswordLocksOut` | Server_Side/AuthService/AuthService.Application/Commands/ChangePassword/ChangePasswordCommandHandler.cs:43-44 | As written: after a successful change, neither the new nor the old password logs in. |
| `SessionProperties.ChangedPasswordLogsIn` | Server_Side/AuthService/AuthService.Application/Commands/ChangePassword/ChangePasswordCommandHandler.cs:43-47 | Corrected: storing Identity's hash lets the new password log in, for every sound hasher. |
| `SessionProperties.ResetPasswordLocksOut` | Server_Side/AuthService/AuthService.Application/Commands/ResetPassword/ResetPasswordCommandHandler.cs:47-48 | As written: after a successful reset, the new password does not log in. |
| `SessionProperties.ResetPasswordLogsIn` | Server_Side/AuthService/AuthService.Application/Commands/ResetPassword/ResetPasswordCommandHandler.cs:47-55 | Corrected: storing Identity's hash lets the new password log in. |
| `SessionProperties.RegisterThenLogin` | Server_Side/AuthService/AuthService.Application/Commands/Register/RegisterCommandHandler.cs:27-30 | A registered user logs in with the password they registered with. |
| `JsValues.Or` | Client_Side/AuthModule/src/app/auth/services/auth.service.ts:144-146 | `a \|\| b` is `a` when `a` is truthy and `b` otherwise. |
| `JsValues.FirstTruthy` | Client_Side/AuthModule/src/app/auth/services/auth.service.ts:212-217 | Returns the first truthy operand's position, and none iff no operand is truthy. |
| `JsValues.OrChain` | Client_Side/AuthModule/src/app/auth/services/auth.service.ts:212-217 | A chain of `\|\|` is its first truthy operand, or its last operand when none is truthy. |
| `JsValues.FirstTruthySnoc` | Client_Side/AuthModule/src/app/auth/services/auth.service.ts:212-217 | Adding an operand at the end changes the first truthy position only when there was none. |
| `JsValues.Lookup` | Client_Side/AuthModule/src/app/auth/services/auth.service.ts:244-259 | A property read finds a field with that key, or is `undefined` when no field has it. |
| `JsValues.LookupFirst` | Client_Side/AuthModule/src/app/auth/services/auth.service.ts:244-259 | The first field with the key is the one read. |
| `JsValues.Join` | Client_Side/AuthModule/src/app/auth/services/auth.service.ts:366 | Joining one string gives that string. |
| `JsValues.ForInValues` | Client_Side/AuthModule/src/app/auth/services/auth.service.ts:358-359 | `for … in` visits an object's field values in order, or an array's elements. |
| `JsValues.OrChainExamples` | Client_Side/AuthModule/src/app/auth/services/auth.service.ts:212-217 | `undefined \|\| "" \|\| "a" \|\| "b"` is `"a"`; an all-falsy chain gives its last operand. |
| `AuthClient.AfterAuth` | Client_Side/AuthModule/src/app/auth/services/auth.service.ts:128-161 | The storage after `handleAuthResponse` holds both tokens and the resolved user, and keeps every other key. It is authenticated iff the access token is non-empty. |
| `AuthClient.AfterClear` | Client_Side/AuthModule/src/app/auth/services/auth.service.ts:165-170 | The three session keys are gone and every other key is kept, so the client is no longer authenticated. |
| `AuthClient.ClearUndoesAuth` | Client_Side/AuthModule/src/app/auth/services/auth.service.ts:128-170 | Clearing after an auth response leaves what clearing alone leaves. |
| `AuthClient.ClearIdempotent` | Client_Side/AuthModule/src/app/auth/services/auth.service.ts:165-170 | Clearing twice is clearing once. |
| `AuthClient.Payload` | Client_Side/AuthModule/src/app/auth/services/auth.service.ts:198-206 | No token, or an empty one, gives no payload. |
| `AuthClient.UserIdFromToken` | Client_Side/AuthModule/src/app/auth/services/auth.service.ts:197-226 | The id is the first truthy claim of `sub`, `nameid`, the name-identifier URI, `userId` and `id`, or `null`. |
| `AuthClient.RoleNumber` | Client_Side/AuthModule/src/app/auth/services/auth.service.ts:257-265 | "Admin" gives 0 and any other present role gives 1 (both directions); an absent role gives none. |
| `AuthClient.Authenticated` | Client_Side/AuthModule/src/app/auth/services/auth.service.ts:188-191 | `isAuthenticated` holds iff the token key holds a non-empty string. |
| `AuthClient.UserInfoFromToken` | Client_Side/AuthModule/src/app/auth/services/auth.service.ts:232-278 | Gives a result iff the payload can be read. Each field is the first truthy claim of its chain, or the chain's last claim when none is truthy: the id from `sub`, `nameid` and the name-identifier URI; the e-mail from `email` and the e-mail-address URI; the user name from `unique_name`, the name URI and `username`. The role is `RoleNumber` of the role claims, and `createdAt` is the current time. |
| `AuthClient.IdReadersAgree` | Client_Side/AuthModule/src/app/auth/services/auth.service.ts:212-246 | When one of the first three id claims is set, both readers give the same id. |
| `AuthClient.FirstTruthyPrefix` | Client_Side/AuthModule/src/app/auth/services/auth.service.ts:212-246 | A chain that already has a truthy operand in a prefix is decided by that prefix. |
| `AuthClient.IdReadersDiffer` | Client_Side/AuthModule/src/app/auth/services/auth.service.ts:212-246 | With only a `userId` claim, the id reader finds it but the user-info reader does not. |
| `AuthClient.ResolveUser` | Client_Side/AuthModule/src/app/auth/services/auth.service.ts:134-155 | The response's fields win when truthy; a missing one falls back to the token's claim and then to `''`; with no readable token the response's own values are kept. |
| `AuthClient.StoredFieldsDefined` | Client_Side/AuthModule/src/app/auth/services/auth.service.ts:143-147 | With a readable token, no stored field is left falsy other than `''`. |
| `AuthClient.AuthService.constructor` | Client_Side/AuthModule/src/app/auth/services/auth.service.ts:30 | The subject starts with the user in storage. |
| `AuthClient.AuthService.HandleAuthResponse` | Client_Side/AuthModule/src/app/auth/services/auth.service.ts:128-163 | The storage becomes `AfterAuth` of the old storage, and the stored user is published and emitted. |
| `AuthClient.AuthService.ClearAuthData` | Client_Side/AuthModule/src/app/auth/services/auth.service.ts:165-170 | The storage becomes `AfterClear`, and `null` is published and emitted. |
| `AuthClient.AuthService.LogoutLocal` | Client_Side/AuthModule/src/app/auth/services/auth.service.ts:280-283 | The same as `clearAuthData` on the state. |
| `AuthClient.CollectedAppend` | Client_Side/AuthModule/src/app/auth/services/auth.service.ts:358-363 | Collecting over two groups of fields concatenates their messages in order. |
| `AuthClient.CollectedSkipsNonArrays` | Client_Side/AuthModule/src/app/auth/services/auth.service.ts:360 | Fields whose value is not an array contribute nothing. |
| `AuthClient.ValidationErrors` | Client_Side/AuthModule/src/app/auth/services/auth.service.ts:352-370 | `null` when `errors` is falsy or not an object. Otherwise it is the array-valued field errors, collected field by field and joined by a space; with none, it is `title` when truthy, else `null`. |
| `AuthClient.ExtractValidationErrors` | Client_Side/AuthModule/src/app/auth/services/auth.service.ts:352-370 | The loop computes `ValidationErrors`: the array-valued field errors in field order, joined by a space, else `title \|\| null`. |
| `AuthClient.ParseErrorBody` | Client_Side/AuthModule/src/app/auth/services/auth.service.ts:322-350 | The precedence, one step per clause: truthy validation errors, then a non-empty string `Message`, then `message`, then `title`, then a string body, then the default text. The result is falsy only for an empty-string body. |
| `AuthClient.ExtractErrorMessage` | Client_Side/AuthModule/src/app/auth/services/auth.service.ts:310-320 | A client-side event gives its own message. A truthy body gives `ParseErrorBody` of it. Otherwise the result is the error's `message` when truthy, else the default text. Any body gives a truthy message. |
| `AuthClient.ServerErrorShown` | Client_Side/AuthModule/src/app/auth/services/auth.service.ts:310-337 | Every `ApiError` the controller sends reaches the user as its own message, or the default text for an empty one. |
| `AuthClient.ValidationBeatsMessage` | Client_Side/AuthModule/src/app/auth/services/auth.service.ts:322-336 | Field errors are shown, joined, in preference to the body's `message`. |
| `AuthClient.ClientRefreshRequest` | Client_Side/AuthModule/src/app/auth/services/auth.service.ts:62-64 | The body the client posts binds to an `Id` of `Guid.Empty` and the given token. |
| `AuthClient.ClientRefreshRefused` | Client_Side/AuthModule/src/app/auth/services/auth.service.ts:62-64 | As written: no user has the empty id, so every refresh the client sends is answered 401. |
| `AuthClient.RefreshRequestFor` | Server_Side/AuthService/AuthService.Application/DTOs/RefreshTokenRequestDto.cs:5-11 | A refresh body carrying the user's id and token. |
| `AuthClient.RefreshWithIdSucceeds` | Server_Side/AuthService/AuthService.API/Controllers/AuthController.cs:134-148 | Corrected: with the user's id, a refresh within the session's lifetime is answered 200. |
| `AuthClient.ServerClaimsRead` | Server_Side/AuthService/AuthService.Application/Utils/TokenManagement.cs:14-20 | The server's token carries the user's id under `sub`, the e-mail under `email` and the user name under `userName`. |
| `AuthClient.ServerClaimsLackNames` | Client_Side/AuthModule/src/app/auth/services/auth.service.ts:252-255 | None of the user-name claims the client reads is among the server's claims. |
| `AuthClient.LoginReply` | Server_Side/AuthService/AuthService.Application/Commands/Login/LoginCommandHandler.cs:41-45 | A login response carries no user id, user name or e-mail. |
| `AuthClient.ServerTokenInfo` | Client_Side/AuthModule/src/app/auth/services/auth.service.ts:243-255 | From the server's token the client reads the id and the e-mail, but no user name. |
| `AuthClient.LoginStoresEmptyUserName` | Client_Side/AuthModule/src/app/auth/services/auth.service.ts:140-147 | As written: after a login the stored user has the right id and e-mail, but the user name `''`. |
| `AuthClient.CorrectedUserInfo` | Client_Side/AuthModule/src/app/auth/services/auth.service.ts:252-255 | Corrected reader: exactly `getUserInfoFromToken` except that the user name also comes from `userName`. |
| `AuthClient.CorrectedServerInfo` | Server_Side/AuthService/AuthService.Application/Utils/TokenManagement.cs:14-20 | The corrected reader finds the id, the e-mail and the user name of the server's token, each as the string the server signed. |
| `AuthClient.LoginStoresServerUserName` | Client_Side/AuthModule/src/app/auth/services/auth.service.ts:140-147 | Corrected: after a login the stored user name is the one the server signed. |
| `Interceptor.Includes` | Client_Side/AuthModule/src/app/auth/interceptors/auth.interceptor.ts:11-16 | `includes` is true iff the fragment occurs at some position. |
| `Interceptor.IsAuthRequest` | Client_Side/AuthModule/src/app/auth/interceptors/auth.interceptor.ts:11-16 | A request is an authentication request iff its URL contains one of the six fragments. |
| `Interceptor.WithBearer` | Client_Side/AuthModule/src/app/auth/interceptors/auth.interceptor.ts:19-23 | Cloning sets `Authorization` to `Bearer <token>` and keeps the URL and every other header. |
| `Interceptor.FirstRequest` | Client_Side/AuthModule/src/app/auth/interceptors/auth.interceptor.ts:18-24 | The bearer header is attached iff a non-empty token is stored and the request is not an authentication request; otherwise the request is unchanged. |
| `Interceptor.Intercept` | Client_Side/AuthModule/src/app/auth/interceptors/auth.interceptor.ts:6-58 | One or two requests go out, the first being `FirstRequest`; a second only after a refresh. A success is the last response's value. The storage is untouched after a plain success, and after a refreshed success it is `AfterAuth` of the refresh response. The rest of the protocol is stated by `AtMostOneRetry`, `FailedRecoveryLogsOut`, `NoRefreshTokenLogsOut` and `OtherErrorsPassThrough`. |
| `Interceptor.AtMostOneRetry` | Client_Side/AuthModule/src/app/auth/interceptors/auth.interceptor.ts:29-42 | At most two requests go out. A second one goes only after a 401 on a non-authentication request, a stored refresh token and a successful refresh, and it carries the new access token. |
| `Interceptor.FailedRecoveryLogsOut` | Client_Side/AuthModule/src/app/auth/interceptors/auth.interceptor.ts:33-48 | A failed refresh or a failed retry leaves the client logged out. |
| `Interceptor.NoRefreshTokenLogsOut` | Client_Side/AuthModule/src/app/auth/interceptors/auth.interceptor.ts:50-55 | A 401 with no refresh token logs out and rethrows the original error. |
| `Interceptor.OtherErrorsPassThrough` | Client_Side/AuthModule/src/app/auth/interceptors/auth.interceptor.ts:26-56 | Other errors, and any error on an authentication request, pass through with no refresh and no change to the session. |
| `Interceptor.Run` | Client_Side/AuthModule/src/app/auth/interceptors/auth.interceptor.ts:6-58 | The interceptor, acting on the service through `handleAuthResponse` and `logoutLocal`, produces the modelled outcome, requests and storage, and keeps the service's invariant. |
| `Interceptor.EmailQueryTakenForAuthRequest` | Client_Side/AuthModule/src/app/auth/interceptors/auth.interceptor.ts:11-16 | As written: a user query for an e-mail beginning with `health` is classified as an authentication request. |
| `Interceptor.UserQueriesAreNotAuthEndpoints` | Client_Side/AuthModule/src/app/auth/interceptors/auth.interceptor.ts:11-16 | Corrected: matching whole endpoints never classifies a user query as authentication, and still recognises all six endpoints. |
| `MeComponent.GetInitials` | Client_Side/AuthModule/src/app/auth/components/me/me.ts:86-94 | Empty iff there is no user name. When both names are set, it is their first letters upper-cased; otherwise the first one or two characters of the user name upper-cased. It never holds a lower-case ASCII letter. |
| `MeComponent.GetRoleDisplay` | Client_Side/AuthModule/src/app/auth/components/me/me.ts:118-122 | "Admin" iff the role is 0, otherwise "User", including a missing role. |
| `MeComponent.GetAccountStatus` | Client_Side/AuthModule/src/app/auth/components/me/me.ts:195-201 | Each status holds iff its condition does: Unknown, then Locked, then Inactive, then Email not confirmed, then Active. |
| `MeComponent.GetStatusClass` | Client_Side/AuthModule/src/app/auth/components/me/me.ts:203-209 | Each class holds iff its condition does, checked in the same order as the status: none, then locked, then inactive, then pending, then active. |
| `MeComponent.StatusClassFollowsStatus` | Client_Side/AuthModule/src/app/auth/components/me/me.ts:195-209 | The status class is a function of the status, and different statuses get different classes. |
| `MeComponent.OrEmpty` | Client_Side/AuthModule/src/app/auth/components/me/me.ts:134-137 | `x \|\| ''` is the string when it is non-empty, otherwise `''`. |
| `MeComponent.EditValues` | Client_Side/AuthModule/src/app/auth/components/me/me.ts:133-138 | Each edit-form control holds the user's value, or `''`. |
| `MeComponent.Me.constructor` | Client_Side/AuthModule/src/app/auth/components/me/me.ts:15-34 | There is no user, edit mode is off, both messages are empty, and the form holds empty strings. |
| `MeComponent.Me.OnEditProfile` | Client_Side/AuthModule/src/app/auth/components/me/me.ts:125-139 | With no user nothing changes. Otherwise edit mode is on, both messages are cleared, and the form is filled from the user. |
| `MeComponent.Me.OnCancelEdit` | Client_Side/AuthModule/src/app/auth/components/me/me.ts:141-146 | Edit mode is off, the form is reset, and both messages are cleared. |

## Left out

- Token generation: JWT signing, and the random refresh and reset tokens (`TokenManagement.cs`). The tokens are parameters; only the claim names the server signs are modelled.
- Hashing internals (HMAC-SHA512, Identity's `PasswordHasher`): these are opaque functions. `Sound` and `StandardLengths` are hypotheses of the lemmas and clauses that need them, not proved.
- Crypto exceptions inside `VerifyPassword` and `HashPassword`, which are rewrapped as `ApplicationException`, are not modelled; the functions are total.
- Persistence: EF Core change tracking, `AsNoTracking`, `SaveChanges` batching and concurrency (last write wins). The table is a sequence, and a database failure is the `StoreFault` parameter.
- `Guid.TryParse` is modelled for the "N", "D", "B" and "P" layouts; the "X" layout is not.
- `Enum.Parse`: the numeric and comma-separated forms are not modelled, and case folding covers ASCII only.
- Strings are sequences of Unicode scalar values, not UTF-16 code units. `substring` and `[0]` on a surrogate pair, and `toUpperCase` beyond ASCII, are not modelled.
- JavaScript numbers are integers, and decoding a token (`atob`, `JSON.parse`) is the `Decoder` parameter. Objects list their fields in enumeration order, so duplicate keys are not modelled.
- A null `Email`, `UserName` or `Password` in the login, register and logout requests is not modelled: those strings are non-null in the model.
- Register.Handle: assumes the `RegisterRequestDto` to `User` and `User` to `RegisterResponseDto` maps (RegisterCommandHandler.cs:27 and :31), which `UserMapper.cs` does not define. Without them AutoMapper throws inside the `try`, and every registration would end in the registration `ApplicationException`. The model follows the handler's unit test, where registration succeeds.
- `UserMapper.cs` defines no `UpdateProfileDto` to `User` map. The copied fields (user name, first and last name, phone) follow the handler's unit test. The DTO's `Id` and `PasswordHash` are assumed not to be mapped, so the stored hash is kept. Only the mapped DTO fields each query promises are stated.
- `GetUserByIdDto.cs` is not part of this model. The by-id DTO's fields (`Queries.UserByIdDto`: id, user name, e-mail, first and last name, role and both timestamps) are assumed from the `User` to `GetUserByIdDto` map in UserMapper.cs:36-43, with the `Id` mapped by name.
- The `Role` column's width (50) is not modelled: the converter writes only "user" or "admin". The phone number has no column width; its `[StringLength(20)]` belongs to the DTO validation left out below.
- `LogoutCommand` declares a different field from the one the handler reads, and `ChangePasswordCommand` has no `UserId`. The model follows the handlers.
- `DeleteUser` calls a repository `Delete(user)` that the repository interface does not declare. It is modelled as `DeleteById`.
- The change- and reset-password tests expect a call to `IsPasswordStrong` that neither handler makes. The model follows the handlers.
- AuthController.Refresh, AuthController.ChangePasswordEndpoint, AuthController.BlankPasswordFieldIsInternalError and ForgotPassword.Handle start where the action is reached. The automatic model validation of `[ApiController]` (AuthController.cs:25) is not modelled. Under the request DTOs' `[Required]`, `[StringLength]`, `[Compare]` and `[EmailAddress]` attributes, it answers a missing, blank, short or mismatched field with a 400 validation-problem body (`errors` and `title`, the shape `AuthClient.ValidationErrors` reads) before the action runs. Over HTTP, those requests therefore never reach the 500 answer, `REFRESH_TOKEN_REQUIRED` or "Email requis.".
- The clock: one `now` per request stands for the separate `DateTime.UtcNow` reads a handler makes. Examples are the expiry test and the new expiry in RefreshTokenCommandHandler.cs:30-40, and the expiry and `UpdatedAt` in ForgotPasswordCommandHandler.cs:33-34. The few ticks between those reads are not modelled.
- `HealthCommandHandler` returns a constant. The endpoints other than `Refresh`, `ChangePassword` and `ForgotPassword` only send a command through `ExecuteAsync`, which `AuthController.Execute` models.
- Client HTTP calls, rxjs pipelines, router navigation and console logging are not modelled. The refresh call is the `RefreshCall` parameter; the service's `logout(email)` HTTP call is not modelled.
- The `Me` component's `ngOnInit`, `onSaveProfile`, `onLogout` and `onChangePassword`, and its `isLoading`/`isSaving` flags, are not modelled.
- `MeComponent.GetInitials`, `GetRoleDisplay`, `GetAccountStatus` and `GetStatusClass` take the user as a parameter rather than reading the component's `user` field.
- `AuthClient.AuthService.IsAuthenticated` and `GetRefreshToken` read the storage; their properties are stated on `Authenticated`, `AfterAuth` and `AfterClear`.
- The interceptor is a function of its inputs. The retried request is not intercepted a second time, as in the source, and the refresh request passes through the interceptor untouched because its URL contains `/refresh`.

## Findings

| source | as written | input that shows it | evidently intended | confidence | as-written member | corrected member |
|---|---|---|---|---|---|---|
| Server_Side/AuthService/AuthService.Application/Commands/ChangePassword/ChangePasswordCommandHandler.cs:43-44 | Change-password and reset-password store the `Hash` half of `HashPassword`, an HMAC-SHA512 digest under a key that is discarded, while `VerifyPassword` checks Identity's hash format. | Any user who changes or resets their password: afterwards neither the old nor the new password logs in. | Store the new password with Identity's `PasswordHasher`, as register does. | not executed | `SessionProperties.ChangedPasswordLocksOut`, `SessionProperties.ResetPasswordLocksOut` | `SessionProperties.ChangedPasswordLogsIn`, `SessionProperties.ResetPasswordLogsIn` |
| Client_Side/AuthModule/src/app/auth/services/auth.service.ts:63 | The client posts `{ refreshToken }` without the user's `Id`, so `RefreshTokenRequestDto.Id` binds to `Guid.Empty`. | Any refresh with a non-blank token: the server finds no user with the empty id and answers 401. | Send the stored user's id with the refresh token. | not executed | `AuthClient.ClientRefreshRefused` | `AuthClient.RefreshWithIdSucceeds` |
| Client_Side/AuthModule/src/app/auth/interceptors/auth.interceptor.ts:11-16 | A request counts as an authentication request when its URL contains a fragment anywhere. | `<api>/users/email/healthy@example.com` contains `/health`, so it is sent without the bearer header. | Match the authentication endpoints themselves. | not executed | `Interceptor.EmailQueryTakenForAuthRequest` | `Interceptor.UserQueriesAreNotAuthEndpoints` |
| Server_Side/AuthService/AuthService.Application/Commands/RefreshToken/RefreshTokenCommandHandler.cs:23-42 | The presented refresh token is never compared with the stored one; only the id and the expiry are checked. | Refresh with token `a` (the stored token becomes `b`), then refresh again with `a`: the second refresh succeeds. | Refuse a token that is not the stored one, so that rotation retires the old token. | not executed | `SessionProperties.RotatedTokenReplays` | `SessionProperties.CheckedRefreshRefusesReplay` |
| Client_Side/AuthModule/src/app/auth/services/auth.service.ts:252-255 | The client reads the user name from `unique_name`, the name-claim URI or `username`, but the server signs it as `userName` (TokenManagement.cs:18). The login response carries no user name. | Any login: the stored user's name is `''`. | Also read the `userName` claim. | not executed | `AuthClient.LoginStoresEmptyUserName` | `AuthClient.LoginStoresServerUserName` |
