/**
 * The exceptions the handlers throw and the controller catches. The C# class
 * hierarchy matters for the controller's `switch`: `WeakPasswordException`
 * derives from `ApplicationException`; `UnauthorizedAccessException`,
 * `KeyNotFoundException` and `ArgumentException` do not.
 */
module Exceptions {
  import opened Wrappers

  datatype Exn =
    | WeakPassword                       // WeakPasswordException : ApplicationException
    | Unauthorized(message: string)      // UnauthorizedAccessException
    | KeyNotFound(message: string)       // KeyNotFoundException
    | Application(message: string)       // ApplicationException
    | Argument(message: string)          // ArgumentException
    | Infrastructure                     // any other exception, e.g. a database failure

  /** `ex is ApplicationException`. */
  predicate IsApplicationException(e: Exn) {
    e.WeakPassword? || e.Application?
  }

  /** `ex.Message`. */
  function Message(e: Exn): string {
    match e
    case WeakPassword => "Mot de passe trop faible."
    case Unauthorized(m) => m
    case KeyNotFound(m) => m
    case Application(m) => m
    case Argument(m) => m
    case Infrastructure => "An error occurred while saving the entity changes."
  }

  type Outcome<T> = Result<T, Exn>
}
