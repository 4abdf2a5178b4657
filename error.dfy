/** The closed error enumeration of the identity service and its `Display` text (src/user/error.rs). */
module Errors {
  import opened Common

  datatype AuthError =
    // validation failures
    | InvalidPassword
    | InvalidUsername
    | InvalidEmail
    // login / security failures
    | UserNotFound
    | InvalidPasswordLogin
    | SessionExpired
    // duplicates
    | UsernameExists
    | EmailExists
    // technical failures
    | PasswordHashingFailed
    | TokenInvalid
    | TokenExpired

  /** `AuthResult<T>`: every service operation returns a value or exactly one error kind. */
  type AuthResult<T> = Result<T, AuthError>

  /** The `Display` implementation: one fixed message per variant. */
  function Message(e: AuthError): (m: string)
    ensures |m| > 0
  {
    match e
    case UserNotFound => "User not found"
    case InvalidPassword => "Invalid password"
    case InvalidUsername => "Username format is invalid"
    case InvalidEmail => "Email format is invalid"
    case UsernameExists => "Username already exists"
    case EmailExists => "Email already exists"
    case PasswordHashingFailed => "Password hashing failed"
    case SessionExpired => "Session has expired"
    case InvalidPasswordLogin => "Password is incorrect"
    case TokenInvalid => "Reset token is invalid"
    case TokenExpired => "Reset token has expired"
  }

  /** The message identifies the variant: distinct errors are displayed differently. */
  lemma MessageInjective(a: AuthError, b: AuthError)
    ensures Message(a) == Message(b) ==> a == b
  {
  }

  /** The pairs a caller most needs told apart: unknown vs expired token, bad format vs wrong password. */
  lemma ConfusableMessagesDiffer()
    ensures Message(TokenInvalid) != Message(TokenExpired)
    ensures Message(InvalidPassword) != Message(InvalidPasswordLogin)
    ensures Message(UserNotFound) != Message(InvalidPasswordLogin)
  {
  }
}
