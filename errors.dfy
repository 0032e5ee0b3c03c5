/**
 * The exceptions the core raises, with the HTTP status and message that
 * the web framework reports for each.
 */
module Errors {

  datatype ApiError =
    | InvalidCredentials      // AuthLoginException
    | NotYetActivated         // validateUserStatusIsActive
    | AlreadyActivated        // validateUserStatusIsPending, verifyUser
    | EmailTaken              // validateUserEmail
    | UsernameTaken           // validateUserUsername
    | NoAccountWithEmail      // getUserByEmailAndValidate
    | TokenInvalidOrExpired   // getTokenAndValidate
    | DuplicateKey            // the store's unique index rejects an insert
    | OwnerMissing            // a token whose user document no longer exists
    | RandomSourceFailed      // crypto.randomBytes reported an error
    | Forbidden               // guard: authenticated caller on a without-auth route
    | Unauthorized            // guard: no user on an auth-required route

  /** HTTP status code of the exception. */
  function Status(e: ApiError): (code: nat)
    ensures 400 <= code <= 500
    ensures code == 400 <==> e.InvalidCredentials? || e.NotYetActivated? || e.AlreadyActivated?
                              || e.EmailTaken? || e.UsernameTaken? || e.NoAccountWithEmail?
                              || e.TokenInvalidOrExpired?
  {
    match e
    case Forbidden => 403
    case Unauthorized => 401
    case DuplicateKey | OwnerMissing | RandomSourceFailed => 500
    case _ => 400
  }

  /** The message carried by the exception. */
  function Message(e: ApiError): string
  {
    match e
    case InvalidCredentials => "The email or password you have entered is invalid"
    case NotYetActivated => "This account has not yet activated"
    case AlreadyActivated => "This account has already been activated. Please log in"
    case EmailTaken => "The email address you have entered is already associated with another account"
    case UsernameTaken => "The username you have entered is already associated with another account"
    case NoAccountWithEmail => "We were unable to find a account with that email"
    case TokenInvalidOrExpired => "We were unable to find a valid token. Your token my have expired"
    case Forbidden => "Forbidden"
    case Unauthorized => "Unauthorized"
    case DuplicateKey | OwnerMissing | RandomSourceFailed => "Internal server error"
  }
}
