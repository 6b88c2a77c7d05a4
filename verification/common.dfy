/** Outcomes shared by every service: optional values, the exception classes
    the services raise, the messages they carry, and the catch-block rewrap. */
module Outcomes {

  datatype Option<+T> = None | Some(value: T)

  /** The HTTP exception class an operation finally raises. */
  datatype Kind =
    | BadRequest
    | NotFound
    | Unauthorized
    | Forbidden
    | InternalServerError

  /** The messages thrown by the services, one constructor per message text. */
  datatype Msg =
    | InvalidEmailFormat            // 'Invalid email format'
    | EmailAlreadyExists            // 'Email already exists'
    | UserNotFound                  // 'User not found'
    | EmailAlreadyVerified          // 'Email already verified'
    | NoVerificationFound           // 'No verification found. A new one has been sent. ...'
    | NoResetCodeFound              // 'No password reset code found. A new one has been sent. ...'
    | InvalidCode(attemptsLeft: int) // 'Invalid verification code. Attempt left is <n>.'
    | MaxVerificationAttempts       // 'Maximum verification attempts reached. A new code ...'
    | CodeExpired                   // 'Verification code has expired'
    | AccountDoesNotExist           // 'Account does not exist'
    | EmailMustBeString             // 'Email must be a string'
    | PasswordMustBeString          // 'Password must be a string'
    | EmailNotVerified              // 'Email not verified. Please, verify your email.'
    | AccountLocked                 // 'Account is locked. Kindly reset your password.'
    | IncorrectPassword             // 'Incorrect password'
    | IncorrectPasswordKindlyReset  // 'Incorrect password. Kindly reset your password.'
    | MaxPasswordAttempts           // 'Maximum password attempts reached. ...'
    | PasswordUnchanged             // 'New password must be different from the old password'
    | StatusNotFound                // 'Status not found'
    | NullReference                 // a TypeError from reading a property of null
    | LocationsMustBeArrays         // 'Locations must be arrays'
    | StatusDoesNotExist(name: string) // 'Status <name> does not exist'
    | DefaultStatusNotFound         // 'Default campaign status not found. ...'
    | CampaignNotFound              // 'Campaign not found'
    | LocationNotFound              // 'Location not found'
    | LocationAlreadyAdded          // 'Location already added to the campaign'
    | LocationAlreadyExists         // 'Location already exists'
    | StatusAlreadyExists           // 'Status already exists'
    | NoStatusesFound               // 'No statuses found'
    | AmountMismatch                // 'Amount mismatch'
    | PaymentNotFound               // 'Payment not found'
    | GatewayFailure                // the payment gateway's HTTP call failed
    | InvalidSignature              // 'Invalid signature'
    | ProfileNotCompleted           // 'Profile is not completed. Update your profile'
    | NotAuthorized                 // 'Unauthorized'
    | UniqueViolation               // the store rejected a duplicate of a unique column or key
    | NotNullViolation              // the store rejected a row missing a NOT NULL column
    | StatusNameNotAnId             // the store rejected a status name written into an integer key column
    | NotADigest                    // argon2 rejected a stored password that is not a digest

  datatype Result<+T> = Ok(value: T) | Err(kind: Kind, msg: Msg)

  /** The state an operation leaves behind and the outcome its caller sees. */
  datatype Change<+S, +T> = Change(state: S, result: Result<T>)

  /** What every service catch block does: rethrow as an internal-server
      error carrying the inner message (beside a fixed per-operation text,
      which is not modelled). */
  function Internal<T>(msg: Msg): (r: Result<T>)
    ensures r.Err? && r.kind == InternalServerError && r.msg == msg
  {
    Err(InternalServerError, msg)
  }
}

/** The values an operation draws from the outside world: the clock,
    randomness and the outcome of e-mail dispatch. */
module Environment {

  /** `now` is the wall clock in milliseconds; `entropy` feeds the one-time
      code generator and token ids; `salt` is the password-hash salt;
      `mailDelivered` says whether the mail provider accepted the message. */
  datatype Env = Env(now: int, entropy: nat, salt: nat, mailDelivered: bool)
}
