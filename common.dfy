/** Types shared by every service of the payment gateway: the status string of an
    operation record, the errors the services return, and the 32-bit narrowing
    that some services apply with `as i32`. */
module Common {

  datatype Option<T> = None | Some(value: T)

  /** What a repository lookup or write was about, for error values. */
  datatype Entity =
    | Card | CardSaldo | Merchant | MerchantCard | MerchantSaldo
    | SenderCard | ReceiverCard | SenderSaldo | ReceiverSaldo
    | TopupRecord | WithdrawRecord | TransferRecord | TransactionRecord
    | RecordStatus | User | Role | UserRole | RefreshToken

  /** `ServiceError` as the services raise it; the text of each `Custom`
      message is named by its constructor. */
  datatype Error =
    | ValidationFailed              // req.validate() rejected the request
    | IdRequired                    // "<x>_id is required"
    | NotFound(what: Entity)        // a lookup returned an error
    | WriteFailed(what: Entity)     // a repository write returned an error
    | RestoreFailed                 // "failed to restore saldo"
    | InsufficientBalance           // "insufficient balance"
    | UnauthorizedAccess            // the API key's merchant does not own the transaction
    | TooManyAttempts               // "Too many failed attempts. Try again later."
    | UserNotFound                  // "user not found"
    | InvalidCredentials
    | RepoError                     // ServiceError::Repo from a user or role lookup
    | EmailAlreadyRegistered        // the email is taken ("already registered")
    | EmailCheckFailed              // the uniqueness lookup of an email returned an error
    | EmailInUse                    // "already used by another user"
    | DefaultRoleNotFound
    | HashFailed                    // "Failed to hash password"
    | TokenFailed                   // creating an access or refresh token failed
    | TokenExpired
    | InvalidToken

  datatype Result<T> = Ok(value: T) | Err(error: Error)

  /** The `status` column of top-ups, withdrawals, transfers and transactions:
      "pending" when the repository creates the row, then "success" or "failed". */
  datatype Status = Pending | Success | Failed

  const I32_MODULUS: int := 0x1_0000_0000
  const I32_MIN: int := -0x8000_0000
  const I32_MAX: int := 0x7fff_ffff

  predicate InI32(x: int) {
    I32_MIN <= x <= I32_MAX
  }

  /** Rust's `x as i32` on a wider integer: keep the low 32 bits, two's complement. */
  function ToI32(x: int): (r: int)
    ensures InI32(r)
    ensures (x - r) % I32_MODULUS == 0
    ensures InI32(x) ==> r == x
  {
    var low := x % I32_MODULUS;
    if low <= I32_MAX then low else low - I32_MODULUS
  }
}
