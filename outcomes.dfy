/** Values shared by the whole model: Go's `(value, error)` pairs and the error values of the
    `user` package, one constructor per distinct error the package can return. */
module Outcomes {

  datatype Option<+T> = None | Some(value: T)

  datatype Result<+T, +E> = Ok(value: T) | Err(error: E)

  /** What the pgx driver reports for a failed statement or transaction call. */
  datatype DbError =
    | PgError(code: string, constraintName: string)  // a *pgconn.PgError sent by the server
    | NoRows                                         // pgx.ErrNoRows from Row.Scan
    | DriverError(message: string)                   // any other failure: network, closed pool, ...

  /** SQLSTATE of a unique violation and the name of the unique constraint on users.email. */
  const UniqueViolation: string := "23505"
  const UsersEmailKey: string := "users_email_key"

  /** The errors of the `user` package. */
  datatype Error =
    | FormError(message: string)          // r.ParseForm failed
    | RequestEmpty                        // "email and password cannot be empty"
    | EmailCannotEmpty                    // "email cannot be empty"
    | PasswordCannotEmpty                 // "password cannot be empty"
    | PasswordTooShort                    // "Pasword less than 8"
    | NoLowercase                         // "... at least one Lowercase character"
    | NoUppercase                         // "... at least one Uppercase character"
    | NoDigit                             // "... at least one Digit character"
    | NoSymbol                            // "... at least one Symbol character"
    | EmailInvalid                        // "Email Invalid"
    | DomainNotFound                      // "Domain not found"
    | HashError(message: string)          // an error of the argon2id library
    | RandError(message: string)          // an error of crypto/rand
    | EmailAlreadyExists                  // "email already exists"
    | UserNotFound                        // "User not found"
    | Db(cause: DbError)                  // a driver error passed through unchanged
    | Unauthorized                        // "Unauthorized"
}
