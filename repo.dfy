/** The two queries of repo.go and the way they turn driver errors into the package's errors. */
module Repo {
  import opened Outcomes
  import opened Users
  import opened Store

  /** saveUser's error handling (repo.go:36-45): a unique violation on the email constraint
      becomes ErrEmailAlreadyExists, any other error is returned as the driver reported it, and
      a successful insert returns nil. */
  function SaveOutcome(execErr: Option<DbError>): (r: Option<Error>)
    ensures r.None? <==> execErr.None?
    ensures r == Some(EmailAlreadyExists) <==> execErr == Some(DuplicateEmail)
    ensures execErr.Some? && execErr != Some(DuplicateEmail) ==> r == Some(Db(execErr.value))
  {
    match execErr
    case None => None
    case Some(e) =>
      if e.PgError? && e.code == UniqueViolation && e.constraintName == UsersEmailKey
      then Some(EmailAlreadyExists)
      else Some(Db(e))
  }

  /** findUserByEmail's handling of Row.Scan (repo.go:21-27): no rows becomes "User not found",
      any other error is passed through, and both come with the zero User; a scanned row fills
      Id, Email, Password and Role and leaves the other fields at their zero values. */
  function ScanOutcome(scan: Result<Row, DbError>): (r: (User, Option<Error>))
    ensures r.1.None? <==> scan.Ok?
    ensures scan.Err? ==> r.0 == ZeroUser
    ensures scan == Err(NoRows) ==> r.1 == Some(UserNotFound)
    ensures scan.Err? && scan.error != NoRows ==> r.1 == Some(Db(scan.error))
    ensures scan.Ok? ==> r.0 == ZeroUser.(id := scan.value.id, email := scan.value.email,
                                          password := scan.value.password, role := scan.value.role)
  {
    match scan
    case Err(e) => if e == NoRows then (ZeroUser, Some(UserNotFound)) else (ZeroUser, Some(Db(e)))
    case Ok(row) => (User(row.email, row.password, 0, None, None, row.role, row.id), None)
  }

  /** The user the lookup yields for a stored row. */
  function Scanned(u: User): User {
    ScanOutcome(Ok(Row(u.id, u.email, u.password, u.role))).0
  }

  /** saveUser (repo.go:31-46): inserts id, email, hash and creation time. A duplicate email
      gives ErrEmailAlreadyExists and adds nothing. */
  method SaveUser(tx: Tx, user: User, fault: Option<DbError>) returns (err: Option<Error>)
    requires tx.state == Open && tx.Valid()
    modifies tx
    ensures tx.Valid() && tx.state == Open
    ensures fault.Some? ==> err == SaveOutcome(fault) && tx.pending == old(tx.pending)
    ensures fault.None? && user.email in old(tx.Visible()) ==>
              err == Some(EmailAlreadyExists) && tx.pending == old(tx.pending)
    ensures fault.None? && user.email !in old(tx.Visible()) ==>
              err.None? &&
              tx.pending == old(tx.pending)[user.email := InsertedRow(user.id, user.email, user.password, user.createdAt)]
  {
    var execErr := tx.Insert(user.id, user.email, user.password, user.createdAt, fault);
    err := SaveOutcome(execErr);
  }

  /** findUserByEmail (repo.go:14-29): the stored user with the selected columns, or "User not
      found", or the driver's error, the last two beside the zero User. */
  method FindUserByEmail(tx: Tx, email: string, fault: Option<DbError>) returns (user: User, err: Option<Error>)
    requires KeyedByEmail(tx.Visible())
    ensures fault.Some? ==>
              && user == ZeroUser
              && err == if fault.value == NoRows then Some(UserNotFound) else Some(Db(fault.value))
    ensures fault.None? && email !in tx.Visible() ==> user == ZeroUser && err == Some(UserNotFound)
    ensures fault.None? && email in tx.Visible() ==>
              user == Scanned(tx.Visible()[email]) && user.email == email && err.None?
  {
    var row := tx.QueryRow(email, fault);
    var (scanned, scanErr) := ScanOutcome(row);
    user, err := scanned, scanErr;
  }
}
