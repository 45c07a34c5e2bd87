/** The PostgreSQL pool the package reaches through its package-level `pool` variable, reduced
    to what the package can observe: a users table whose email column is unique, transactions
    that are begun and then committed or rolled back, and the rows a transaction has inserted but
    not yet committed. The driver can also fail on any call for reasons outside the package (a
    lost connection, a closed pool); such a failure is an input of the call that suffers it. */
module Store {
  import opened Outcomes
  import opened Users

  /** Where a transaction is in its life. pgxpool releases the connection on commit and on
      rollback, whether or not they succeed, so only an Open transaction holds a connection. */
  datatype TxState = Open | Committed | RolledBack | CommitFailed

  /** The driver failures injected into one logical operation: for Begin, for the one statement
      run inside the transaction, and for Commit. */
  datatype DbFaults = DbFaults(begin: Option<DbError>, statement: Option<DbError>, commit: Option<DbError>)

  /** The columns `SELECT id, email, password, role FROM users` returns. */
  datatype Row = Row(id: Ulid, email: string, password: string, role: Option<string>)

  /** A table row keyed by its email: the row of an insert holds the four inserted columns and
      NULL in the others. */
  function InsertedRow(id: Ulid, email: string, password: string, createdAt: Time): User {
    User(email, password, createdAt, None, None, None, id)
  }

  /** Rows are filed under their own email, which the unique constraint makes a key. */
  ghost predicate KeyedByEmail(rows: map<string, User>) {
    forall e :: e in rows ==> rows[e].email == e
  }

  /** The reply of the server to an insert whose email is already taken. */
  const DuplicateEmail: DbError := PgError(UniqueViolation, UsersEmailKey)

  class Pool {
    /** The committed contents of the users table. */
    var users: map<string, User>

    ghost predicate Valid()
      reads this
    {
      KeyedByEmail(users)
    }

    constructor (rows: map<string, User>)
      requires KeyedByEmail(rows)
      ensures Valid() && users == rows
    {
      users := rows;
    }

    /** pool.Begin: a fresh open transaction with nothing inserted, or the injected failure. */
    method Begin(fault: Option<DbError>) returns (tx: Tx?, err: Option<DbError>)
      ensures err == fault
      ensures fault.Some? <==> tx == null
      ensures tx != null ==> fresh(tx) && tx.pool == this && tx.state == Open && tx.pending == map[]
    {
      err := fault;
      if fault.Some? {
        tx := null;
      } else {
        tx := new Tx(this);
      }
    }
  }

  class Tx {
    const pool: Pool
    var state: TxState
    /** Rows this transaction has inserted and not yet committed. */
    var pending: map<string, User>

    ghost predicate Valid()
      reads this
    {
      KeyedByEmail(pending)
    }

    constructor (p: Pool)
      ensures pool == p && state == Open && pending == map[] && Valid()
    {
      pool := p;
      state := Open;
      pending := map[];
    }

    /** The table as this transaction sees it. */
    function Visible(): map<string, User>
      reads this, pool
    {
      pool.users + pending
    }

    /** tx.Exec of the INSERT: the injected failure, else the unique violation when the email is
        already present, else the row is added to the transaction's pending rows. */
    method Insert(id: Ulid, email: string, password: string, createdAt: Time, fault: Option<DbError>)
      returns (err: Option<DbError>)
      requires state == Open && Valid()
      modifies this
      ensures Valid() && state == Open
      ensures err == if fault.Some? then fault
                     else if email in old(Visible()) then Some(DuplicateEmail)
                     else None
      ensures pending == if err.None? then old(pending)[email := InsertedRow(id, email, password, createdAt)]
                         else old(pending)
    {
      if fault.Some? {
        err := fault;
      } else if email in Visible() {
        err := Some(DuplicateEmail);
      } else {
        pending := pending[email := InsertedRow(id, email, password, createdAt)];
        err := None;
      }
    }

    /** tx.QueryRow of the SELECT by email: the injected failure, the selected columns of the
        row, or no rows. */
    method QueryRow(email: string, fault: Option<DbError>) returns (r: Result<Row, DbError>)
      ensures fault.Some? ==> r == Err(fault.value)
      ensures fault.None? && email !in Visible() ==> r == Err(NoRows)
      ensures fault.None? && email in Visible() ==>
                var u := Visible()[email]; r == Ok(Row(u.id, u.email, u.password, u.role))
    {
      if fault.Some? {
        r := Err(fault.value);
      } else if email in Visible() {
        var u := Visible()[email];
        r := Ok(Row(u.id, u.email, u.password, u.role));
      } else {
        r := Err(NoRows);
      }
    }

    /** tx.Commit: publishes the pending rows, or fails with the injected error and publishes
        nothing; the transaction is over either way. */
    method Commit(fault: Option<DbError>) returns (err: Option<DbError>)
      requires state == Open && pool.Valid() && Valid()
      modifies this, pool
      ensures err == fault && pool.Valid()
      ensures state == if fault.None? then Committed else CommitFailed
      ensures pool.users == if fault.None? then old(pool.users) + old(pending) else old(pool.users)
    {
      err := fault;
      if fault.None? {
        pool.users := pool.users + pending;
        state := Committed;
      } else {
        state := CommitFailed;
      }
    }

    /** tx.Rollback: discards the pending rows and ends the transaction. Its own error is
        ignored by the only caller, so it is not modelled. */
    method Rollback()
      requires state == Open
      modifies this
      ensures state == RolledBack && pending == map[]
    {
      state := RolledBack;
      pending := map[];
    }
  }
}
