/** The two operations of service.go, each run inside one transaction of the pool. */
module Service {
  import opened Outcomes
  import opened Users
  import opened Store
  import opened Repo

  /** The driver error an insert into `users` meets: the injected failure, else the unique
      violation when the email is taken, else none. */
  function InsertError(users: map<string, User>, email: string, fault: Option<DbError>): Option<DbError> {
    if fault.Some? then fault else if email in users then Some(DuplicateEmail) else None
  }

  /** The error createUser returns, step by step: NewUser's, then Begin's, then saveUser's,
      then Commit's. */
  function RegisterError(users: map<string, User>, p: Platform, email: string, password: string,
                         faults: DbFaults): Option<Error>
  {
    var newErr := NewUser(p, email, password, 0, 0).1;
    if newErr.Some? then newErr
    else if faults.begin.Some? then Some(Db(faults.begin.value))
    else if InsertError(users, email, faults.statement).Some?
    then SaveOutcome(InsertError(users, email, faults.statement))
    else if faults.commit.Some? then Some(Db(faults.commit.value))
    else None
  }

  /** The error of a NewUser call does not depend on the id and time it is given. */
  lemma NewUserErrorIgnoresIdAndTime(p: Platform, email: string, password: string,
                                     id1: Ulid, now1: Time, id2: Ulid, now2: Time)
    ensures NewUser(p, email, password, id1, now1).1 == NewUser(p, email, password, id2, now2).1
  {
  }

  /** createUser (service.go:9-28). A rejected user is returned before any transaction begins;
      a failed insert is rolled back; a failed commit is returned as is; only a committed insert
      returns the new id and adds the row, and every other path returns the zero id and leaves
      the table as it was. No path leaves a transaction open. */
  method CreateUser(pool: Pool, p: Platform, email: string, password: string, freshId: Ulid,
                    now: Time, faults: DbFaults)
    returns (id: Ulid, err: Option<Error>, ghost tx: Tx?)
    requires pool.Valid()
    modifies pool
    ensures pool.Valid()
    ensures err == RegisterError(old(pool.users), p, email, password, faults)
    ensures id == if err.None? then freshId else 0
    ensures pool.users == if err.None?
                          then old(pool.users)[email := InsertedRow(freshId, email, p.createHash(password).value, now)]
                          else old(pool.users)
    ensures tx == null <==> NewUser(p, email, password, freshId, now).1.Some? || faults.begin.Some?
    ensures tx != null ==>
              && fresh(tx) && tx.pool == pool
              && tx.state == if InsertError(old(pool.users), email, faults.statement).Some? then RolledBack
                             else if faults.commit.Some? then CommitFailed
                             else Committed
  {
    id, tx := 0, null;
    var (user, newErr) := NewUser(p, email, password, freshId, now);
    if newErr.Some? {
      err := newErr;
      return;
    }
    var t, beginErr := pool.Begin(faults.begin);
    if beginErr.Some? {
      err := Some(Db(beginErr.value));
      return;
    }
    tx := t;
    err := SaveUser(t, user, faults.statement);
    if err.Some? {
      t.Rollback();
      return;
    }
    var commitErr := t.Commit(faults.commit);
    if commitErr.Some? {
      err := Some(Db(commitErr.value));
      return;
    }
    assert old(pool.users) + map[email := InsertedRow(freshId, email, user.password, now)]
        == old(pool.users)[email := InsertedRow(freshId, email, user.password, now)];
    id := user.id;
  }

  /** What findUser returns: Begin's error, or the lookup's, or the found user together with
      Commit's error. Every error comes with the zero User except Commit's. */
  function LookupResult(users: map<string, User>, email: string, faults: DbFaults): (User, Option<Error>) {
    if faults.begin.Some? then (ZeroUser, Some(Db(faults.begin.value)))
    else if faults.statement.Some? then ScanOutcome(Err(faults.statement.value))
    else if email !in users then ScanOutcome(Err(NoRows))
    else (Scanned(users[email]), if faults.commit.Some? then Some(Db(faults.commit.value)) else None)
  }

  /** findUser (service.go:30-41). A failed begin or a failed lookup returns the zero User with
      the error, and a failed lookup leaves its transaction open, holding its connection. A found
      user is returned after the commit, even when the commit itself fails. The table never
      changes. */
  method FindUser(pool: Pool, email: string, faults: DbFaults)
    returns (user: User, err: Option<Error>, ghost tx: Tx?)
    requires pool.Valid()
    modifies pool
    ensures pool.Valid() && pool.users == old(pool.users)
    ensures (user, err) == LookupResult(old(pool.users), email, faults)
    ensures err.None? ==> email in old(pool.users) && user.email == email
    ensures tx == null <==> faults.begin.Some?
    ensures tx != null ==>
              && fresh(tx) && tx.pool == pool
              && tx.state == if faults.statement.Some? || email !in old(pool.users) then Open
                             else if faults.commit.Some? then CommitFailed
                             else Committed
  {
    user, err, tx := ZeroUser, None, null;
    var t, beginErr := pool.Begin(faults.begin);
    if beginErr.Some? {
      err := Some(Db(beginErr.value));
      return;
    }
    tx := t;
    assert t.Visible() == pool.users;
    user, err := FindUserByEmail(t, email, faults.statement);
    if err.Some? {
      return ZeroUser, err, tx;
    }
    var commitErr := t.Commit(faults.commit);
    err := if commitErr.Some? then Some(Db(commitErr.value)) else None;
  }
}
