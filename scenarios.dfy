/** Sequences of calls on a fresh database and session map, as a client of the two routes would
    make them: the behaviour of the package across requests rather than within one. */
module Scenarios {
  import opened Outcomes
  import opened Validator
  import opened Users
  import opened Store
  import opened Sessions
  import opened Routers

  /** The same email registered twice: the first request creates the user, the second is
      refused with 409 by the unique constraint, and the table keeps the first row. */
  method RegisterTwice(p: Platform, email: string, password: string, id1: Ulid, id2: Ulid, now: Time)
    returns (first: Outcome, second: Outcome)
    requires email != "" && password != ""
    requires p.checkEmail(email) == Deliverable && Acceptable(p.classify, password)
    requires p.createHash(password).Ok?
    ensures first == Respond(StatusCreated, Registered(id1), [])
    ensures second == Respond(StatusConflict, ErrorMessage(EmailAlreadyExists), [])
  {
    var noFaults := DbFaults(None, None, None);
    var pool := new Pool(map[]);
    first := CreateUserHandler(pool, p, Fields(email, password), id1, now, noFaults);
    assert email in pool.users;
    second := CreateUserHandler(pool, p, Fields(email, password), id2, now, noFaults);
  }

  /** A fresh table after one successful registration holds exactly the new user's row. */
  method RegisteredPool(p: Platform, email: string, password: string, id: Ulid, now: Time)
    returns (pool: Pool)
    requires email != "" && password != ""
    requires p.checkEmail(email) == Deliverable && Acceptable(p.classify, password)
    requires p.createHash(password).Ok?
    ensures fresh(pool) && pool.Valid()
    ensures pool.users == map[email := InsertedRow(id, email, p.createHash(password).value, now)]
  {
    pool := new Pool(map[]);
    assert NewUser(p, email, password, 0, 0).1.None?;
    var registered := CreateUserHandler(pool, p, Fields(email, password), id, now, DbFaults(None, None, None));
  }

  /** A registered user logs in and sends the cookies back. The login answers 201 and the
      returned request is authorized exactly when both random reads succeeded and the email is
      made of characters a cookie value keeps. A failed read leaves an empty token that nothing
      can present; an email that net/http cleans comes back as another, unknown email. */
  method RegisterThenLogin(p: Platform, email: string, password: string, id: Ulid, now: Time,
                           sessionRead: Result<seq<Byte>, string>, csrfRead: Result<seq<Byte>, string>)
    returns (login: Outcome, authorized: bool)
    requires email != "" && password != ""
    requires p.checkEmail(email) == Deliverable && Acceptable(p.classify, password)
    requires p.createHash(password).Ok?
    requires p.compare(password, p.createHash(password).value) == Ok(true)
    requires sessionRead.Ok? ==> |sessionRead.value| == TokenBytes
    requires csrfRead.Ok? ==> |csrfRead.value| == TokenBytes
    ensures login.Respond? && login.status == StatusCreated
    ensures login.body == LoginInfo(id, email, "")
    ensures authorized <==> sessionRead.Ok? && csrfRead.Ok? && CookieValue(email) == email
  {
    var pool := RegisteredPool(p, email, password, id, now);
    var store := new SessionStore();
    login := LoginUserHandler(store, pool, p, Fields(email, password), DbFaults(None, None, None),
                              sessionRead, csrfRead);
    authorized := TestHandler(store, ReturnedRequest(login.cookies)).status == StatusOK;
  }

  /** Logging in again replaces the session: the first login's tokens stop authorizing as soon
      as the second login stores different ones, while the second login's tokens authorize. */
  method SecondLoginRevokesFirst(email: string, token1: string, csrf1: string, token2: string, csrf2: string)
    returns (firstStillValid: bool, secondValid: bool)
    requires token1 != token2 && token2 != "" && csrf2 != ""
    ensures !firstStillValid && secondValid
  {
    var store := new SessionStore();
    store.Issue(email, token1, csrf1);
    store.Issue(email, token2, csrf2);
    firstStillValid := store.Authorize(AuthRequest(Some(email), Some(token1), csrf1)) == Authorized;
    secondValid := store.Authorize(AuthRequest(Some(email), Some(token2), csrf2)) == Authorized;
  }
}
