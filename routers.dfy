/** The HTTP handlers of routers.go: the form checks, the mapping of the package's errors to
    status codes, the cookies and session a successful login leaves behind, and the protected
    `/test` route. Routing itself (chi) is not modelled: each handler is a member of its own. */
module Routers {
  import opened Outcomes
  import opened Users
  import opened Store
  import opened Repo
  import opened Service
  import opened Sessions

  const StatusOK: int := 200
  const StatusCreated: int := 201
  const StatusBadRequest: int := 400
  const StatusUnauthorized: int := 401
  const StatusNotFound: int := 404
  const StatusConflict: int := 409
  const StatusInternalServerError: int := 500

  /** A POST as a handler sees it after r.ParseForm: the error of a body that cannot be parsed,
      or the `email` and `password` form values, each empty when absent. */
  datatype Form = BadForm(reason: string) | Fields(email: string, password: string)

  /** A cookie the package sets. Path "/", SameSite=Strict and the two-minute expiry are the
      same on every cookie and are not modelled. */
  datatype Cookie = Cookie(name: string, value: string, httpOnly: bool)

  /** The JSON bodies: {"message"} of writeMessage and writeError, {"id"} of a registration,
      {"id", "email", "role"} of a login. */
  datatype Body =
    | Message(text: string)
    | ErrorMessage(err: Error)
    | Registered(id: Ulid)
    | LoginInfo(id: Ulid, email: string, role: string)

  /** Why a handler panics before it writes a response: writeError given a nil error, or
      Authorize given a request without an `authInfo` cookie. */
  datatype Fault = NilErrorMessage | NilAuthCookie

  /** What a handler does: writes a status, a body and cookies, or panics. */
  datatype Outcome = Respond(status: int, body: Body, cookies: seq<Cookie>) | Panic(fault: Fault)

  /** writeError (routers.go:47-49): the error's message under the given status; calling
      Error() on a nil error panics. */
  function WriteError(status: int, err: Option<Error>): (o: Outcome)
    ensures o.Panic? <==> err.None?
    ensures o.Panic? ==> o.fault == NilErrorMessage
    ensures err.Some? ==> o.Respond? && o.status == status && o.body == ErrorMessage(err.value) && o.cookies == []
  {
    match err
    case None => Panic(NilErrorMessage)
    case Some(e) => Respond(status, ErrorMessage(e), [])
  }

  /** The empty-field switch of both handlers (routers.go:59-69 and 96-106): both fields empty is
      reported as such, before either one alone, and the email before the password. Exactly one
      of the four answers holds for every pair. */
  function EmptyFieldCheck(email: string, password: string): (r: Option<Error>)
    ensures r.None? <==> email != "" && password != ""
    ensures r == Some(RequestEmpty) <==> email == "" && password == ""
    ensures r == Some(EmailCannotEmpty) <==> email == "" && password != ""
    ensures r == Some(PasswordCannotEmpty) <==> email != "" && password == ""
  {
    if email == "" && password == "" then Some(RequestEmpty)
    else if email == "" then Some(EmailCannotEmpty)
    else if password == "" then Some(PasswordCannotEmpty)
    else None
  }

  /** The checks both handlers make before the service is called (routers.go:52-58 and 89-95):
      the parse error, then the empty fields. */
  function FormCheck(form: Form): (r: Option<Error>)
    ensures form.BadForm? ==> r == Some(FormError(form.reason))
    ensures r.None? <==> form.Fields? && form.email != "" && form.password != ""
  {
    match form
    case BadForm(reason) => Some(FormError(reason))
    case Fields(email, password) => EmptyFieldCheck(email, password)
  }

  /** The response to createUser's result (routers.go:70-85): 409 for a taken email, 400 for
      every other error, whatever its cause, and 201 with the new id on success. */
  function RegisterResponse(id: Ulid, err: Option<Error>): (o: Outcome)
    ensures o.Respond? && o.cookies == []
    ensures o.status == StatusCreated <==> err.None?
    ensures o.status == StatusConflict <==> err == Some(EmailAlreadyExists)
    ensures o.status == StatusBadRequest <==> err.Some? && err != Some(EmailAlreadyExists)
    ensures err.Some? ==> o.body == ErrorMessage(err.value)
    ensures err.None? ==> o.body == Registered(id)
  {
    if err.None? then Respond(StatusCreated, Registered(id), [])
    else if err == Some(EmailAlreadyExists) then WriteError(StatusConflict, err)
    else WriteError(StatusBadRequest, err)
  }

  /** createUserHandler (routers.go:51-86). A bad form or an empty field is answered with 400
      before the service runs; otherwise the answer is createUser's result mapped by
      RegisterResponse. The handler never panics, and it answers 201 exactly when it added a new
      email to the table. */
  method CreateUserHandler(pool: Pool, p: Platform, form: Form, freshId: Ulid, now: Time, faults: DbFaults)
    returns (out: Outcome)
    requires pool.Valid()
    modifies pool
    ensures pool.Valid() && out.Respond?
    ensures FormCheck(form).Some? ==>
              out == WriteError(StatusBadRequest, FormCheck(form)) && pool.users == old(pool.users)
    ensures FormCheck(form).None? ==>
              var err := RegisterError(old(pool.users), p, form.email, form.password, faults);
              && out == RegisterResponse(if err.None? then freshId else 0, err)
              && pool.users == if err.None?
                               then old(pool.users)[form.email := InsertedRow(freshId, form.email, p.createHash(form.password).value, now)]
                               else old(pool.users)
    ensures out.status == StatusCreated <==>
              form.Fields? && form.email !in old(pool.users) && form.email in pool.users
    ensures out.status != StatusCreated ==> pool.users == old(pool.users)
  {
    var formErr := FormCheck(form);
    if formErr.Some? {
      return WriteError(StatusBadRequest, formErr);
    }
    var id, err, _ := CreateUser(pool, p, form.email, form.password, freshId, now, faults);
    out := RegisterResponse(id, err);
  }

  /** The cookies of a successful login, in the order they are set (routers.go:122-137,
      session.go:29-53): the email, readable by scripts; the session token, HttpOnly; the CSRF
      token, readable by scripts so that they can echo it in the X-CSRF-Token header. */
  function LoginCookies(email: string, sessionToken: string, csrfToken: string): (c: seq<Cookie>)
    ensures |c| == 3
    ensures c[0].name == "authInfo" && c[1].name == "session_id" && c[2].name == "csrf_token"
    ensures c[1].httpOnly && !c[0].httpOnly && !c[2].httpOnly
    ensures c[0].value == email && c[1].value == sessionToken && c[2].value == csrfToken
  {
    [Cookie("authInfo", email, false), Cookie("session_id", sessionToken, true),
     Cookie("csrf_token", csrfToken, false)]
  }

  /** A byte net/http keeps in a cookie value: printable ASCII other than '"', ';' and '\'. A
      character outside ASCII is written as bytes of 0x80 and above, none of which is kept. */
  predicate CookieValueChar(c: char) {
    0x20 <= c as int < 0x7f && c != '"' && c != ';' && c != '\\'
  }

  /** The value a cookie carries back after http.SetCookie has written `v`: every byte outside
      CookieValueChar is dropped. A value holding a space or a comma is quoted on the wire and
      unquoted again when the request's cookies are read, so those arrive as written. The value
      comes back unchanged exactly when every character of it is kept. */
  function CookieValue(v: string): (r: string)
    ensures |r| <= |v|
    ensures forall i :: 0 <= i < |r| ==> CookieValueChar(r[i])
    ensures (forall i :: 0 <= i < |v| ==> CookieValueChar(v[i])) ==> r == v
    ensures |r| == |v| ==> forall i :: 0 <= i < |v| ==> CookieValueChar(v[i])
  {
    if v == [] then []
    else (if CookieValueChar(v[0]) then [v[0]] else []) + CookieValue(v[1..])
  }

  /** Each part of a value is cleaned on its own. */
  lemma {:induction false} CookieValueAppend(a: string, b: string)
    ensures CookieValue(a + b) == CookieValue(a) + CookieValue(b)
    decreases |a|
  {
    if a != [] {
      assert (a + b)[0] == a[0] && (a + b)[1..] == a[1..] + b;
      CookieValueAppend(a[1..], b);
    } else {
      assert a + b == b;
    }
  }

  /** An email with a letter outside ASCII, such as "jos\U{e9}@gmail.com", comes back without
      that letter, and so as a different string. */
  lemma NonAsciiEmailCookie(before: string, c: char, after: string)
    requires c as int >= 0x80
    requires CookieValue(before) == before && CookieValue(after) == after
    ensures CookieValue(before + [c] + after) == before + after
    ensures CookieValue(before + [c] + after) != before + [c] + after
  {
    CookieValueAppend(before + [c], after);
    CookieValueAppend(before, [c]);
    assert CookieValue([c]) == [];
  }

  /** A base64url token, or the empty token of a failed read, comes back unchanged. */
  lemma UrlSafeCookieValue(s: string)
    requires AllUrlSafe(s)
    ensures CookieValue(s) == s
  {
    forall i | 0 <= i < |s| ensures CookieValueChar(s[i]) {
      assert UrlSafe(s[i]);
    }
  }

  /** The request a browser sends back after a login: the values of the `authInfo` and
      `session_id` cookies it was given, and the `csrf_token` cookie's value in the X-CSRF-Token
      header, each as net/http let it through. */
  function ReturnedRequest(cookies: seq<Cookie>): AuthRequest
    requires |cookies| == 3
  {
    AuthRequest(Some(CookieValue(cookies[0].value)), Some(CookieValue(cookies[1].value)),
                CookieValue(cookies[2].value))
  }

  /** The role of the login response: null.String's text, the empty string when the column is
      NULL, so that a NULL role and an empty one answer alike. */
  function RoleText(role: Option<string>): (r: string)
    ensures r == "" <==> role.None? || role == Some("")
    ensures role.Some? ==> r == role.value
  {
    match role
    case None => ""
    case Some(r) => r
  }

  /** A login gets past every check: a well-formed form with both fields, a found user (with
      the commit of the lookup's transaction succeeding too), and a hash comparison that succeeds
      and matches. */
  ghost predicate LoginAccepted(users: map<string, User>, p: Platform, form: Form, faults: DbFaults) {
    && FormCheck(form).None?
    && LookupResult(users, form.email, faults).1.None?
    && VerifyPassword(p, form.password, LookupResult(users, form.email, faults).0.password) == (true, None)
  }

  /** loginUserHandler (routers.go:88-153). A bad form or an empty field gives 400, a failed
      lookup 404 (a failed commit after a found user included), a failed hash comparison 500. A
      wrong password reaches writeError with the nil error of the successful comparison and
      panics (routers.go:117-118). Only an accepted login answers 201 with the user's id, email
      and role and the three cookies, and only it touches the session map: the email's entry is
      overwritten with the two new tokens (routers.go:133-140), which are empty when the random
      read failed, since those errors are dropped. Returning the cookies as a browser would then
      authorizes exactly when both random reads succeeded. */
  method LoginUserHandler(store: SessionStore, pool: Pool, p: Platform, form: Form, faults: DbFaults,
                          sessionRead: Result<seq<Byte>, string>, csrfRead: Result<seq<Byte>, string>)
    returns (out: Outcome)
    requires pool.Valid()
    requires sessionRead.Ok? ==> |sessionRead.value| == TokenBytes
    requires csrfRead.Ok? ==> |csrfRead.value| == TokenBytes
    modifies store, pool
    ensures pool.Valid() && pool.users == old(pool.users)
    ensures FormCheck(form).Some? ==> out == WriteError(StatusBadRequest, FormCheck(form))
    ensures FormCheck(form).None? && LookupResult(old(pool.users), form.email, faults).1.Some? ==>
              out == WriteError(StatusNotFound, LookupResult(old(pool.users), form.email, faults).1)
    ensures FormCheck(form).None? && LookupResult(old(pool.users), form.email, faults).1.None? ==>
              var user := LookupResult(old(pool.users), form.email, faults).0;
              var verified := VerifyPassword(p, form.password, user.password);
              && (verified.1.Some? ==> out == WriteError(StatusInternalServerError, verified.1))
              && (verified == (false, None) ==> out == Panic(NilErrorMessage))
    ensures out.Panic? <==>
              && FormCheck(form).None? && LookupResult(old(pool.users), form.email, faults).1.None?
              && VerifyPassword(p, form.password, LookupResult(old(pool.users), form.email, faults).0.password) == (false, None)
    ensures out.Respond? && out.status == StatusCreated <==> LoginAccepted(old(pool.users), p, form, faults)
    ensures LoginAccepted(old(pool.users), p, form, faults) ==>
              var user := Scanned(old(pool.users)[form.email]);
              var sessionToken, csrfToken := GenerateToken(sessionRead).0, GenerateToken(csrfRead).0;
              && out == Respond(StatusCreated, LoginInfo(user.id, form.email, RoleText(user.role)),
                                LoginCookies(form.email, sessionToken, csrfToken))
              && store.sessions == old(store.sessions)[form.email := Session(sessionToken, csrfToken)]
              && (CookieValue(form.email) == form.email ==>
                    (store.Authorize(ReturnedRequest(out.cookies)) == Authorized <==> sessionRead.Ok? && csrfRead.Ok?))
              && (CookieValue(form.email) != form.email ==>
                    store.Authorize(ReturnedRequest(out.cookies)) == old(store.Authorize(ReturnedRequest(out.cookies))))
    ensures !LoginAccepted(old(pool.users), p, form, faults) ==> store.sessions == old(store.sessions)
  {
    var formErr := FormCheck(form);
    if formErr.Some? {
      return WriteError(StatusBadRequest, formErr);
    }
    var user, err, _ := FindUser(pool, form.email, faults);
    if err.Some? {
      return WriteError(StatusNotFound, err);
    }
    var (validPassword, verifyErr) := VerifyPassword(p, form.password, user.password);
    if verifyErr.Some? {
      return WriteError(StatusInternalServerError, verifyErr);
    }
    if !validPassword {
      return WriteError(StatusUnauthorized, verifyErr);
    }
    var sessionId := GenerateToken(sessionRead).0;
    var csrfToken := GenerateToken(csrfRead).0;
    store.Issue(user.email, sessionId, csrfToken);
    out := Respond(StatusCreated, LoginInfo(user.id, user.email, RoleText(user.role)),
                   LoginCookies(user.email, sessionId, csrfToken));
    UrlSafeCookieValue(sessionId);
    UrlSafeCookieValue(csrfToken);
    assert CookieValue(form.email) == form.email ==>
           (store.Authorize(ReturnedRequest(out.cookies)) == Authorized <==> sessionId != "" && csrfToken != "");
  }

  /** The `/test` route (routers.go:23-29): 200 "success" for an authorized request, 401
      "Unauthorized" for a denied one, and the panic of Authorize for a request without an
      `authInfo` cookie. */
  function TestHandler(store: SessionStore, req: AuthRequest): (o: Outcome)
    reads store
    ensures o == Respond(StatusOK, Message("success"), []) <==> store.Authorize(req) == Authorized
    ensures o == WriteError(StatusUnauthorized, Some(Unauthorized)) <==> store.Authorize(req) == Denied
    ensures o == Panic(NilAuthCookie) <==> req.authInfo.None?
  {
    match store.Authorize(req)
    case Authorized => Respond(StatusOK, Message("success"), [])
    case Denied => WriteError(StatusUnauthorized, Some(Unauthorized))
    case NilCookieDereference => Panic(NilAuthCookie)
  }
}
