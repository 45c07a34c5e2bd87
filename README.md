# CaseKeeper `user` package: a verified model of registration, login and authorization

This project models the authentication core of CaseKeeper's Go `user` package (the files under
`backend/user/`) in Dafny. It covers the following:

- the password policy;
- the construction of a user record and its password change;
- registration and lookup, each inside one transaction of a PostgreSQL pool;
- the classification of driver errors;
- the issue of login tokens and the session map they are kept in;
- the check a protected route makes against that map;
- the HTTP handlers that tie these together.

The foreign pieces are not interpreted:

- **Platform.** The Unicode category tables, the email check (address parsing and an MX lookup), and the argon2id hash and compare are fields of a `Platform` value that every operation receives.
- **Database.** The database is an abstract `users` table keyed by email, with transactions that are begun, committed or rolled back. A driver failure on Begin, on the one statement, or on Commit is an input of that operation (`DbFaults`).
- **Randomness.** Random reads are inputs: the 32 bytes read, or the read's error.
- **Ids and times.** Fresh ULIDs and the current time are inputs.

Module layout follows the package's files:

| module | file | form |
|---|---|---|
| `Outcomes` | (shared) | the package's error values; Option and Result |
| `Validator` | validator.go | a `for` loop over the runes with four flag invariants, proved against a specification function `Verdict` |
| `Users` | user.go | functions for NewUser, encryptPassword and verifyPassword; a class `UserRef` whose `ChangePassword` updates the record in place |
| `Store` | (pgx pool) | classes `Pool` and `Tx` with the transaction state machine |
| `Repo` | repo.go | error classification as functions; the two queries as methods on a `Tx` |
| `Service` | service.go | createUser and findUser as methods driving a transaction |
| `Sessions` | session.go | the base64url token encoding (section 5 of RFC 4648) with a decode round trip; the class `SessionStore` holding `loginSessions` |
| `Routers` | routers.go | the form checks, the status mapping and the two handlers |
| `Scenarios` | (across files) | register twice; register then log in; log in twice |

The model follows the code as written. Some of that behaviour is easy to misread:

- **Wrong password.** The login handler answers a wrong password by passing the nil error of the successful comparison to `writeError` (routers.go:117-118). `writeError` calls `err.Error()` on it (routers.go:48), so the handler panics instead of answering 401. The model's outcome is `Panic(NilErrorMessage)`, and the session map is left unchanged.
- **Missing `authInfo` cookie.** A request without this cookie makes `Authorize` dereference a nil cookie (session.go:56-57). The outcome is `NilCookieDereference`, not a denial.
- **Driver errors in registration.** Every createUser error other than a duplicate email is answered with 400, including driver errors such as a failed Begin or Commit; none is answered with 500.
- **Driver errors in login.** Every findUser error, including a failed commit after the user was found, is answered with 404.
- **Successful login.** It answers 201.
- **Failed lookup.** It leaves findUser's transaction open: it is neither committed nor rolled back (service.go:35-38), so it keeps its connection. Only createUser rolls back a failed statement (service.go:19-21).
- **Lost random reads.** The errors of the two random reads at login are dropped (routers.go:134-135). A failed read stores an empty token, and no request can ever be authorized against an empty token.

Runes: a Dafny `string` is a sequence of Unicode scalar values, which is what Go's `range` yields over a well-formed UTF-8 string. `ByteLen` is Go's `len`, the UTF-8 byte count.

## Model

| member | source | states |
|---|---|---|
| Validator.ValidatePassword | backend/user/validator.go:11-42 | The result is the policy's verdict `Verdict`. It is nil exactly when the byte length is at least 8 and lower, upper, digit and symbol-or-punctuation runes all occur. A byte length under 8 gives the length error before any rune is examined. The loop invariants state that each flag equals "a rune of that class occurs in the prefix", so flags are only ever switched on. The last switch case is `(!isSym && IsSymbol(r)) \|\| IsPunct(r)`. |
| Validator.HasSnoc | backend/user/validator.go:16-28 | Appending a rune keeps every class already seen and adds the rune's own class, which is why a flag is never cleared. |
| Validator.VerdictPriority | backend/user/validator.go:29-40 | Each error is reported exactly when every rule of higher priority holds and its own rule fails: length, then lower, upper, digit, symbol. |
| Validator.ByteLen | backend/user/validator.go:12 | Go's `len`: between one and four bytes per rune. |
| Validator.Utf8Len | backend/user/validator.go:12 | A rune takes 1 to 4 bytes, and takes 1 exactly when it is ASCII. |
| Validator.ByteLenAppend | backend/user/validator.go:12 | The byte length of a concatenation is the sum of the byte lengths. |
| Validator.ByteLenPermutation | backend/user/validator.go:12 | Reordering the runes keeps the byte length. |
| Validator.HasIffCategory | backend/user/validator.go:17-28 | A class occurs in the password exactly when it is in the set of its runes' classes. |
| Validator.VerdictDeterminedByLengthAndCategories | backend/user/validator.go:11-41 | Two passwords with equal byte lengths and equal sets of classes get the same verdict. |
| Validator.VerdictIgnoresOrder | backend/user/validator.go:17-28 | Two passwords with the same runes, in any order, get the same verdict. |
| Validator.MultibyteRunesPassLengthRule | backend/user/validator.go:12 | "Aa1!éé" has 6 runes but 8 bytes, so it passes the length rule and the whole policy. |
| Users.ValidateEmail | backend/user/validator.go:44-55 | The email passes exactly when it parses and its domain has an MX record. A failed parse gives "Email Invalid" and a failed lookup "Domain not found". |
| Users.EncryptPassword | backend/user/user.go:56-63 | A hashing error gives the empty string and the error; otherwise the result is the library's hash. |
| Users.VerifyPassword | backend/user/user.go:65-75 | A comparison error never reports a match. A match is reported exactly when the comparison succeeds and says true. |
| Users.NewUser | backend/user/user.go:21-41 | The email is checked first, then the password policy, then hashing, and the first failure is returned with the zero User. It succeeds exactly when the email is deliverable, the password acceptable and the hash succeeds. On success the record has the given email, the hash, the id and creation time, and null update time, username and role. |
| Users.UserRef.ChangePassword | backend/user/user.go:43-54 | A rejected password or a failed hash returns its error and leaves the record unchanged. Success changes only the password (to the hash) and the update time. |
| Store.Tx.Insert | backend/user/repo.go:33-35 | The insert fails with the injected error, or with the unique violation on `users_email_key` when the email is visible to the transaction; otherwise the row is added to the transaction's pending rows. |
| Store.Tx.QueryRow | backend/user/repo.go:16-19 | The query gives the injected error, or the selected columns of the row with that email, or no rows. |
| Store.Tx.Commit | backend/user/service.go:23 | A successful commit publishes the pending rows; a failed one publishes nothing. The transaction is over either way. |
| Store.Tx.Rollback | backend/user/service.go:20 | Pending rows are discarded and the transaction ends. |
| Store.Pool.Begin | backend/user/service.go:14 | The result is a fresh open transaction with nothing pending, or the injected error and no transaction. |
| Repo.SaveOutcome | backend/user/repo.go:36-45 | The result is nil exactly for a successful insert. Code 23505 on constraint `users_email_key`, and only that, becomes ErrEmailAlreadyExists. Every other error is passed through unchanged. |
| Repo.ScanOutcome | backend/user/repo.go:21-28 | No rows becomes "User not found" and any other scan error is passed through, both with the zero User. A scanned row fills id, email, password and role, and nothing else. |
| Repo.SaveUser | backend/user/repo.go:31-46 | A duplicate email gives ErrEmailAlreadyExists and adds nothing. A successful insert adds the row under the email. |
| Repo.FindUserByEmail | backend/user/repo.go:14-29 | The result is the stored user's selected columns, or "User not found" with the zero User, or the driver's error with the zero User. |
| Service.CreateUser | backend/user/service.go:9-28 | The error is NewUser's, then Begin's, then saveUser's, then Commit's (`RegisterError`). NewUser's or Begin's failure begins no transaction. A failed insert is rolled back and a failed commit is returned. Only a committed insert returns the new id and adds the row; every other path returns the zero id and leaves the table unchanged. No path leaves the transaction open. |
| Service.FindUser | backend/user/service.go:30-41 | A failed begin or lookup returns the zero User with the error, and a failed lookup leaves the transaction open. A found user is returned after the commit, together with the commit's error if any. The table never changes. |
| Service.NewUserErrorIgnoresIdAndTime | backend/user/user.go:21-31 | NewUser's error does not depend on the id and time it is given. |
| Sessions.DigitValue | backend/user/session.go:26 | Decoding an alphabet character gives its index, below 64. |
| Sessions.Digit | backend/user/session.go:26 | Every 6-bit value maps to a character of the URL-safe alphabet that decodes back to it. |
| Sessions.BytesDigits | backend/user/session.go:26 | Three bytes split into four 6-bit digits and reassemble exactly. |
| Sessions.EncodeGroup | backend/user/session.go:26 | Three bytes encode to four URL-safe characters. |
| Sessions.EncodeOne | backend/user/session.go:26 | A last group of one byte encodes to four URL-safe characters, the last two padding. |
| Sessions.EncodeTwo | backend/user/session.go:26 | A last group of two bytes encodes to four URL-safe characters, the last one padding. |
| Sessions.DecodeEncodeGroup | backend/user/session.go:26 | Decoding a full encoded group gives back its three bytes. |
| Sessions.DecodeEncodeOne | backend/user/session.go:26 | A one-byte tail padded with "==" decodes back to its byte. |
| Sessions.DecodeEncodeTwo | backend/user/session.go:26 | A two-byte tail padded with "=" decodes back to its bytes. |
| Sessions.GroupsDecode | backend/user/session.go:26 | Every kind of group, full or padded, decodes back to the bytes it was encoded from. |
| Sessions.GroupedLength | backend/user/session.go:26 | When every group is written as four characters, n bytes give 4·⌈n/3⌉ characters. |
| Sessions.GroupedUrlSafe | backend/user/session.go:26 | When every group is written in URL-safe characters, so is the whole text. |
| Sessions.UngroupGrouped | backend/user/session.go:26 | When every kind of group reads back as its bytes, reading the groups back undoes writing them, for any byte string. |
| Sessions.Encode | backend/user/session.go:26 | The encoding of n bytes has 4·⌈n/3⌉ characters. |
| Sessions.EncodeUrlSafe | backend/user/session.go:26 | Every character of an encoding is in the URL-safe alphabet or is padding. |
| Sessions.DecodeEncode | backend/user/session.go:26 | Decoding the base64url encoding gives back the bytes, so distinct random reads give distinct tokens. |
| Sessions.GenerateToken | backend/user/session.go:21-27 | A successful read of 32 bytes gives a non-empty, URL-safe token of 44 characters that decodes back to the bytes. A failed read gives the empty string and the error. |
| Sessions.SessionStore.Authorize | backend/user/session.go:55-70 | The request is authorized exactly when the presented email has a session, the session cookie is present and equals the non-empty stored token, and the CSRF header equals the non-empty stored CSRF token. A missing `authInfo` cookie, and only that, is the nil-dereference fault. The map is only read. |
| Sessions.SessionStore.Issue | backend/user/routers.go:133-140 | The email's entry becomes the new pair and every other entry is kept. For that email, exactly the new pair authorizes afterwards, and only when both tokens are non-empty, so earlier tokens stop working unless they equal the new ones. Requests for other emails are judged as before. |
| Sessions.EmptyTokenNeverAuthorizes | backend/user/session.go:62-66 | A stored session with an empty session or CSRF token authorizes no request for its email. |
| Sessions.EachPartMatters | backend/user/session.go:55-70 | Starting from an authorized request, changing only the session cookie or only the CSRF header gives a denial. Dropping the `authInfo` cookie gives the fault. |
| Routers.WriteError | backend/user/routers.go:47-49 | An error is written as its message under the status. A nil error panics. |
| Routers.EmptyFieldCheck | backend/user/routers.go:59-69 | Both fields empty gives "email and password cannot be empty". Otherwise an empty email comes before an empty password. Non-empty fields pass. Each of the four answers holds exactly in its own case. |
| Routers.FormCheck | backend/user/routers.go:52-55 | A body that cannot be parsed gives its parse error. Otherwise the form passes exactly when both fields are non-empty. |
| Routers.RegisterResponse | backend/user/routers.go:70-85 | The answer is 409 exactly for ErrEmailAlreadyExists, 400 exactly for any other error, and 201 with the id exactly on success. |
| Routers.CreateUserHandler | backend/user/routers.go:51-86 | A bad form or an empty field gives 400 before the service runs. Otherwise createUser's error is mapped by RegisterResponse and the table changes as createUser says. The handler never panics. It answers 201 exactly when it added an email that was not there. |
| Routers.LoginCookies | backend/user/routers.go:122-137 | Three cookies are set in order: `authInfo` with the email, readable by scripts; `session_id` with the session token, HttpOnly; `csrf_token` with the CSRF token, readable by scripts. |
| Routers.CookieValue | backend/user/routers.go:122-131 | The value that comes back from a cookie set by http.SetCookie keeps only printable ASCII other than `"`, `;` and `\`. It comes back unchanged exactly when every character is of that kind. |
| Routers.CookieValueAppend | backend/user/routers.go:122-131 | The parts of a value are cleaned independently. |
| Routers.NonAsciiEmailCookie | backend/user/routers.go:122-131 | An email with a letter outside ASCII, such as `josé@gmail.com`, comes back without that letter, so as a different string. |
| Routers.UrlSafeCookieValue | backend/user/session.go:29-53 | A base64url token, and the empty token of a failed read, comes back unchanged. |
| Routers.RoleText | backend/user/routers.go:149 | The role text is empty exactly when the role is NULL or empty, so the response does not tell the two apart; otherwise it is the stored role. |
| Routers.LoginUserHandler | backend/user/routers.go:88-153 | The empty-field precedence applies before any lookup. A lookup error gives 404 and a comparison error gives 500. A wrong password is the nil-error panic. Each of these leaves the session map unchanged. Only an accepted login answers 201 with the id, email, role and three cookies and overwrites the email's session. For an email whose characters a cookie keeps, the returned cookies authorize exactly when both random reads succeeded. For any other email, the returned `authInfo` names another email, and the request is judged as it would have been before the login. |
| Routers.TestHandler | backend/user/routers.go:23-29 | The route answers 200 "success" exactly for an authorized request and 401 "Unauthorized" exactly for a denied one. It panics exactly when the `authInfo` cookie is missing. |
| Scenarios.RegisterTwice | backend/user/routers.go:70-85 | On a fresh table, a second registration of the same valid email is refused with 409 after the first succeeded with 201. |
| Scenarios.RegisteredPool | backend/user/routers.go:51-86 | One valid registration on an empty table leaves exactly the new user's row: the given id, the email, the hash and the time. |
| Scenarios.RegisterThenLogin | backend/user/routers.go:107-140 | A registered user whose password compares equal to its hash logs in with 201 and an empty role. Sending back the cookies is authorized exactly when both random reads succeeded and the email is made of characters a cookie keeps. |
| Scenarios.SecondLoginRevokesFirst | backend/user/routers.go:133-140 | After a second login with a different session token, the first login's tokens no longer authorize and the second login's do. |

## Left out

- **Source files.**
  - backend/server.go and backend/main.go are not part of this model: process start-up, configuration, signals and shutdown.
  - The package-level `pool` variable and its setter are not part of this model. The pool is passed to each operation instead.
- **Input and output.**
  - Invalid UTF-8 is not modelled: passwords are sequences of Unicode scalar values, so a string with invalid bytes cannot be expressed.
  - The HTTP layer is not modelled: chi routing, header writes, JSON encoding and the ULID's text form. A body is a datatype holding the values it would encode.
  - Cookie attributes are not modelled: path, SameSite and the two-minute expiry, which needs the clock.
- **Foreign libraries and system calls.**
  - The Unicode category tables are the `classify` parameter, which maps each rune to one category. Go's tables give each rune one general category, so the five class tests are disjoint.
  - validateEmail is an uninterpreted verdict: parsing under RFC 5322 and the DNS MX lookup are library and network calls. Only the mapping of its two failures to "Email Invalid" and "Domain not found" is modelled.
  - argon2id hashing and comparison are uninterpreted functions. No relation between `createHash` and `compare` is assumed. RegisterThenLogin states as a precondition that the password compares equal to its own hash.
  - crypto/rand is an input. The read's bytes, or its error, are passed to GenerateToken.
  - ULID generation and `time.Now` are inputs.
- **Database.**
  - Postgres is an abstract table keyed by email. SQL text, isolation between concurrent transactions and connection pooling are not modelled. An open transaction is only marked as holding its connection.
  - Store.Tx.Rollback does not model the rollback's own error: createUser ignores it.
  - Repo.SaveOutcome matches the driver error directly. Unwrapping by `errors.As` through wrapped errors is not modelled, since pgx returns a `*pgconn.PgError` unwrapped.
- **Concurrency.** Data races on the unsynchronised `loginSessions` map are out of scope: requests are handled one at a time.
- **Cookies in transit.**
  - Routers.LoginUserHandler, Scenarios.RegisterThenLogin: the browser is modelled as returning each cookie value as http.SetCookie cleaned it (Routers.CookieValue). Expiry, the browser's own cookie rules and a client that changes cookies are not modelled.
  - Scenarios.RegisterThenLogin: the empty role assumes that `users.role` has no DEFAULT. Store.InsertedRow sets every column that the INSERT at repo.go:33 does not name to NULL, and no schema is part of the source.
- **Unused declarations.** `ErrEmailAlreadyExist` (routers.go:16) is declared but never returned, so it has no counterpart.
