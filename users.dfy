/** The user record of user.go and the operations that build it and change its password. The
    argon2id library, the email check and the Unicode tables are not interpreted: they are the
    fields of a `Platform` value that every operation receives. */
module Users {
  import opened Outcomes
  import opened Validator

  /** A ULID, 128 bits wide; 0 is Go's zero value `ulid.ULID{}`. */
  type Ulid = x: nat | x < 0x1_0000_0000_0000_0000_0000_0000_0000_0000

  /** An instant of time.Time, left uninterpreted; 0 stands for the zero time. */
  type Time = int

  /** The User struct. `null.Time` and `null.String` fields are options. */
  datatype User = User(
    email: string,
    password: string,            // the argon2id hash string, never the plaintext
    createdAt: Time,
    updatedAt: Option<Time>,
    username: Option<string>,
    role: Option<string>,
    id: Ulid)

  /** Go's zero value `User{}`, returned beside every error. */
  const ZeroUser: User := User("", "", 0, None, None, None, 0)

  /** What validateEmail (validator.go:44-55) finds: the address parses and its domain has an MX
      record, or the parse fails, or the MX lookup fails. */
  datatype EmailVerdict = Deliverable | Unparsable | NoMxRecord

  /** The library calls the package makes and the model leaves uninterpreted. */
  datatype Platform = Platform(
    classify: Classifier,                                // the unicode tables
    checkEmail: string -> EmailVerdict,                  // mail.ParseAddress, then net.LookupMX
    createHash: string -> Result<string, string>,        // argon2id.CreateHash
    compare: (string, string) -> Result<bool, string>)   // argon2id.ComparePasswordAndHash

  /** validateEmail's errors: "Email Invalid" for a failed parse, "Domain not found" for a failed
      MX lookup. */
  function ValidateEmail(p: Platform, email: string): (r: Option<Error>)
    ensures r.None? <==> p.checkEmail(email) == Deliverable
    ensures p.checkEmail(email) == Unparsable ==> r == Some(EmailInvalid)
    ensures p.checkEmail(email) == NoMxRecord ==> r == Some(DomainNotFound)
  {
    match p.checkEmail(email)
    case Deliverable => None
    case Unparsable => Some(EmailInvalid)
    case NoMxRecord => Some(DomainNotFound)
  }

  /** encryptPassword (user.go:56-63): the hash string, or the empty string and the library's
      error. */
  function EncryptPassword(p: Platform, password: string): (r: (string, Option<Error>))
    ensures r.1.Some? <==> p.createHash(password).Err?
    ensures r.1.Some? ==> r.0 == "" && r.1 == Some(HashError(p.createHash(password).error))
    ensures r.1.None? ==> p.createHash(password) == Ok(r.0)
  {
    match p.createHash(password)
    case Err(m) => ("", Some(HashError(m)))
    case Ok(h) => (h, None)
  }

  /** verifyPassword (user.go:65-75): whether the plaintext matches the stored hash; a failed
      comparison never reports a match. */
  function VerifyPassword(p: Platform, userPassword: string, passwordHash: string)
    : (r: (bool, Option<Error>))
    ensures r.1.Some? <==> p.compare(userPassword, passwordHash).Err?
    ensures r.1.Some? ==> !r.0 && r.1 == Some(HashError(p.compare(userPassword, passwordHash).error))
    ensures r.0 <==> p.compare(userPassword, passwordHash) == Ok(true)
  {
    match p.compare(userPassword, passwordHash)
    case Err(m) => (false, Some(HashError(m)))
    case Ok(b) => (b, None)
  }

  /** NewUser (user.go:21-41): the email is checked first, then the password, then the password
      is hashed; the first failure is returned beside the zero User. On success the record holds
      the given email, the hash of the password, a fresh id and the creation time, and no update
      time, username or role. */
  function NewUser(p: Platform, email: string, password: string, freshId: Ulid, now: Time)
    : (r: (User, Option<Error>))
    ensures r.1.Some? ==> r.0 == ZeroUser
    ensures ValidateEmail(p, email).Some? ==> r.1 == ValidateEmail(p, email)
    ensures ValidateEmail(p, email).None? && Verdict(p.classify, password).Some?
            ==> r.1 == Verdict(p.classify, password)
    ensures ValidateEmail(p, email).None? && Verdict(p.classify, password).None?
            ==> r.1 == EncryptPassword(p, password).1
    ensures r.1.None? <==> && p.checkEmail(email) == Deliverable
                           && Acceptable(p.classify, password)
                           && p.createHash(password).Ok?
    ensures r.1.None? ==> r.0 == User(email, p.createHash(password).value, now, None, None, None, freshId)
  {
    if ValidateEmail(p, email).Some? then (ZeroUser, ValidateEmail(p, email))
    else if Verdict(p.classify, password).Some? then (ZeroUser, Verdict(p.classify, password))
    else
      var (hash, err) := EncryptPassword(p, password);
      if err.Some? then (ZeroUser, err)
      else (User(email, hash, now, None, None, None, freshId), None)
  }

  /** A `*User`: a heap cell holding a user record, which ChangePassword updates in place. */
  class UserRef {
    var user: User

    constructor (u: User)
      ensures user == u
    {
      user := u;
    }

    /** ChangePassword (user.go:43-54): a rejected password or a failed hash leaves the record
        untouched; otherwise only the hash and the update time change. */
    method ChangePassword(p: Platform, newPassword: string, now: Time) returns (err: Option<Error>)
      modifies this
      ensures err.None? <==> Acceptable(p.classify, newPassword) && p.createHash(newPassword).Ok?
      ensures Verdict(p.classify, newPassword).Some? ==> err == Verdict(p.classify, newPassword)
      ensures Verdict(p.classify, newPassword).None? && p.createHash(newPassword).Err?
              ==> err == Some(HashError(p.createHash(newPassword).error))
      ensures err.Some? ==> user == old(user)
      ensures err.None? ==> user == old(user).(password := p.createHash(newPassword).value,
                                                updatedAt := Some(now))
    {
      err := ValidatePassword(p.classify, newPassword);
      if err.Some? {
        return;
      }
      var (passwordHash, hashErr) := EncryptPassword(p, newPassword);
      if hashErr.Some? {
        return hashErr;
      }
      user := user.(password := passwordHash, updatedAt := Some(now));
    }
  }
}
