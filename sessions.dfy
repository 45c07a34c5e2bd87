/** The session manager of session.go: token generation, the `loginSessions` map and the check
    every protected request goes through. */
module Sessions {
  import opened Outcomes

  type Byte = b: int | 0 <= b < 256

  /** The alphabet of base64url (section 5 of RFC 4648): A-Z, a-z, 0-9, '-' and '_'. */
  function Digit(i: int): (c: char)
    requires 0 <= i < 64
    ensures DigitValue(c) == Some(i)
  {
    if i < 26 then (65 + i) as char
    else if i < 52 then (97 + i - 26) as char
    else if i < 62 then (48 + i - 52) as char
    else if i == 62 then '-'
    else '_'
  }

  /** The value of a base64url digit, if `c` is one. */
  function DigitValue(c: char): (v: Option<int>)
    ensures v.Some? ==> 0 <= v.value < 64
  {
    if 'A' <= c <= 'Z' then Some(c as int - 65)
    else if 'a' <= c <= 'z' then Some(c as int - 97 + 26)
    else if '0' <= c <= '9' then Some(c as int - 48 + 52)
    else if c == '-' then Some(62)
    else if c == '_' then Some(63)
    else None
  }

  const Pad: char := '='

  /** A character that may appear in padded base64url text. */
  predicate UrlSafe(c: char) {
    DigitValue(c).Some? || c == Pad
  }

  /** Every character of `s` may appear in padded base64url text. */
  predicate AllUrlSafe(s: string) {
    forall i :: 0 <= i < |s| ==> UrlSafe(s[i])
  }

  /** Three bytes a, b, c hold 24 bits, read as four 6-bit digits, high bits first: the top six
      bits of a; the low two of a and the top four of b; the low four of b and the top two of c;
      the low six of c. */
  function Digits(a: Byte, b: Byte, c: Byte): (d: seq<int>)
    ensures |d| == 4 && forall i :: 0 <= i < 4 ==> 0 <= d[i] < 64
  {
    [a / 4, a % 4 * 16 + b / 16, b % 16 * 4 + c / 64, c % 64]
  }

  /** The three bytes back from four digits. */
  function Bytes(d0: int, d1: int, d2: int, d3: int): (b: seq<Byte>)
    requires 0 <= d0 < 64 && 0 <= d1 < 64 && 0 <= d2 < 64 && 0 <= d3 < 64
    ensures |b| == 3
  {
    [d0 * 4 + d1 / 16, d1 % 16 * 16 + d2 / 4, d2 % 4 * 64 + d3]
  }

  lemma BytesDigits(a: Byte, b: Byte, c: Byte)
    ensures var d := Digits(a, b, c); Bytes(d[0], d[1], d[2], d[3]) == [a, b, c]
  {
    var d := Digits(a, b, c);
    assert d[1] / 16 == a % 4 && d[1] % 16 == b / 16;
    assert d[2] / 4 == b % 16 && d[2] % 4 == c / 64;
    assert a / 4 * 4 + a % 4 == a;
    assert b / 16 * 16 + b % 16 == b;
    assert c / 64 * 64 + c % 64 == c;
  }

  /** The four characters of a full group of three bytes. */
  function EncodeGroup(a: Byte, b: Byte, c: Byte): (q: string)
    ensures |q| == 4 && AllUrlSafe(q)
  {
    var d := Digits(a, b, c);
    [Digit(d[0]), Digit(d[1]), Digit(d[2]), Digit(d[3])]
  }

  /** A last group of one byte, completed by zero bytes: two digits and two '='. */
  function EncodeOne(a: Byte): (q: string)
    ensures |q| == 4 && AllUrlSafe(q)
  {
    var d := Digits(a, 0, 0);
    [Digit(d[0]), Digit(d[1]), Pad, Pad]
  }

  /** A last group of two bytes, completed by a zero byte: three digits and one '='. */
  function EncodeTwo(a: Byte, b: Byte): (q: string)
    ensures |q| == 4 && AllUrlSafe(q)
  {
    var d := Digits(a, b, 0);
    [Digit(d[0]), Digit(d[1]), Digit(d[2]), Pad]
  }

  /** The bytes of one group of four characters: three, or two before one '=', or one before
      two; nothing for any other text. */
  function DecodeGroup(q: string): Option<seq<Byte>> {
    if |q| != 4 then None
    else
      var v0, v1, v2, v3 := DigitValue(q[0]), DigitValue(q[1]), DigitValue(q[2]), DigitValue(q[3]);
      if v0.None? || v1.None? then None
      else if q[2] == Pad && q[3] == Pad then Some(Bytes(v0.value, v1.value, 0, 0)[..1])
      else if v2.None? then None
      else if q[3] == Pad then Some(Bytes(v0.value, v1.value, v2.value, 0)[..2])
      else if v3.None? then None
      else Some(Bytes(v0.value, v1.value, v2.value, v3.value))
  }

  lemma DecodeEncodeGroup(a: Byte, b: Byte, c: Byte)
    ensures DecodeGroup(EncodeGroup(a, b, c)) == Some([a, b, c])
  {
    BytesDigits(a, b, c);
  }

  lemma DecodeEncodeOne(a: Byte)
    ensures DecodeGroup(EncodeOne(a)) == Some([a])
  {
    var d := Digits(a, 0, 0);
    BytesDigits(a, 0, 0);
    assert Bytes(d[0], d[1], 0, 0)[..1] == [a];
  }

  lemma DecodeEncodeTwo(a: Byte, b: Byte)
    ensures DecodeGroup(EncodeTwo(a, b)) == Some([a, b])
  {
    var d := Digits(a, b, 0);
    BytesDigits(a, b, 0);
    assert Bytes(d[0], d[1], d[2], 0)[..2] == [a, b];
  }

  /** The grouping of base64 (section 4 of RFC 4648): the bytes are taken three at a time, each
      group written as four characters, and a last group of one or two bytes is written with
      padding. How each kind of group is written is a parameter, so that the grouping can be
      reasoned about apart from the alphabet. */
  function Grouped(b: seq<Byte>, full: (Byte, Byte, Byte) -> string, one: Byte -> string,
                   two: (Byte, Byte) -> string): string
    decreases |b|
  {
    if |b| == 0 then ""
    else if |b| == 1 then one(b[0])
    else if |b| == 2 then two(b[0], b[1])
    else full(b[0], b[1], b[2]) + Grouped(b[3..], full, one, two)
  }

  /** Reading text back four characters at a time, with the reading of one group a parameter. */
  function Ungrouped(s: string, group: string -> Option<seq<Byte>>): Option<seq<Byte>>
    decreases |s|
  {
    if s == [] then Some([])
    else if |s| < 4 then None
    else
      match (group(s[..4]), Ungrouped(s[4..], group))
      case (Some(g), Some(rest)) => Some(g + rest)
      case _ => None
  }

  /** Four characters per group, the last one included. */
  lemma {:induction false} GroupedLength(b: seq<Byte>, full: (Byte, Byte, Byte) -> string,
                                         one: Byte -> string, two: (Byte, Byte) -> string)
    requires forall x: Byte, y: Byte, z: Byte :: |full(x, y, z)| == 4
    requires forall x: Byte :: |one(x)| == 4
    requires forall x: Byte, y: Byte :: |two(x, y)| == 4
    ensures |Grouped(b, full, one, two)| == 4 * ((|b| + 2) / 3)
    decreases |b|
  {
    if |b| >= 3 {
      GroupedLength(b[3..], full, one, two);
    }
  }

  /** Text made of URL-safe groups is URL-safe. */
  lemma {:induction false} GroupedUrlSafe(b: seq<Byte>, full: (Byte, Byte, Byte) -> string,
                                          one: Byte -> string, two: (Byte, Byte) -> string)
    requires forall x: Byte, y: Byte, z: Byte :: AllUrlSafe(full(x, y, z))
    requires forall x: Byte :: AllUrlSafe(one(x))
    requires forall x: Byte, y: Byte :: AllUrlSafe(two(x, y))
    ensures AllUrlSafe(Grouped(b, full, one, two))
    decreases |b|
  {
    if |b| >= 3 {
      GroupedUrlSafe(b[3..], full, one, two);
      var g, t := full(b[0], b[1], b[2]), Grouped(b[3..], full, one, two);
      forall i | 0 <= i < |g + t| ensures UrlSafe((g + t)[i]) {
        if i < |g| {
          assert (g + t)[i] == g[i];
        } else {
          assert (g + t)[i] == t[i - |g|];
        }
      }
    }
  }

  /** Reading groups back undoes writing them, whenever each kind of group is read back as the
      bytes it was written from. */
  lemma {:induction false} UngroupGrouped(b: seq<Byte>, full: (Byte, Byte, Byte) -> string,
                                          one: Byte -> string, two: (Byte, Byte) -> string,
                                          group: string -> Option<seq<Byte>>)
    requires forall x: Byte, y: Byte, z: Byte :: |full(x, y, z)| == 4 && group(full(x, y, z)) == Some([x, y, z])
    requires forall x: Byte :: |one(x)| == 4 && group(one(x)) == Some([x])
    requires forall x: Byte, y: Byte :: |two(x, y)| == 4 && group(two(x, y)) == Some([x, y])
    ensures Ungrouped(Grouped(b, full, one, two), group) == Some(b)
    decreases |b|
  {
    var s := Grouped(b, full, one, two);
    if |b| == 1 {
      assert s[..4] == s && s[4..] == [];
      assert [b[0]] + [] == b;
    } else if |b| == 2 {
      assert s[..4] == s && s[4..] == [];
      assert [b[0], b[1]] + [] == b;
    } else if |b| >= 3 {
      UngroupGrouped(b[3..], full, one, two, group);
      var g := full(b[0], b[1], b[2]);
      assert s[..4] == g && s[4..] == Grouped(b[3..], full, one, two);
      assert [b[0], b[1], b[2]] + b[3..] == b;
    }
  }

  /** base64.URLEncoding.EncodeToString: four characters for every three bytes, from the URL-
      safe alphabet, with '=' for the characters of a last short group that stand for no byte. */
  function Encode(b: seq<Byte>): (s: string)
    ensures |s| == 4 * ((|b| + 2) / 3)
  {
    GroupedLength(b, EncodeGroup, EncodeOne, EncodeTwo);
    Grouped(b, EncodeGroup, EncodeOne, EncodeTwo)
  }

  /** The inverse of Encode. */
  function Decode(s: string): Option<seq<Byte>> {
    Ungrouped(s, DecodeGroup)
  }

  /** Every character of an encoding is a digit of the alphabet or padding. */
  lemma EncodeUrlSafe(b: seq<Byte>)
    ensures AllUrlSafe(Encode(b))
  {
    GroupedUrlSafe(b, EncodeGroup, EncodeOne, EncodeTwo);
  }

  /** Each kind of group decodes to the bytes it was encoded from. */
  lemma GroupsDecode()
    ensures forall x: Byte, y: Byte, z: Byte :: DecodeGroup(EncodeGroup(x, y, z)) == Some([x, y, z])
    ensures forall x: Byte :: DecodeGroup(EncodeOne(x)) == Some([x])
    ensures forall x: Byte, y: Byte :: DecodeGroup(EncodeTwo(x, y)) == Some([x, y])
  {
    forall x: Byte, y: Byte, z: Byte ensures DecodeGroup(EncodeGroup(x, y, z)) == Some([x, y, z]) {
      DecodeEncodeGroup(x, y, z);
    }
    forall x: Byte ensures DecodeGroup(EncodeOne(x)) == Some([x]) {
      DecodeEncodeOne(x);
    }
    forall x: Byte, y: Byte ensures DecodeGroup(EncodeTwo(x, y)) == Some([x, y]) {
      DecodeEncodeTwo(x, y);
    }
  }

  /** Decoding undoes encoding, so distinct byte strings give distinct tokens. */
  lemma DecodeEncode(b: seq<Byte>)
    ensures Decode(Encode(b)) == Some(b)
  {
    GroupsDecode();
    UngroupGrouped(b, EncodeGroup, EncodeOne, EncodeTwo, DecodeGroup);
  }

  /** Bytes read from crypto/rand for one token (256 bits). */
  const TokenBytes: nat := 32

  /** Characters of an issued token: 32 bytes make ten full groups and a padded one. */
  const TokenLength: nat := 44

  /** generateToken (session.go:21-27): the base64url encoding of 32 random bytes, or the empty
      string and the error of a failed read. A successful read gives a non-empty, URL-safe token of
      44 characters from which the random bytes can be recovered. */
  function GenerateToken(read: Result<seq<Byte>, string>): (r: (string, Option<Error>))
    requires read.Ok? ==> |read.value| == TokenBytes
    ensures r.1.None? <==> read.Ok?
    ensures read.Err? ==> r == ("", Some(RandError(read.error)))
    ensures read.Ok? ==> && |r.0| == TokenLength && r.0 != ""
                         && AllUrlSafe(r.0)
                         && Decode(r.0) == Some(read.value)
  {
    match read
    case Err(m) => ("", Some(RandError(m)))
    case Ok(bytes) =>
      var token := Encode(bytes);
      assert |token| == 4 * ((TokenBytes + 2) / 3) == TokenLength;
      DecodeEncode(bytes);
      EncodeUrlSafe(bytes);
      (token, None)
  }

  /** A stored login: the session token and the CSRF token. */
  datatype Session = Session(sessionToken: string, csrfToken: string)

  /** What a request presents: the value of the `authInfo` cookie and of the `session_id`
      cookie, if present, and the `X-CSRF-Token` header, empty when absent. */
  datatype AuthRequest = AuthRequest(authInfo: Option<string>, sessionId: Option<string>, csrfHeader: string)

  /** The outcome of Authorize: nil, ErrUnauthorized, or a fault. A request without an
      `authInfo` cookie makes the source dereference the nil cookie it was given, a run-time
      panic rather than an error. */
  datatype AuthResult = Authorized | Denied | NilCookieDereference

  /** The package-level `loginSessions` map, keyed by email. */
  class SessionStore {
    var sessions: map<string, Session>

    constructor ()
      ensures sessions == map[]
    {
      sessions := map[];
    }

    /** Authorize (session.go:55-70): the presented email must have a session, the session
        cookie must be present, non-empty and equal to the stored session token, and the CSRF
        header must be non-empty and equal to the stored CSRF token. Every failure is the same
        ErrUnauthorized, and the map is only read. */
    function Authorize(req: AuthRequest): (r: AuthResult)
      reads this
      ensures r == NilCookieDereference <==> req.authInfo.None?
      ensures r == Authorized <==>
                && req.authInfo.Some? && req.authInfo.value in sessions
                && req.sessionId == Some(sessions[req.authInfo.value].sessionToken)
                && req.csrfHeader == sessions[req.authInfo.value].csrfToken
                && sessions[req.authInfo.value].sessionToken != ""
                && sessions[req.authInfo.value].csrfToken != ""
    {
      match req.authInfo
      case None => NilCookieDereference
      case Some(email) =>
        if email !in sessions then Denied
        else
          var session := sessions[email];
          if req.sessionId.None? || req.sessionId.value == ""
             || req.sessionId.value != session.sessionToken then Denied
          else if req.csrfHeader != session.csrfToken || req.csrfHeader == "" then Denied
          else Authorized
    }

    /** The session update of a successful login (routers.go:133-140): the entry for `email`,
        read with the zero session as default, gets both new tokens and is stored back. Every
        other entry is kept. For that email, only the new pair authorizes afterwards, and only
        when both tokens are non-empty; requests for other emails are judged as before. */
    method Issue(email: string, sessionToken: string, csrfToken: string)
      modifies this
      ensures sessions == old(sessions)[email := Session(sessionToken, csrfToken)]
      ensures forall req: AuthRequest | req.authInfo == Some(email) ::
                Authorize(req) == Authorized <==>
                  req.sessionId == Some(sessionToken) && req.csrfHeader == csrfToken
                  && sessionToken != "" && csrfToken != ""
      ensures forall req: AuthRequest | req.authInfo != Some(email) ::
                Authorize(req) == old(Authorize(req))
    {
      var loginSession := if email in sessions then sessions[email] else Session("", "");
      loginSession := loginSession.(sessionToken := sessionToken);
      loginSession := loginSession.(csrfToken := csrfToken);
      sessions := sessions[email := loginSession];
    }
  }

  /** A stored session with an empty token, such as one issued after a failed random read,
      authorizes no request at all. */
  lemma EmptyTokenNeverAuthorizes(store: SessionStore, email: string, req: AuthRequest)
    requires email in store.sessions
    requires store.sessions[email].sessionToken == "" || store.sessions[email].csrfToken == ""
    requires req.authInfo == Some(email)
    ensures store.Authorize(req) == Denied
  {
  }

  /** No partial credit: from an authorized request, changing the session cookie or the CSRF
      header alone makes it unauthorized, and dropping the `authInfo` cookie makes it fault. */
  lemma EachPartMatters(store: SessionStore, req: AuthRequest, sessionId: Option<string>, csrf: string)
    requires store.Authorize(req) == Authorized
    ensures sessionId != req.sessionId ==> store.Authorize(req.(sessionId := sessionId)) == Denied
    ensures csrf != req.csrfHeader ==> store.Authorize(req.(csrfHeader := csrf)) == Denied
    ensures store.Authorize(req.(authInfo := None)) == NilCookieDereference
  {
  }
}
