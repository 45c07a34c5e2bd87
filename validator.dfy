/** The password policy of validator.go. Passwords are Dafny strings, that is, sequences of
    Unicode scalar values, which is what Go's `range` over a well-formed UTF-8 string yields. */
module Validator {
  import opened Outcomes

  /** The category group of a rune as the five `unicode` predicates used by validatePassword see
      it: IsLower is category Ll, IsUpper Lu, IsDigit Nd, IsSymbol the S categories and IsPunct
      the P categories. A rune has exactly one category, so the five tests are pairwise disjoint. */
  datatype Category = Lower | Upper | Digit | Symbol | Punct | Other

  /** Unicode's category table, a parameter of the model. */
  type Classifier = char -> Category

  predicate IsLower(gc: Classifier, r: char) { gc(r) == Lower }
  predicate IsUpper(gc: Classifier, r: char) { gc(r) == Upper }
  predicate IsDigit(gc: Classifier, r: char) { gc(r) == Digit }
  predicate IsSymbol(gc: Classifier, r: char) { gc(r) == Symbol }
  predicate IsPunct(gc: Classifier, r: char) { gc(r) == Punct }

  /** Number of bytes of the UTF-8 encoding of one scalar value. */
  function Utf8Len(r: char): (n: nat)
    ensures 1 <= n <= 4
    ensures n == 1 <==> r as int < 0x80
  {
    if r as int < 0x80 then 1
    else if r as int < 0x800 then 2
    else if r as int < 0x1_0000 then 3
    else 4
  }

  /** Go's `len(s)`: the number of bytes of the UTF-8 encoding of `s`, which lies between one
      and four bytes per rune. */
  function ByteLen(s: string): (n: nat)
    ensures |s| <= n <= 4 * |s|
  {
    if s == [] then 0 else Utf8Len(s[0]) + ByteLen(s[1..])
  }

  /** The policy's length bound, in bytes. */
  const MinPasswordBytes: nat := 8

  /** `s` holds at least one rune of category `k`. */
  predicate Has(gc: Classifier, s: string, k: Category) {
    exists i :: 0 <= i < |s| && gc(s[i]) == k
  }

  /** The categories that occur in `s`. */
  function Categories(gc: Classifier, s: string): set<Category> {
    set i | 0 <= i < |s| :: gc(s[i])
  }

  /** Every rule of the policy that `s` breaks, in the order the validator checks them: the
      length first, then lower case, upper case, digit, and symbol-or-punctuation. */
  function Violations(gc: Classifier, s: string): seq<Error> {
    (if ByteLen(s) < MinPasswordBytes then [PasswordTooShort] else [])
    + (if Has(gc, s, Lower) then [] else [NoLowercase])
    + (if Has(gc, s, Upper) then [] else [NoUppercase])
    + (if Has(gc, s, Digit) then [] else [NoDigit])
    + (if Has(gc, s, Symbol) || Has(gc, s, Punct) then [] else [NoSymbol])
  }

  /** The verdict the policy calls for: the first broken rule, or none. */
  function Verdict(gc: Classifier, s: string): Option<Error> {
    var v := Violations(gc, s);
    if v == [] then None else Some(v[0])
  }

  /** A password the policy accepts. */
  predicate Acceptable(gc: Classifier, s: string) {
    && ByteLen(s) >= MinPasswordBytes
    && Has(gc, s, Lower) && Has(gc, s, Upper) && Has(gc, s, Digit)
    && (Has(gc, s, Symbol) || Has(gc, s, Punct))
  }

  /** A rune appended to a prefix adds its own category and keeps every category already seen,
      so a flag that tracks "category seen so far" is only ever switched on. */
  lemma {:induction false} HasSnoc(gc: Classifier, s: string, r: char, k: Category)
    ensures Has(gc, s + [r], k) <==> Has(gc, s, k) || gc(r) == k
  {
    var t := s + [r];
    if Has(gc, s, k) {
      var i :| 0 <= i < |s| && gc(s[i]) == k;
      assert t[i] == s[i];
    }
    if gc(r) == k {
      assert t[|s|] == r;
    }
    if Has(gc, t, k) {
      var i :| 0 <= i < |t| && gc(t[i]) == k;
      if i < |s| {
        assert t[i] == s[i];
      }
    }
  }

  /** validatePassword (validator.go:11-42): the byte length is checked before any rune is
      examined; one pass over the runes sets the four class flags through the same switch as the
      source, whose last case reads `(!isSym && IsSymbol(r)) || IsPunct(r)`; the missing classes
      are then reported in the fixed order lower, upper, digit, symbol. */
  method ValidatePassword(gc: Classifier, password: string) returns (err: Option<Error>)
    ensures err == Verdict(gc, password)
    ensures err.None? <==> Acceptable(gc, password)
    ensures ByteLen(password) < MinPasswordBytes ==> err == Some(PasswordTooShort)
  {
    if ByteLen(password) < MinPasswordBytes {
      return Some(PasswordTooShort);
    }
    var isLower, isUpper, isSym, isDigit := false, false, false, false;
    for i := 0 to |password|
      invariant isLower == Has(gc, password[..i], Lower)
      invariant isUpper == Has(gc, password[..i], Upper)
      invariant isDigit == Has(gc, password[..i], Digit)
      invariant isSym == (Has(gc, password[..i], Symbol) || Has(gc, password[..i], Punct))
    {
      var r := password[i];
      assert password[..i + 1] == password[..i] + [r];
      HasSnoc(gc, password[..i], r, Lower);
      HasSnoc(gc, password[..i], r, Upper);
      HasSnoc(gc, password[..i], r, Digit);
      HasSnoc(gc, password[..i], r, Symbol);
      HasSnoc(gc, password[..i], r, Punct);
      if !isLower && IsLower(gc, r) {
        isLower := true;
      } else if !isUpper && IsUpper(gc, r) {
        isUpper := true;
      } else if !isDigit && IsDigit(gc, r) {
        isDigit := true;
      } else if (!isSym && IsSymbol(gc, r)) || IsPunct(gc, r) {
        isSym := true;
      }
    }
    assert password[..|password|] == password;
    if !isLower {
      return Some(NoLowercase);
    }
    if !isUpper {
      return Some(NoUppercase);
    }
    if !isDigit {
      return Some(NoDigit);
    }
    if !isSym {
      return Some(NoSymbol);
    }
    return None;
  }

  /** The reported error follows the priority order: an error about a class means the password
      is long enough and has every class of higher priority. */
  lemma VerdictPriority(gc: Classifier, s: string)
    ensures Verdict(gc, s) == Some(PasswordTooShort) <==> ByteLen(s) < MinPasswordBytes
    ensures Verdict(gc, s) == Some(NoLowercase)
            <==> ByteLen(s) >= MinPasswordBytes && !Has(gc, s, Lower)
    ensures Verdict(gc, s) == Some(NoUppercase)
            <==> ByteLen(s) >= MinPasswordBytes && Has(gc, s, Lower) && !Has(gc, s, Upper)
    ensures Verdict(gc, s) == Some(NoDigit)
            <==> ByteLen(s) >= MinPasswordBytes && Has(gc, s, Lower) && Has(gc, s, Upper)
                 && !Has(gc, s, Digit)
    ensures Verdict(gc, s) == Some(NoSymbol)
            <==> ByteLen(s) >= MinPasswordBytes && Has(gc, s, Lower) && Has(gc, s, Upper)
                 && Has(gc, s, Digit) && !Has(gc, s, Symbol) && !Has(gc, s, Punct)
  {
  }

  /** The byte length splits over concatenation. */
  lemma {:induction false} ByteLenAppend(s: string, t: string)
    ensures ByteLen(s + t) == ByteLen(s) + ByteLen(t)
  {
    if s != [] {
      assert (s + t)[1..] == s[1..] + t;
      ByteLenAppend(s[1..], t);
    } else {
      assert s + t == t;
    }
  }

  /** Reordering the runes keeps the byte length. */
  lemma {:induction false} ByteLenPermutation(s: string, t: string)
    requires multiset(s) == multiset(t)
    ensures ByteLen(s) == ByteLen(t)
    decreases |s|
  {
    if s == [] {
      assert |t| == |multiset(t)| == 0;
    } else {
      var r := s[0];
      assert r in multiset(t);
      var j :| 0 <= j < |t| && t[j] == r;
      var rest := t[..j] + t[j + 1..];
      assert t == t[..j] + [r] + t[j + 1..];
      assert s == [r] + s[1..];
      assert multiset(t) == multiset(t[..j]) + multiset{r} + multiset(t[j + 1..]);
      assert multiset(s) == multiset{r} + multiset(s[1..]);
      assert multiset(rest) == multiset(t[..j]) + multiset(t[j + 1..]);
      assert multiset(s[1..]) == multiset(s) - multiset{r};
      assert multiset(rest) == multiset(t) - multiset{r};
      assert multiset(s[1..]) == multiset(rest);
      ByteLenPermutation(s[1..], rest);
      ByteLenAppend(t[..j] + [r], t[j + 1..]);
      ByteLenAppend(t[..j], [r]);
      ByteLenAppend(t[..j], t[j + 1..]);
      assert ByteLen([r]) == Utf8Len(r);
    }
  }

  /** A category occurs in `s` exactly when it is among the categories of `s`. */
  lemma HasIffCategory(gc: Classifier, s: string, k: Category)
    ensures Has(gc, s, k) <==> k in Categories(gc, s)
  {
    if k in Categories(gc, s) {
      var i :| 0 <= i < |s| && gc(s[i]) == k;
    }
  }

  /** The verdict depends on the password only through its byte length and the set of
      categories that occur in it. */
  lemma VerdictDeterminedByLengthAndCategories(gc: Classifier, s: string, t: string)
    requires ByteLen(s) == ByteLen(t)
    requires Categories(gc, s) == Categories(gc, t)
    ensures Verdict(gc, s) == Verdict(gc, t)
  {
    forall k: Category ensures Has(gc, s, k) == Has(gc, t, k) {
      HasIffCategory(gc, s, k);
      HasIffCategory(gc, t, k);
    }
  }

  /** So the order of the runes never matters: two passwords with the same runes, counted with
      multiplicity, get the same verdict. */
  lemma VerdictIgnoresOrder(gc: Classifier, s: string, t: string)
    requires multiset(s) == multiset(t)
    ensures Verdict(gc, s) == Verdict(gc, t)
  {
    ByteLenPermutation(s, t);
    forall k | k in Categories(gc, s) ensures k in Categories(gc, t) {
      var i :| 0 <= i < |s| && gc(s[i]) == k;
      assert s[i] in multiset(t);
      var j :| 0 <= j < |t| && t[j] == s[i];
    }
    forall k | k in Categories(gc, t) ensures k in Categories(gc, s) {
      var j :| 0 <= j < |t| && gc(t[j]) == k;
      assert t[j] in multiset(s);
      var i :| 0 <= i < |s| && s[i] == t[j];
    }
    VerdictDeterminedByLengthAndCategories(gc, s, t);
  }

  /** The length rule counts bytes, not runes: six runes, two of them two-byte letters, make
      eight bytes, and the password passes once the four classes are present. */
  lemma MultibyteRunesPassLengthRule(gc: Classifier)
    requires gc('A') == Upper && gc('a') == Lower && gc('1') == Digit && gc('!') == Punct
    ensures |"Aa1!éé"| == 6 < MinPasswordBytes
    ensures ByteLen("Aa1!éé") == MinPasswordBytes
    ensures Verdict(gc, "Aa1!éé") == None
  {
    var s := "Aa1!éé";
    assert ByteLen(s[5..]) == 2;
    assert ByteLen(s[4..]) == 4;
    assert ByteLen(s[3..]) == 5;
    assert ByteLen(s[2..]) == 6;
    assert ByteLen(s[1..]) == 7;
    assert gc(s[0]) == Upper && gc(s[1]) == Lower && gc(s[2]) == Digit && gc(s[3]) == Punct;
  }
}
