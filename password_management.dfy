/**
 * `PasswordManagement`: password verification and hashing, kept as contracts
 * over an abstract hasher, and the `IsPasswordStrong` character-class scan.
 */
module PasswordManagement {
  import opened Wrappers
  import opened DotNetText

  /** `PasswordVerificationResult` of ASP.NET Core Identity. */
  datatype VerificationResult = Failed | Success | SuccessRehashNeeded

  /**
   * The two unrelated hashing schemes the service uses:
   *  - `identityHash(password, salt)` is `PasswordHasher<User>.HashPassword`,
   *    whose random salt is made a parameter, and `identityVerify(stored, entered)`
   *    is `VerifyHashedPassword`;
   *  - `hmacDigest(key, password)` is the Base64 HMAC-SHA512 digest of the
   *    password under a freshly generated key.
   */
  datatype Hasher = Hasher(
    identityHash: (string, string) -> string,
    identityVerify: (string, string) -> VerificationResult,
    hmacDigest: (string, string) -> string)

  /** The only property the model assumes of the hasher: Identity verifies its own hashes. */
  ghost predicate Sound(h: Hasher) {
    forall password, salt :: h.identityVerify(h.identityHash(password, salt), password) != Failed
  }

  /** `VerifyPassword`: both `Success` and `SuccessRehashNeeded` accept the password. */
  function VerifyPassword(h: Hasher, entered: string, storedHash: string): (ok: bool)
    ensures ok <==> h.identityVerify(storedHash, entered) in {Success, SuccessRehashNeeded}
  {
    h.identityVerify(storedHash, entered) != Failed
  }

  lemma VerifyAcceptsIdentityHash(h: Hasher, password: string, salt: string)
    requires Sound(h)
    ensures VerifyPassword(h, password, h.identityHash(password, salt))
  {
  }

  /** The pair `(Hash, Salt)` returned by `HashPassword`. */
  datatype HashResult = HashResult(hash: string, salt: string)

  /** `HashPassword`: the HMAC digest of the password under the key `key`, which is
      returned as the salt. */
  function HashPassword(h: Hasher, password: string, key: string): (r: HashResult)
    ensures r.salt == key
    ensures r.hash == h.hmacDigest(key, password)
  {
    HashResult(h.hmacDigest(key, password), key)
  }

  /** How a handler turns the new password into the hash it stores: the
      `Hash` half of `HashPassword` under a key that is then discarded (what
      `ChangePassword` and `ResetPassword` do), or Identity's hash under a salt
      (what `Register` does, and what `VerifyPassword` accepts). */
  datatype HashScheme = HmacDigest(key: string) | IdentityHash(salt: string)

  function StoredHash(h: Hasher, scheme: HashScheme, password: string): (hash: string)
    ensures scheme.HmacDigest? ==> hash == HashPassword(h, password, scheme.key).hash
    ensures scheme.IdentityHash? ==> hash == h.identityHash(password, scheme.salt)
  {
    match scheme
    case HmacDigest(key) => HashPassword(h, password, key).hash
    case IdentityHash(salt) => h.identityHash(password, salt)
  }

  /** The lengths the two algorithms fix: the 64-byte HMAC-SHA512 digest is 88
      Base64 characters, and Identity's version-3 hash (a 13-byte header, a
      16-byte salt and a 32-byte subkey) is 84. */
  const HmacDigestLength: nat := 88
  const IdentityHashLength: nat := 84

  ghost predicate StandardLengths(h: Hasher) {
    && (forall key, password :: |h.hmacDigest(key, password)| == HmacDigestLength)
    && (forall password, salt :: |h.identityHash(password, salt)| == IdentityHashLength)
  }

  /** Under either scheme the stored hash has the algorithm's fixed length. */
  lemma StoredHashLength(h: Hasher, scheme: HashScheme, password: string)
    ensures StandardLengths(h) ==>
              |StoredHash(h, scheme, password)| == if scheme.HmacDigest? then HmacDigestLength else IdentityHashLength
  {
  }

  /** The flag a character sets in the `if … else if …` chain of `IsPasswordStrong`. */
  datatype CharClass = Upper | Lower | Digit | Special | Unclassified

  function ClassOf(cat: Classifier, c: char): (k: CharClass)
    ensures k == Upper <==> IsUpper(cat, c)
    ensures k == Lower <==> IsLower(cat, c)
    ensures k == Digit <==> IsDigit(cat, c)
    ensures k == Special <==> !IsLetterOrDigit(cat, c)
  {
    if IsUpper(cat, c) then Upper
    else if IsLower(cat, c) then Lower
    else if IsDigit(cat, c) then Digit
    else if !IsLetterOrDigit(cat, c) then Special
    else Unclassified
  }

  predicate Has(cat: Classifier, p: string, k: CharClass) {
    exists i | 0 <= i < |p| :: ClassOf(cat, p[i]) == k
  }

  /** What `IsPasswordStrong` decides: not blank, at least 8 characters, and at
      least one upper-case letter, lower-case letter, decimal digit and
      character that is neither a letter nor a digit. */
  predicate IsStrong(cat: Classifier, p: string) {
    && !IsBlank(p)
    && |p| >= 8
    && Has(cat, p, Upper) && Has(cat, p, Lower) && Has(cat, p, Digit) && Has(cat, p, Special)
  }

  /** `IsPasswordStrong`: the early length test, then one pass that raises four flags. */
  method IsPasswordStrong(cat: Classifier, password: string) returns (strong: bool)
    ensures strong <==> IsStrong(cat, password)
  {
    if IsBlank(password) || |password| < 8 {
      return false;
    }
    var hasUpper, hasLower, hasDigit, hasSpecial := false, false, false, false;
    for i := 0 to |password|
      invariant hasUpper <==> Has(cat, password[..i], Upper)
      invariant hasLower <==> Has(cat, password[..i], Lower)
      invariant hasDigit <==> Has(cat, password[..i], Digit)
      invariant hasSpecial <==> Has(cat, password[..i], Special)
    {
      var c := password[i];
      if IsUpper(cat, c) {
        hasUpper := true;
      } else if IsLower(cat, c) {
        hasLower := true;
      } else if IsDigit(cat, c) {
        hasDigit := true;
      } else if !IsLetterOrDigit(cat, c) {
        hasSpecial := true;
      }
      assert password[..i + 1] == password[..i] + [c];
      HasSnoc(cat, password[..i], c, Upper);
      HasSnoc(cat, password[..i], c, Lower);
      HasSnoc(cat, password[..i], c, Digit);
      HasSnoc(cat, password[..i], c, Special);
    }
    assert password[..|password|] == password;
    strong := hasUpper && hasLower && hasDigit && hasSpecial;
  }

  lemma HasSnoc(cat: Classifier, p: string, c: char, k: CharClass)
    ensures Has(cat, p + [c], k) <==> Has(cat, p, k) || ClassOf(cat, c) == k
  {
    if Has(cat, p + [c], k) {
      var i :| 0 <= i < |p| + 1 && ClassOf(cat, (p + [c])[i]) == k;
      if i < |p| {
        assert ClassOf(cat, p[i]) == k;
      }
    }
    if Has(cat, p, k) {
      var i :| 0 <= i < |p| && ClassOf(cat, p[i]) == k;
      assert (p + [c])[i] == p[i];
    }
    if ClassOf(cat, c) == k {
      assert (p + [c])[|p|] == c;
    }
  }

  /** Which classes a password holds depends only on its characters. */
  lemma {:induction false} HasDependsOnMultiset(cat: Classifier, p: string, q: string, k: CharClass)
    requires multiset(p) == multiset(q)
    ensures Has(cat, p, k) == Has(cat, q, k)
  {
    if Has(cat, p, k) {
      var i :| 0 <= i < |p| && ClassOf(cat, p[i]) == k;
      assert p[i] in multiset(q);
      var j :| 0 <= j < |q| && q[j] == p[i];
    }
    if Has(cat, q, k) {
      var j :| 0 <= j < |q| && ClassOf(cat, q[j]) == k;
      assert q[j] in multiset(p);
      var i :| 0 <= i < |p| && p[i] == q[j];
    }
  }

  /** The scan only raises flags, so reordering the characters does not change the verdict. */
  lemma {:induction false} StrengthIgnoresOrder(cat: Classifier, p: string, q: string)
    requires multiset(p) == multiset(q)
    ensures IsStrong(cat, p) == IsStrong(cat, q)
  {
    assert |p| == |multiset(p)| == |q|;
    HasDependsOnMultiset(cat, p, q, Upper);
    HasDependsOnMultiset(cat, p, q, Lower);
    HasDependsOnMultiset(cat, p, q, Digit);
    HasDependsOnMultiset(cat, p, q, Special);
    if !IsBlank(p) {
      var i :| 0 <= i < |p| && !IsWhiteSpace(p[i]);
      assert p[i] in multiset(q);
      var j :| 0 <= j < |q| && q[j] == p[i];
    }
    if !IsBlank(q) {
      var j :| 0 <= j < |q| && !IsWhiteSpace(q[j]);
      assert q[j] in multiset(p);
      var i :| 0 <= i < |p| && p[i] == q[j];
    }
  }

  /** Adding characters never lowers a flag, so a strong password stays strong. */
  lemma {:induction false} StrengthSurvivesAppend(cat: Classifier, p: string, q: string)
    requires IsStrong(cat, p)
    ensures IsStrong(cat, p + q)
  {
    forall k | k in [Upper, Lower, Digit, Special]
      ensures Has(cat, p + q, k)
    {
      var i :| 0 <= i < |p| && ClassOf(cat, p[i]) == k;
      assert (p + q)[i] == p[i];
    }
    var i :| 0 <= i < |p| && !IsWhiteSpace(p[i]);
    assert (p + q)[i] == p[i];
  }

  /** A password with every class but shorter than 8 characters is weak, as is a long one missing a class. */
  lemma StrengthExamples()
    ensures IsStrong(AsciiCategory, "Passw0rd!")
    ensures !IsStrong(AsciiCategory, "Pa0!")
    ensures !IsStrong(AsciiCategory, "password0!")
  {
    var p := "Passw0rd!";
    assert ClassOf(AsciiCategory, p[0]) == Upper;
    assert ClassOf(AsciiCategory, p[1]) == Lower;
    assert ClassOf(AsciiCategory, p[5]) == Digit;
    assert ClassOf(AsciiCategory, p[8]) == Special;
    assert !IsWhiteSpace(p[0]);
    var w := "password0!";
    assert forall i | 0 <= i < |w| :: ClassOf(AsciiCategory, w[i]) != Upper;
  }
}
