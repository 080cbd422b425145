/** Stored passwords: `hashPassword` writes `scrypt$<salt>$<hash>` with both
    parts in `base64url`; `verifyPassword` parses that form (or a four-part
    form with a parameter field) and also accepts legacy plain-text values.
    `scryptSync(password, salt, 64)` is a parameter of the model. */
module Password {
  import opened Text
  import B = Base64Url

  /** `scryptSync(password, salt, 64)`. */
  type Kdf = (string, seq<B.Byte>) -> seq<B.Byte>

  const Prefix: string := "scrypt$"

  /** `hashPassword(password)` with the salt `randomBytes(16)` supplied. */
  function HashPassword(password: string, salt: seq<B.Byte>, kdf: Kdf): (stored: string)
    requires |salt| == 16
    ensures StartsWith(stored, Prefix)
    ensures Split(stored, '$') == ["scrypt", B.Encode(salt), B.Encode(kdf(password, salt))]
  {
    var saltPart := B.Encode(salt);
    var hashPart := B.Encode(kdf(password, salt));
    B.EncodeAlphabet(salt);
    B.EncodeAlphabet(kdf(password, salt));
    HashShape(saltPart, hashPart);
    Prefix + saltPart + "$" + hashPart
  }

  /** A stored string in the `scrypt$salt$hash` shape splits into three parts. */
  lemma HashShape(saltPart: string, hashPart: string)
    requires '$' !in saltPart && '$' !in hashPart
    ensures StartsWith(Prefix + saltPart + "$" + hashPart, Prefix)
    ensures Split(Prefix + saltPart + "$" + hashPart, '$') == ["scrypt", saltPart, hashPart]
  {
    var s := Prefix + saltPart + "$" + hashPart;
    assert s[..|Prefix|] == Prefix;
    assert s == "scrypt" + ['$'] + saltPart + ['$'] + hashPart;
    assert '$' !in "scrypt";
    SplitThree("scrypt", saltPart, hashPart, '$');
  }

  /** `verifyPassword(password, stored)`. */
  function VerifyPassword(password: string, stored: string, kdf: Kdf): (ok: bool)
    ensures !StartsWith(stored, Prefix) ==> (ok <==> password == stored)
    ensures StartsWith(stored, Prefix) && |Split(stored, '$')| != 3 && |Split(stored, '$')| != 4 ==> !ok
    ensures StartsWith(stored, Prefix) && (|Split(stored, '$')| == 3 || |Split(stored, '$')| == 4) ==>
      var parts := Split(stored, '$');
      var n := |parts|;
      (ok <==> kdf(password, B.Decode(parts[n - 2])) == B.Decode(parts[n - 1]))
  {
    if !StartsWith(stored, Prefix) then password == stored
    else
      var parts := Split(stored, '$');
      if |parts| != 3 && |parts| != 4 then false
      else
        var saltPart := if |parts| == 3 then parts[1] else parts[2];
        var hashPart := if |parts| == 3 then parts[2] else parts[3];
        var salt := B.Decode(saltPart);
        var expected := B.Decode(hashPart);
        var actual := kdf(password, salt);
        if |actual| != |expected| then false
        else actual == expected
  }

  // ---------------------------------------------------------------------
  // Properties

  /** A password checks against a stored hash exactly when the key
      derivation of the attempt, with the stored salt, equals that of the
      original; in particular the original password always checks. */
  lemma VerifyHashed(attempt: string, password: string, salt: seq<B.Byte>, kdf: Kdf)
    requires |salt| == 16
    ensures VerifyPassword(attempt, HashPassword(password, salt, kdf), kdf)
            <==> kdf(attempt, salt) == kdf(password, salt)
    ensures VerifyPassword(password, HashPassword(password, salt, kdf), kdf)
  {
    B.RoundTrip(salt);
    B.RoundTrip(kdf(password, salt));
  }

  /** The four-part form `scrypt$<params>$<salt>$<hash>` takes the salt and
      hash from the last two parts and ignores the parameter field. */
  lemma FourPartForm(attempt: string, params: string, password: string, salt: seq<B.Byte>, kdf: Kdf)
    requires '$' !in params
    ensures var stored := Prefix + params + "$" + B.Encode(salt) + "$" + B.Encode(kdf(password, salt));
      VerifyPassword(attempt, stored, kdf) <==> kdf(attempt, salt) == kdf(password, salt)
  {
    var saltPart := B.Encode(salt);
    var hashPart := B.Encode(kdf(password, salt));
    B.EncodeAlphabet(salt);
    B.EncodeAlphabet(kdf(password, salt));
    FourPartShape(params, saltPart, hashPart);
    B.RoundTrip(salt);
    B.RoundTrip(kdf(password, salt));
  }

  /** A stored string in the `scrypt$params$salt$hash` shape splits into
      four parts. */
  lemma FourPartShape(params: string, saltPart: string, hashPart: string)
    requires '$' !in params && '$' !in saltPart && '$' !in hashPart
    ensures var stored := Prefix + params + "$" + saltPart + "$" + hashPart;
      StartsWith(stored, Prefix) && Split(stored, '$') == ["scrypt", params, saltPart, hashPart]
  {
    var stored := Prefix + params + "$" + saltPart + "$" + hashPart;
    var rest := params + ['$'] + saltPart + ['$'] + hashPart;
    assert stored[..|Prefix|] == Prefix;
    assert stored == "scrypt" + ['$'] + rest;
    assert '$' !in "scrypt";
    SplitCons("scrypt", '$', rest);
    SplitThree(params, saltPart, hashPart, '$');
  }

  /** A stored value with the prefix but the wrong number of `$`-separated
      parts never checks, whatever the password. */
  lemma TwoPartsRejected(attempt: string, rest: string, kdf: Kdf)
    requires '$' !in rest
    ensures !VerifyPassword(attempt, Prefix + rest, kdf)
  {
    var stored := Prefix + rest;
    assert stored[..|Prefix|] == Prefix;
    assert stored == "scrypt" + ['$'] + rest;
    assert '$' !in "scrypt";
    SplitCons("scrypt", '$', rest);
    SplitNoSep(rest, '$');
  }

  /** A legacy plain-text value checks only against itself. */
  lemma LegacyPlainText(attempt: string, stored: string, kdf: Kdf)
    requires |stored| > 0 && stored[0] != 's'
    ensures VerifyPassword(attempt, stored, kdf) <==> attempt == stored
  {
    assert !StartsWith(stored, Prefix) by {
      if |Prefix| <= |stored| { assert stored[..|Prefix|][0] == stored[0]; }
    }
  }
}
