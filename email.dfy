/** Email handling shared by the user and project handlers
    (`normalizeEmail`, `isValidEmail`, defined identically in both). */
module Email {
  import opened Text

  /** `r` is the lower case of the run of `s` that starts at index `a`,
      with only whitespace before and after that run. */
  predicate LoweredSpan(s: string, a: int, r: string) {
    0 <= a <= a + |r| <= |s| && r == ToLower(s[a..a + |r|])
    && (forall k :: 0 <= k < a ==> IsJsSpace(s[k]))
    && (forall k :: a + |r| <= k < |s| ==> IsJsSpace(s[k]))
  }

  /** `email.trim().toLowerCase()`: the address with the whitespace around
      it dropped, lowered. */
  function NormalizeEmail(email: string): (r: string)
    ensures |r| <= |email|
    ensures r == ToLower(Trim(email))
    ensures |r| == 0 || (!IsJsSpace(r[0]) && !IsJsSpace(r[|r| - 1]))
    ensures forall i :: 0 <= i < |r| ==> LowerChar(r[i]) == r[i]
  {
    var t := Trim(email);
    LowerKeepsEnds(t);
    ToLower(t)
  }

  /** The normalised address is the lowered run of the input that is left
      once the whitespace around it is dropped. */
  lemma NormalizeIsLoweredSpan(email: string)
    ensures exists a :: LoweredSpan(email, a, NormalizeEmail(email))
  {
    var t := Trim(email);
    var r := NormalizeEmail(email);
    assert r == ToLower(t) && |r| == |t|;
    var a :| TrimmedSpan(email, a, t);
    assert email[a..a + |r|] == t;
    assert LoweredSpan(email, a, r);
  }

  /** Lowering a string keeps its ends non-blank and leaves nothing to lower. */
  lemma LowerKeepsEnds(t: string)
    requires |t| == 0 || (!IsJsSpace(t[0]) && !IsJsSpace(t[|t| - 1]))
    ensures var r := ToLower(t);
      (|r| == 0 || (!IsJsSpace(r[0]) && !IsJsSpace(r[|r| - 1])))
      && forall i :: 0 <= i < |r| ==> LowerChar(r[i]) == r[i]
  {
    var r := ToLower(t);
    forall i | 0 <= i < |r| ensures LowerChar(r[i]) == r[i] {
      LowerCharFacts(t[i]);
    }
    if |r| > 0 {
      LowerCharFacts(t[0]);
      LowerCharFacts(t[|t| - 1]);
    }
  }

  /** Normalising is idempotent: a stored (normalised) address normalises to
      itself, so comparing normalised forms is stable. */
  lemma NormalizeIdempotent(email: string)
    ensures NormalizeEmail(NormalizeEmail(email)) == NormalizeEmail(email)
  {
    var n := NormalizeEmail(email);
    TrimOfTrimmed(n);
    LowerOfLowered(n);
    assert NormalizeEmail(n) == ToLower(Trim(n)) == ToLower(n);
  }

  /** A string with nothing left to lower is its own lower case. */
  lemma LowerOfLowered(s: string)
    requires forall i :: 0 <= i < |s| ==> LowerChar(s[i]) == s[i]
    ensures ToLower(s) == s
  {
    var l := ToLower(s);
    forall i | 0 <= i < |s| ensures l[i] == s[i] {
    }
  }

  /** A non-empty run of characters that are neither whitespace nor `@`:
      the class `[^\s@]+` of the validation pattern. */
  predicate IsPart(s: string) {
    |s| > 0 && NoSpace(s) && '@' !in s
  }

  /** What the pattern `^[^\s@]+@[^\s@]+\.[^\s@]+$` matches: the address
      cuts at an `@` (index i) and a later `.` (index j) into three parts. */
  ghost predicate MatchesEmailPattern(s: string) {
    exists i, j :: 0 < i && i + 1 < j && j + 1 < |s| && s[i] == '@' && s[j] == '.'
      && IsPart(s[..i]) && IsPart(s[i + 1..j]) && IsPart(s[j + 1..])
  }

  /** Index of the first occurrence of `c` in `s`. */
  function FirstIndex(s: string, c: char): (i: nat)
    requires c in s
    ensures i < |s| && s[i] == c && c !in s[..i]
  {
    if s[0] == c then 0
    else
      assert c in s[1..] by { assert s == [s[0]] + s[1..]; }
      var k := FirstIndex(s[1..], c);
      assert s[..k + 1] == [s[0]] + s[1..][..k];
      k + 1
  }

  /** `isValidEmail`: no whitespace, exactly one `@` with something before
      it, and a `.` in the domain with something on both sides. */
  predicate IsValidEmail(s: string) {
    NoSpace(s) && '@' in s &&
    var i := FirstIndex(s, '@');
    0 < i && '@' !in s[i + 1..] &&
    exists j :: i + 1 < j < |s| - 1 && s[j] == '.'
  }

  /** Every string the check accepts matches the pattern. */
  lemma ValidEmailMatches(s: string)
    requires IsValidEmail(s)
    ensures MatchesEmailPattern(s)
  {
    var i := FirstIndex(s, '@');
    var j :| i + 1 < j < |s| - 1 && s[j] == '.';
    assert s[i + 1..] == s[i + 1..j] + [s[j]] + s[j + 1..];
    assert NoSpace(s[..i]) && NoSpace(s[i + 1..j]) && NoSpace(s[j + 1..]);
    assert '@' !in s[i + 1..j] && '@' !in s[j + 1..];
  }

  /** Whitespace-free pieces glued by a non-blank character stay whitespace-free. */
  lemma NoSpaceGlue(a: string, c: char, b: string)
    requires NoSpace(a) && !IsJsSpace(c) && NoSpace(b)
    ensures NoSpace(a + [c] + b)
  {
    var s := a + [c] + b;
    forall k | 0 <= k < |s| ensures !IsJsSpace(s[k]) {
      if k < |a| { assert s[k] == a[k]; }
      else if k > |a| { assert s[k] == b[k - |a| - 1]; }
    }
  }

  /** A character absent from two pieces and from the glue between them is
      absent from the whole. */
  lemma AbsentFromGlue(x: char, a: string, c: char, b: string)
    requires x !in a && x != c && x !in b
    ensures x !in a + [c] + b
  {
  }

  /** The first `c` after a piece free of `c` is right after that piece. */
  lemma {:induction false} FirstIndexAfter(a: string, c: char, rest: string)
    requires c !in a
    ensures FirstIndex(a + [c] + rest, c) == |a|
    decreases |a|
  {
    var s := a + [c] + rest;
    if |a| > 0 {
      assert s[1..] == a[1..] + [c] + rest;
      assert c !in a[1..];
      FirstIndexAfter(a[1..], c, rest);
    }
  }

  /** An address cut at its only `@` into a non-empty local part and a
      domain with an inner dot passes the check. */
  lemma ValidFromParts(s: string, user: string, domain: string, j: int)
    requires s == user + ['@'] + domain
    requires NoSpace(s) && |user| > 0 && '@' !in user && '@' !in domain
    requires 0 < j < |domain| - 1 && domain[j] == '.'
    ensures IsValidEmail(s)
  {
    FirstIndexAfter(user, '@', domain);
    assert s[|user| + 1..] == domain;
    assert s[|user| + 1 + j] == '.';
  }

  /** Every string matching the pattern passes the check. */
  lemma PatternMatchIsValid(s: string)
    requires MatchesEmailPattern(s)
    ensures IsValidEmail(s)
  {
    var i, j :| 0 < i && i + 1 < j && j + 1 < |s| && s[i] == '@' && s[j] == '.'
      && IsPart(s[..i]) && IsPart(s[i + 1..j]) && IsPart(s[j + 1..]);
    CutIsValid(s, i, j);
  }

  /** A string cut by the pattern at `i` and `j` passes the check. */
  lemma CutIsValid(s: string, i: nat, j: nat)
    requires 0 < i && i + 1 < j && j + 1 < |s| && s[i] == '@' && s[j] == '.'
    requires IsPart(s[..i]) && IsPart(s[i + 1..j]) && IsPart(s[j + 1..])
    ensures IsValidEmail(s)
  {
    var user, host, tld := s[..i], s[i + 1..j], s[j + 1..];
    var domain := host + ['.'] + tld;
    assert s == user + ['@'] + domain;
    NoSpaceGlue(host, '.', tld);
    NoSpaceGlue(user, '@', domain);
    AbsentFromGlue('@', host, '.', tld);
    assert domain[|host|] == '.';
    ValidFromParts(s, user, domain, |host|);
  }

  /** The check and the pattern accept the same strings. */
  lemma ValidEmailMatchesPattern(s: string)
    ensures IsValidEmail(s) <==> MatchesEmailPattern(s)
  {
    if IsValidEmail(s) { ValidEmailMatches(s); }
    if MatchesEmailPattern(s) { PatternMatchIsValid(s); }
  }

  /** Without a dot after the `@` an address is rejected. */
  lemma NoDotRejected(user: string, domain: string)
    requires '@' !in user && '.' !in domain
    ensures !IsValidEmail(user + ['@'] + domain)
  {
    var s := user + ['@'] + domain;
    FirstIndexAfter(user, '@', domain);
    assert s[|user| + 1..] == domain;
    forall k | |user| + 1 < k < |s| - 1 ensures s[k] != '.' {
      assert s[k] == domain[k - |user| - 1];
    }
  }

  /** The pattern needs a dot after the `@`: an address at a bare host
      name is rejected. */
  lemma BareHostRejected()
    ensures !IsValidEmail("john@localhost")
  {
    var s := "john@localhost";
    assert s == s[..4] + [s[4]] + s[5..];
    NoDotRejected(s[..4], s[5..]);
  }

  /** An address at a dotted domain is accepted. */
  lemma DottedDomainAccepted()
    ensures IsValidEmail("john@example.com")
  {
    var s := "john@example.com";
    assert s == "john" + ['@'] + "example.com";
    assert NoSpace("john") && NoSpace("example.com");
    NoSpaceGlue("john", '@', "example.com");
    assert "example.com"[7] == '.';
    ValidFromParts(s, "john", "example.com", 7);
  }
}
