/** Password helpers (backend/src/utils/password.js). bcrypt itself is not
    modelled: its hash and compare functions are parameters. */
module Password {
  import opened Js
  import opened Strings

  const MinLength := 8
  const TooShort := PlainError("Password must be 8+ characters")

  /** `hashPassword`: refuses a missing password or one shorter than eight
      UTF-16 code units (JavaScript's `length`) before bcrypt is called;
      otherwise the bcrypt hash. */
  function HashPassword(plain: Option<string>, bcryptHash: string -> string): (r: Result<string>)
    ensures r.Ok? <==> plain.Some? && Utf16Length(plain.value) >= MinLength
    ensures r.Ok? ==> r.value == bcryptHash(plain.value)
    ensures r.Err? ==> r.error == TooShort
  {
    if !TruthyString(plain) || Utf16Length(plain.value) < MinLength then Err(TooShort)
    else Ok(bcryptHash(plain.value))
  }

  /** An all-ASCII password passes the guard exactly when it has eight
      characters or more. */
  lemma AsciiPasswordLength(p: string, bcryptHash: string -> string)
    requires forall i :: 0 <= i < |p| ==> p[i] as int < 0x80
    ensures HashPassword(Some(p), bcryptHash).Ok? <==> |p| >= MinLength
  {
    Utf16LengthOfBmp(p);
  }

  /** The guard counts code units, not characters: four emoji are length
      8 in JavaScript and pass it. */
  lemma FourEmojiPass(bcryptHash: string -> string)
    ensures |"\U{1F600}\U{1F600}\U{1F600}\U{1F600}"| == 4
    ensures HashPassword(Some("\U{1F600}\U{1F600}\U{1F600}\U{1F600}"), bcryptHash).Ok?
  {
    var p := "\U{1F600}\U{1F600}\U{1F600}\U{1F600}";
    assert Utf16Length(p[3..]) == 2;
    assert Utf16Length(p[2..]) == 4;
    assert Utf16Length(p[1..]) == 6;
  }

  /** `comparePassword`: false without asking bcrypt when either side is
      missing or empty; otherwise bcrypt's verdict. */
  function ComparePassword(plain: Option<string>, hash: Option<string>,
                           bcryptCompare: (string, string) -> bool): (r: bool)
    ensures !TruthyString(plain) || !TruthyString(hash) ==> !r
    ensures TruthyString(plain) && TruthyString(hash) ==> r == bcryptCompare(plain.value, hash.value)
  {
    if !TruthyString(plain) || !TruthyString(hash) then false
    else bcryptCompare(plain.value, hash.value)
  }

  /** The character class `[A-Za-z\d@$!%*?&]`. */
  predicate Allowed(c: char)
  {
    IsAsciiUpper(c) || IsAsciiLower(c) || IsDigit(c)
    || c == '@' || c == '$' || c == '!' || c == '%' || c == '*' || c == '?' || c == '&'
  }

  /** The characters `.` does not match in a JavaScript regular expression. */
  predicate LineTerminator(c: char)
  {
    c == '\n' || c == '\r' || c == '\U{2028}' || c == '\U{2029}'
  }

  /** The lookahead `(?=.*[x-y])` at the start of `s`: a character of the
      class occurs before the first line terminator. */
  predicate LookaheadFinds(s: string, cls: char -> bool)
  {
    |s| > 0 && (cls(s[0]) || (!LineTerminator(s[0]) && LookaheadFinds(s[1..], cls)))
  }

  /** `[A-Za-z\d@$!%*?&]*$` matched against all of `s`. */
  predicate AllAllowed(s: string)
  {
    |s| == 0 || (Allowed(s[0]) && AllAllowed(s[1..]))
  }

  /** `isStrongPassword`: the regular expression
      `^(?=.*[a-z])(?=.*[A-Z])(?=.*\d)[A-Za-z\d@$!%*?&]{8,}$`, read as its
      three lookaheads and its anchored body. */
  predicate IsStrongPassword(p: string)
  {
    LookaheadFinds(p, IsAsciiLower) && LookaheadFinds(p, IsAsciiUpper) && LookaheadFinds(p, IsDigit)
    && |p| >= MinLength && AllAllowed(p)
  }

  /** The rule in words: at least eight characters, all from the allowed
      class, with a lower-case letter, an upper-case letter and a digit. */
  ghost predicate StrongRule(p: string)
  {
    |p| >= MinLength
    && (forall i :: 0 <= i < |p| ==> Allowed(p[i]))
    && (exists i :: 0 <= i < |p| && IsAsciiLower(p[i]))
    && (exists i :: 0 <= i < |p| && IsAsciiUpper(p[i]))
    && (exists i :: 0 <= i < |p| && IsDigit(p[i]))
  }

  lemma {:induction false} AllAllowedMeans(s: string)
    ensures AllAllowed(s) <==> forall i :: 0 <= i < |s| ==> Allowed(s[i])
    decreases |s|
  {
    if |s| > 0 {
      AllAllowedMeans(s[1..]);
      assert forall i :: 1 <= i < |s| ==> s[i] == s[1..][i - 1];
    }
  }

  /** Over text with no line terminator, a lookahead finds exactly the
      strings that contain a character of its class. */
  lemma {:induction false} LookaheadMeans(s: string, cls: char -> bool)
    requires forall i :: 0 <= i < |s| ==> !LineTerminator(s[i])
    ensures LookaheadFinds(s, cls) <==> exists i :: 0 <= i < |s| && cls(s[i])
    decreases |s|
  {
    if |s| > 0 {
      assert forall i :: 1 <= i < |s| ==> s[i] == s[1..][i - 1];
      LookaheadMeans(s[1..], cls);
      if !cls(s[0]) && exists i :: 0 <= i < |s| && cls(s[i]) {
        var i :| 0 <= i < |s| && cls(s[i]);
        assert cls(s[1..][i - 1]);
      }
    }
  }

  /** The regular expression accepts exactly the passwords the rule allows. */
  lemma StrongPasswordRule(p: string)
    ensures IsStrongPassword(p) <==> StrongRule(p)
  {
    AllAllowedMeans(p);
    if forall i :: 0 <= i < |p| ==> Allowed(p[i]) {
      LookaheadMeans(p, IsAsciiLower);
      LookaheadMeans(p, IsAsciiUpper);
      LookaheadMeans(p, IsDigit);
    }
  }

  /** Every password the strength rule accepts also gets past the length
      guard of `hashPassword`. */
  lemma StrongPasswordsHash(p: string, bcryptHash: string -> string)
    requires IsStrongPassword(p)
    ensures HashPassword(Some(p), bcryptHash) == Ok(bcryptHash(p))
  {
    AllAllowedMeans(p);
    Utf16LengthOfBmp(p);
  }
}
