/**
 * The two network-free helpers of the authentication module: the e-mail pattern test
 * and the password strength score (auth.js).
 */
module Auth {
  import opened Text

  // ---------------------------------------------------------------- validateEmail

  /** A character the pattern's class `[^\s@]` accepts. */
  predicate IsEmailChar(c: char) {
    !IsWhitespace(c) && c != '@'
  }

  predicate AllEmailChars(s: string) {
    forall k | 0 <= k < |s| :: IsEmailChar(s[k])
  }

  /**
   * `/^[^\s@]+@[^\s@]+\.[^\s@]+$/.test(email)`: the whole string is a non-empty run of
   * pattern characters, an `@`, a non-empty run, a `.`, and a non-empty run; the regular
   * expression may pick any `.` of the part after `@` for its literal dot.
   */
  function ValidateEmail(email: string): bool {
    exists at, dot | 0 < at < dot - 1 < |email| - 2 ::
      && email[at] == '@' && email[dot] == '.'
      && AllEmailChars(email[..at]) && AllEmailChars(email[at + 1..dot]) && AllEmailChars(email[dot + 1..])
  }

  predicate NoWhitespace(s: string) {
    forall k | 0 <= k < |s| :: !IsWhitespace(s[k])
  }

  /** The part after `@` has a `.` that is neither its first nor its last character. */
  predicate HasInnerDot(host: string) {
    exists k | 0 < k < |host| - 1 :: host[k] == '.'
  }

  /** Every character other than the one at `at` is a pattern character. */
  predicate EmailCharsExcept(email: string, at: int) {
    forall k | 0 <= k < |email| && k != at :: IsEmailChar(email[k])
  }

  /** Splitting around `at`: `@` occurs once in `s` exactly when it occurs in neither side. */
  lemma AtCountSplit(s: string, at: int)
    requires 0 <= at < |s| && s[at] == '@'
    ensures multiset(s)['@'] == 1 + multiset(s[..at])['@'] + multiset(s[at + 1..])['@']
  {
    assert s == s[..at] + [s[at]] + s[at + 1..];
  }

  lemma PatternGivesShape(email: string, at: int, dot: int)
    requires 0 < at < dot - 1 < |email| - 2
    requires email[at] == '@' && email[dot] == '.'
    requires AllEmailChars(email[..at]) && AllEmailChars(email[at + 1..dot]) && AllEmailChars(email[dot + 1..])
    ensures EmailCharsExcept(email, at)
    ensures NoWhitespace(email) && multiset(email)['@'] == 1 && HasInnerDot(email[at + 1..])
  {
    forall k | 0 <= k < |email| && k != at ensures IsEmailChar(email[k]) {
      if k < at { assert email[k] == email[..at][k]; }
      else if k < dot { assert email[k] == email[at + 1..dot][k - at - 1]; }
      else if k > dot { assert email[k] == email[dot + 1..][k - dot - 1]; }
    }
    AtCountSplit(email, at);
    assert '@' !in email[..at] && '@' !in email[at + 1..];
    assert email[at + 1..][dot - at - 1] == '.';
  }

  lemma ShapeGivesPattern(email: string, at: int, k: int)
    requires NoWhitespace(email) && multiset(email)['@'] == 1
    requires 0 < at < |email| && email[at] == '@'
    requires 0 < k < |email| - at - 2 && email[at + 1 + k] == '.'
    ensures ValidateEmail(email)
  {
    AtCountSplit(email, at);
    assert '@' !in email[..at] && '@' !in email[at + 1..];
    forall j | 0 <= j < |email| && j != at ensures email[j] != '@' {
      if j < at { assert email[j] == email[..at][j]; }
      else { assert email[j] == email[at + 1..][j - at - 1]; }
    }
    var dot := at + 1 + k;
    assert AllEmailChars(email[..at]) by {
      forall j | 0 <= j < at ensures IsEmailChar(email[..at][j]) { assert email[..at][j] == email[j]; }
    }
    var host, tld := email[at + 1..dot], email[dot + 1..];
    assert AllEmailChars(host) by {
      forall j | 0 <= j < |host| ensures IsEmailChar(host[j]) { assert host[j] == email[at + 1 + j]; }
    }
    assert AllEmailChars(tld) by {
      forall j | 0 <= j < |tld| ensures IsEmailChar(tld[j]) { assert tld[j] == email[dot + 1 + j]; }
    }
  }

  /**
   * The pattern holds exactly when: no white space anywhere, exactly one `@`, a non-empty
   * part before it, and a `.` strictly inside the part after it.
   */
  lemma ValidateEmailCharacterized(email: string)
    ensures ValidateEmail(email) <==>
      && NoWhitespace(email)
      && multiset(email)['@'] == 1
      && exists at | 0 < at < |email| :: email[at] == '@' && HasInnerDot(email[at + 1..])
  {
    if ValidateEmail(email) {
      var at, dot :| 0 < at < dot - 1 < |email| - 2
        && email[at] == '@' && email[dot] == '.'
        && AllEmailChars(email[..at]) && AllEmailChars(email[at + 1..dot]) && AllEmailChars(email[dot + 1..]);
      PatternGivesShape(email, at, dot);
    }
    if && NoWhitespace(email)
       && multiset(email)['@'] == 1
       && exists at | 0 < at < |email| :: email[at] == '@' && HasInnerDot(email[at + 1..])
    {
      var at :| 0 < at < |email| && email[at] == '@' && HasInnerDot(email[at + 1..]);
      var k :| 0 < k < |email[at + 1..]| - 1 && email[at + 1..][k] == '.';
      ShapeGivesPattern(email, at, k);
    }
  }

  /** A sample accepted address. */
  lemma ValidEmailExample()
    ensures ValidateEmail("a@b.com")
  {
    var e := "a@b.com";
    assert e[..1] == "a" && e[2..3] == "b" && e[4..] == "com";
    assert AllEmailChars(e[..1]) && AllEmailChars(e[2..3]) && AllEmailChars(e[4..]);
    assert e[1] == '@' && e[3] == '.';
  }

  /** A sample rejected string: there is no `@` at all. */
  lemma InvalidEmailExample()
    ensures !ValidateEmail("not-an-email")
  {
    var n := "not-an-email";
    assert forall k | 0 <= k < |n| :: n[k] != '@';
    assert '@' !in multiset(n);
    ValidateEmailCharacterized(n);
  }

  // ---------------------------------------------------------------- checkPasswordStrength

  datatype Strength = Weak | Medium | Strong {
    /** The string the helper returns. */
    function Name(): string {
      match this
      case Weak => "weak"
      case Medium => "medium"
      case Strong => "strong"
    }

    /** Position in the order weak < medium < strong. */
    function Rank(): nat {
      match this
      case Weak => 0
      case Medium => 1
      case Strong => 2
    }
  }

  /** `[A-Z]`: only the 26 ASCII capitals. */
  predicate IsAsciiUpper(c: char) { 'A' <= c <= 'Z' }

  /** `[0-9]`. */
  predicate IsAsciiDigit(c: char) { '0' <= c <= '9' }

  /** `[^A-Za-z0-9]`: anything that is not an ASCII letter or digit, Arabic letters included. */
  predicate IsSymbol(c: char) { !(IsAsciiUpper(c) || 'a' <= c <= 'z' || IsAsciiDigit(c)) }

  predicate HasUpper(pw: string) { exists k | 0 <= k < |pw| :: IsAsciiUpper(pw[k]) }
  predicate HasDigit(pw: string) { exists k | 0 <= k < |pw| :: IsAsciiDigit(pw[k]) }
  predicate HasSymbol(pw: string) { exists k | 0 <= k < |pw| :: IsSymbol(pw[k]) }

  function Indicator(b: bool): nat { if b then 1 else 0 }

  /** The counter after the four independent checks. */
  function StrengthScore(pw: string): (score: nat)
    ensures score <= 4
    ensures score == 4 <==> |pw| >= 8 && HasUpper(pw) && HasDigit(pw) && HasSymbol(pw)
    ensures score == 0 <==> |pw| < 8 && !HasUpper(pw) && !HasDigit(pw) && !HasSymbol(pw)
  {
    Indicator(|pw| >= 8) + Indicator(HasUpper(pw)) + Indicator(HasDigit(pw)) + Indicator(HasSymbol(pw))
  }

  /** `checkPasswordStrength`: fewer than two checks is weak, fewer than four medium, all four strong. */
  function CheckPasswordStrength(pw: string): (level: Strength)
    ensures level == Strong <==> |pw| >= 8 && HasUpper(pw) && HasDigit(pw) && HasSymbol(pw)
    ensures level == Weak <==> StrengthScore(pw) <= 1
    ensures level == Medium <==> 2 <= StrengthScore(pw) <= 3
  {
    var strength := StrengthScore(pw);
    if strength < 2 then Weak
    else if strength < 4 then Medium
    else Strong
  }

  /** A password shorter than eight characters is never strong. */
  lemma ShortPasswordNeverStrong(pw: string)
    requires |pw| < 8
    ensures CheckPasswordStrength(pw) != Strong
  {
  }

  /** Every check is kept by appending characters, so the score never drops. */
  lemma {:induction false} ScoreMonotone(pw: string, more: string)
    ensures StrengthScore(pw) <= StrengthScore(pw + more)
  {
    var ext := pw + more;
    if HasUpper(pw) {
      var k :| 0 <= k < |pw| && IsAsciiUpper(pw[k]);
      assert ext[k] == pw[k];
    }
    if HasDigit(pw) {
      var k :| 0 <= k < |pw| && IsAsciiDigit(pw[k]);
      assert ext[k] == pw[k];
    }
    if HasSymbol(pw) {
      var k :| 0 <= k < |pw| && IsSymbol(pw[k]);
      assert ext[k] == pw[k];
    }
  }

  /** Appending characters never lowers the strength level. */
  lemma StrengthMonotone(pw: string, more: string)
    ensures CheckPasswordStrength(pw).Rank() <= CheckPasswordStrength(pw + more).Rank()
  {
    ScoreMonotone(pw, more);
  }

  /** Worked examples: the rule's boundaries, and Arabic letters counting as symbols, not capitals. */
  lemma PasswordStrengthExamples()
    ensures CheckPasswordStrength("a") == Weak
    ensures CheckPasswordStrength("Abcdefgh") == Medium
    ensures CheckPasswordStrength("Abcdefg1!") == Strong
    ensures CheckPasswordStrength("كلمةسرية") == Medium
  {
    var a := "a";
    assert !IsSymbol(a[0]);
    var m := "Abcdefgh";
    assert IsAsciiUpper(m[0]);
    assert !HasSymbol(m) by { assert forall k | 0 <= k < |m| :: !IsSymbol(m[k]); }
    var s := "Abcdefg1!";
    assert IsAsciiUpper(s[0]) && IsAsciiDigit(s[7]) && IsSymbol(s[8]);
    var ar := "كلمةسرية";
    assert IsSymbol(ar[0]);
    assert !HasUpper(ar) by { assert forall k | 0 <= k < |ar| :: !IsAsciiUpper(ar[k]); }
  }
}
