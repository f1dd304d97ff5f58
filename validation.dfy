/** The form validators of testifyhq: each returns `{ isValid, error }`, with the error message
    of the first check that fails; and the password-strength meter, which adds one point for
    each of seven indicators. */
module Validation {
  import opened Wrappers
  import opened JsText

  datatype ValidationResult = ValidationResult(isValid: bool, error: Option<string>)

  function Invalid(msg: string): (r: ValidationResult)
    ensures !r.isValid && r.error == Some(msg)
  {
    ValidationResult(false, Some(msg))
  }

  function Valid(): (r: ValidationResult)
    ensures r.isValid && r.error.None?
  {
    ValidationResult(true, None)
  }

  /** `!s || s.trim() === ''`: the empty string and the all-white-space strings. */
  predicate Blank(s: string) {
    s == [] || Trim(s) == []
  }

  lemma BlankIffAllSpace(s: string)
    ensures Blank(s) <==> AllSpace(s)
  {
    TrimEmptyIffAllSpace(s);
  }

  /** `[^\s@]`. */
  predicate Plain(c: char) { c != '@' && !IsSpace(c) }

  predicate AllPlain(s: string) { forall k :: 0 <= k < |s| ==> Plain(s[k]) }

  /** The language of `/^[^\s@]+@[^\s@]+\.[^\s@]+$/`: a non-empty local part, `@`, a
      non-empty name, `.`, and a non-empty last part, none of which holds `@` or white space
      (the name and the last part may hold further dots). */
  predicate EmailShape(s: string) {
    exists i, j :: 0 <= i < |s| && 0 <= j < |s| && ShapeAt(s, i, j)
  }

  /** The `@` at `i` and the dot at `j` split `s` into the three parts of the pattern. */
  predicate ShapeAt(s: string, i: int, j: int) {
    0 < i && i + 1 < j && j + 1 < |s| && s[i] == '@' && s[j] == '.'
    && AllPlain(s[..i]) && AllPlain(s[i + 1..j]) && AllPlain(s[j + 1..])
  }

  /** A dot with at least one character on either side. */
  predicate InnerDot(b: string) {
    exists j :: 0 < j < |b| - 1 && b[j] == '.'
  }

  /** The test of the pattern: exactly one `@`, something before it, and after it a dot that
      is neither first nor last, with no white space anywhere. */
  function MatchesEmail(s: string): bool {
    var parts := Split(s, '@');
    |parts| == 2 && parts[0] != [] && AllPlain(parts[0]) && AllPlain(parts[1]) && InnerDot(parts[1])
  }

  /** The pattern tests exactly the language it describes. */
  lemma MatchesEmailIffShape(s: string)
    ensures MatchesEmail(s) <==> EmailShape(s)
  {
    if MatchesEmail(s) {
      MatchesGivesShape(s);
    }
    if EmailShape(s) {
      var i, j :| 0 <= i < |s| && 0 <= j < |s| && ShapeAt(s, i, j);
      ShapeGivesMatch(s, i, j);
    }
  }

  lemma MatchesGivesShape(s: string)
    requires MatchesEmail(s)
    ensures EmailShape(s)
  {
    var parts := Split(s, '@');
    JoinSplit(s, '@');
    var a, b := parts[0], parts[1];
    assert parts[1..] == [b];
    assert s == a + ['@'] + b;
    var jb :| 0 < jb < |b| - 1 && b[jb] == '.';
    var i, j := |a|, |a| + 1 + jb;
    assert s[..i] == a;
    assert s[i + 1..j] == b[..jb];
    assert s[j + 1..] == b[jb + 1..];
    assert ShapeAt(s, i, j);
  }

  lemma ShapeGivesMatch(s: string, i: int, j: int)
    requires ShapeAt(s, i, j)
    ensures MatchesEmail(s)
  {
    var a, b := s[..i], s[i + 1..];
    assert s == a + ['@'] + b;
    assert AllPlain(b) by {
      forall k | 0 <= k < |b| ensures Plain(b[k]) {
        if k < j - i - 1 { assert b[k] == s[i + 1..j][k]; }
        else if k > j - i - 1 { assert b[k] == s[j + 1..][k - (j - i)]; }
      }
    }
    assert '@' !in a by {
      forall k | 0 <= k < |a| ensures a[k] != '@' { assert Plain(a[k]); }
    }
    assert '@' !in b by {
      forall k | 0 <= k < |b| ensures b[k] != '@' { assert Plain(b[k]); }
    }
    SplitAfterField(a, b, '@');
    SplitNoSeparator(b, '@');
    assert Split(s, '@') == [a, b];
    assert b[j - i - 1] == '.';
  }

  predicate HasLetter(s: string) { exists k :: 0 <= k < |s| && IsLetter(s[k]) }
  predicate HasLower(s: string) { exists k :: 0 <= k < |s| && IsLower(s[k]) }
  predicate HasUpper(s: string) { exists k :: 0 <= k < |s| && IsUpper(s[k]) }
  predicate HasDigit(s: string) { exists k :: 0 <= k < |s| && IsDigit(s[k]) }
  /** `/[^a-zA-Z0-9]/`: anything but an ASCII letter or digit, white space included. */
  predicate HasSymbol(s: string) { exists k :: 0 <= k < |s| && !IsLetter(s[k]) && !IsDigit(s[k]) }

  /** An address of the right shape, a string with a letter, and six digits are not blank. */
  lemma NotAllSpace(s: string)
    ensures EmailShape(s) || HasLetter(s) || (|s| == 6 && AllDigits(s)) ==> !AllSpace(s)
  {
    if EmailShape(s) {
      var i, j :| 0 <= i < |s| && 0 <= j < |s| && ShapeAt(s, i, j);
      assert s[i] == '@';
    } else if HasLetter(s) {
      var k :| 0 <= k < |s| && IsLetter(s[k]);
      assert !IsSpace(s[k]);
    } else if |s| == 6 && AllDigits(s) {
      assert !IsSpace(s[0]);
    }
  }

  /** `validateEmail`. */
  function ValidateEmail(email: string): (r: ValidationResult)
    ensures r.isValid <==> r.error.None?
    ensures AllSpace(email) ==> r == Invalid("El email es requerido")
    ensures !AllSpace(email) && !r.isValid ==> r == Invalid("Email inválido")
    ensures r.isValid <==> EmailShape(email)
  {
    BlankIffAllSpace(email);
    MatchesEmailIffShape(email);
    NotAllSpace(email);
    if Blank(email) then Invalid("El email es requerido")
    else if !MatchesEmail(email) then Invalid("Email inválido")
    else Valid()
  }

  /** `validatePassword`: required, then at least 6 characters (UTF-16 code units, as
      `length` counts them), then a letter and a digit. */
  function ValidatePassword(password: string): (r: ValidationResult)
    ensures r.isValid <==> r.error.None?
    ensures AllSpace(password) ==> r == Invalid("La contraseña es requerida")
    ensures !AllSpace(password) && Utf16Length(password) < 6 ==> r == Invalid("La contraseña debe tener al menos 6 caracteres")
    ensures !AllSpace(password) && Utf16Length(password) >= 6 && !r.isValid ==>
              r == Invalid("La contraseña debe contener letras y números")
    ensures r.isValid <==> Utf16Length(password) >= 6 && HasLetter(password) && HasDigit(password)
  {
    BlankIffAllSpace(password);
    NotAllSpace(password);
    if Blank(password) then Invalid("La contraseña es requerida")
    else if Utf16Length(password) < 6 then Invalid("La contraseña debe tener al menos 6 caracteres")
    else if !HasLetter(password) || !HasDigit(password) then Invalid("La contraseña debe contener letras y números")
    else Valid()
  }

  /** `validatePasswordMatch`. */
  function ValidatePasswordMatch(password: string, confirmPassword: string): (r: ValidationResult)
    ensures r.isValid <==> r.error.None?
    ensures !r.isValid ==> r == Invalid("Las contraseñas no coinciden")
    ensures r.isValid <==> password == confirmPassword
  {
    if password != confirmPassword then Invalid("Las contraseñas no coinciden") else Valid()
  }

  /** `validateOTP`: required, then exactly 6 UTF-16 code units, then digits only; a code of
      six ASCII digits is exactly what passes. */
  function ValidateOtp(otp: string): (r: ValidationResult)
    ensures r.isValid <==> r.error.None?
    ensures AllSpace(otp) ==> r == Invalid("El código es requerido")
    ensures !AllSpace(otp) && Utf16Length(otp) != 6 ==> r == Invalid("El código debe tener 6 dígitos")
    ensures !AllSpace(otp) && Utf16Length(otp) == 6 && !AllDigits(otp) ==> r == Invalid("El código debe contener solo números")
    ensures r.isValid <==> |otp| == 6 && AllDigits(otp)
  {
    BlankIffAllSpace(otp);
    NotAllSpace(otp);
    if Blank(otp) then Invalid("El código es requerido")
    else if Utf16Length(otp) != 6 then Invalid("El código debe tener 6 dígitos")
    else if !AllDigits(otp) then Invalid("El código debe contener solo números")
    else Valid()
  }

  datatype Level = Weak | Medium | Strong

  /** The seven indicators the meter awards a point for, in the order it checks them. The
      three length indicators are nested, so a long password earns all three. */
  function Indicators(password: string): (checks: seq<bool>)
    ensures |checks| == 7
    ensures (checks[2] ==> checks[1]) && (checks[1] ==> checks[0])
    ensures checks[0] <==> |password| >= 6 || Utf16Length(password) >= 6
  {
    [Utf16Length(password) >= 6, Utf16Length(password) >= 8, Utf16Length(password) >= 12,
     HasLower(password), HasUpper(password), HasDigit(password), HasSymbol(password)]
  }

  /** The number of indicators that hold. */
  function CountTrue(checks: seq<bool>): (n: nat)
    ensures n <= |checks|
  {
    if checks == [] then 0 else Point(checks[0]) + CountTrue(checks[1..])
  }

  function Point(b: bool): nat { if b then 1 else 0 }

  /** The count of seven indicators, one at a time. */
  lemma CountSeven(c: seq<bool>)
    requires |c| == 7
    ensures CountTrue(c) == Point(c[0]) + Point(c[1]) + Point(c[2]) + Point(c[3]) + Point(c[4]) + Point(c[5]) + Point(c[6])
  {
    var c1 := c[1..];
    var c2 := c1[1..];
    var c3 := c2[1..];
    var c4 := c3[1..];
    var c5 := c4[1..];
    var c6 := c5[1..];
    var c7 := c6[1..];
    assert c7 == [];
    assert CountTrue(c6) == Point(c[6]);
    assert CountTrue(c5) == Point(c[5]) + CountTrue(c6);
    assert CountTrue(c4) == Point(c[4]) + CountTrue(c5);
    assert CountTrue(c3) == Point(c[3]) + CountTrue(c4);
    assert CountTrue(c2) == Point(c[2]) + CountTrue(c3);
    assert CountTrue(c1) == Point(c[1]) + CountTrue(c2);
  }

  /** The score of a password, indicator by indicator. */
  lemma IndicatorCount(password: string)
    ensures CountTrue(Indicators(password))
            == Point(Utf16Length(password) >= 6) + Point(Utf16Length(password) >= 8) + Point(Utf16Length(password) >= 12)
               + Point(HasLower(password)) + Point(HasUpper(password)) + Point(HasDigit(password))
               + Point(HasSymbol(password))
  {
    CountSeven(Indicators(password));
  }

  /** The level of a score: weak up to 2, medium up to 5, strong above. */
  function LevelOf(score: int): (level: Level)
    ensures level == Weak <==> score <= 2
    ensures level == Medium <==> 3 <= score <= 5
    ensures level == Strong <==> score >= 6
  {
    if score <= 2 then Weak else if score <= 5 then Medium else Strong
  }

  /** `getPasswordStrength`: one point per indicator, added in seven steps. */
  method PasswordStrength(password: string) returns (level: Level, score: nat)
    ensures score == CountTrue(Indicators(password)) && score <= 7
    ensures level == LevelOf(score)
  {
    score := 0;
    var length := Utf16Length(password);
    if length >= 6 { score := score + 1; }
    if length >= 8 { score := score + 1; }
    if length >= 12 { score := score + 1; }
    assert score == Point(length >= 6) + Point(length >= 8) + Point(length >= 12);
    ghost var lengthPoints := score;
    if HasLower(password) { score := score + 1; }
    if HasUpper(password) { score := score + 1; }
    assert score == lengthPoints + Point(HasLower(password)) + Point(HasUpper(password));
    ghost var letterPoints := score;
    if HasDigit(password) { score := score + 1; }
    if HasSymbol(password) { score := score + 1; }
    assert score == letterPoints + Point(HasDigit(password)) + Point(HasSymbol(password));
    IndicatorCount(password);
    if score <= 2 {
      level := Weak;
    } else if score <= 5 {
      level := Medium;
    } else {
      level := Strong;
    }
  }

  /** Raising every indicator that is false, and lowering none, never lowers the count. */
  lemma {:induction false} CountTrueMonotone(a: seq<bool>, b: seq<bool>)
    requires |a| == |b|
    requires forall k :: 0 <= k < |a| && a[k] ==> b[k]
    ensures CountTrue(a) <= CountTrue(b)
  {
    if a != [] {
      CountTrueMonotone(a[1..], b[1..]);
    }
  }

  /** Typing more characters never lowers the strength. */
  lemma StrengthNeverDropsWhenExtended(password: string, more: string)
    ensures CountTrue(Indicators(password)) <= CountTrue(Indicators(password + more))
  {
    var p := password + more;
    assert forall k :: 0 <= k < |password| ==> p[k] == password[k];
    Utf16LengthAppend(password, more);
    CountTrueMonotone(Indicators(password), Indicators(p));
  }

  /** A password that `validatePassword` accepts has at least 6 characters, a letter and a
      digit, which is three points: it is never weak. */
  lemma AcceptedPasswordNotWeak(password: string)
    requires ValidatePassword(password).isValid
    ensures CountTrue(Indicators(password)) >= 3
    ensures LevelOf(CountTrue(Indicators(password))) != Weak
  {
    assert Utf16Length(password) >= 6 && HasLetter(password) && HasDigit(password);
    var k :| 0 <= k < |password| && IsLetter(password[k]);
    assert HasLower(password) || HasUpper(password);
    IndicatorCount(password);
  }

  /** Seven points are reachable: twelve characters or more with every character class. */
  lemma StrongestPassword()
    ensures CountTrue(Indicators("Abcdefgh123!")) == 7
  {
    var p := "Abcdefgh123!";
    assert forall k :: 0 <= k < |p| ==> InBmp(p[k]);
    assert Utf16Length(p) == 12;
    assert HasLower(p) by { assert IsLower(p[1]); }
    assert HasUpper(p) by { assert IsUpper(p[0]); }
    assert HasDigit(p) by { assert IsDigit(p[8]); }
    assert HasSymbol(p) by { assert !IsLetter(p[11]) && !IsDigit(p[11]); }
    IndicatorCount(p);
  }

  /** `length` counts UTF-16 code units: a password of four ASCII characters and one emoji
      (five characters, six code units) passes the length check and is accepted. */
  lemma AstralCharacterCountsTwice()
    ensures Utf16Length("abc1\U{1F600}") == 6
    ensures ValidatePassword("abc1\U{1F600}").isValid
  {
    var p := "abc1\U{1F600}";
    assert p[..4] == "abc1" && p[4] == '\U{1F600}';
    assert Utf16Length(p[..4]) == 4;
    assert HasLetter(p) by { assert IsLetter(p[0]); }
    assert HasDigit(p) by { assert IsDigit(p[3]); }
  }
}
