/**
  Password strength and the login/register dispatch of the sign-in form,
  together with the same strength gate repeated in front of the
  registration request.
 */
module Auth {
  import opened Types

  /** The message shown for a weak password, both by the form and by the
      registration handler. */
  const WeakPasswordMessage: string :=
    "La contraseña debe tener mínimo 8 caracteres, mayúscula, minúscula, número y símbolo."

  predicate IsAsciiUpper(c: char) { 'A' <= c <= 'Z' }
  predicate IsAsciiLower(c: char) { 'a' <= c <= 'z' }
  predicate IsDigit(c: char) { '0' <= c <= '9' }

  /** Anything outside `[A-Za-z0-9]`, so accented and other non-ASCII
      letters count as symbols. */
  predicate IsSymbol(c: char) { !IsAsciiUpper(c) && !IsAsciiLower(c) && !IsDigit(c) }

  /** The four kinds of character a strong password needs. */
  datatype CharClass = Upper | Lower | Digit | Symbol

  predicate InClass(k: CharClass, c: char)
  {
    match k
    case Upper => IsAsciiUpper(c)
    case Lower => IsAsciiLower(c)
    case Digit => IsDigit(c)
    case Symbol => IsSymbol(c)
  }

  /** Some character of `s` is of kind `k`. */
  predicate HasClass(k: CharClass, s: string)
  {
    exists i :: 0 <= i < |s| && InClass(k, s[i])
  }

  /** At least 8 UTF-16 code units, with an ASCII capital, an ASCII small
      letter, a digit and a symbol. */
  predicate IsStrong(password: string)
  {
    && Utf16Length(password) >= 8
    && HasClass(Upper, password)
    && HasClass(Lower, password)
    && HasClass(Digit, password)
    && HasClass(Symbol, password)
  }

  /** The character classes `[A-Z]`, `[a-z]`, `[0-9]` and `[^A-Za-z0-9]`
      applied to a single UTF-16 code unit. */
  predicate UnitInClass(k: CharClass, u: int)
  {
    var upper := 'A' as int <= u <= 'Z' as int;
    var lower := 'a' as int <= u <= 'z' as int;
    var digit := '0' as int <= u <= '9' as int;
    match k
    case Upper => upper
    case Lower => lower
    case Digit => digit
    case Symbol => !upper && !lower && !digit
  }

  /** A regular-expression test for one class: some code unit matches. */
  predicate RegexTest(k: CharClass, units: seq<int>)
  {
    exists i :: 0 <= i < |units| && UnitInClass(k, units[i])
  }

  /** The strength rule as the regular expressions evaluate it, on the
      code units of the password. */
  predicate RegexStrong(units: seq<int>)
  {
    |units| >= 8 && RegexTest(Upper, units) && RegexTest(Lower, units) &&
    RegexTest(Digit, units) && RegexTest(Symbol, units)
  }

  /** A character is of a kind exactly when one of its code units matches
      that kind's class: surrogates match only `[^A-Za-z0-9]`, as the
      characters they encode do. */
  lemma EncodingKeepsClass(k: CharClass, c: char)
    ensures InClass(k, c) <==> RegexTest(k, Utf16Encode(c))
  {
    var u := Utf16Encode(c);
    if c as int >= 0x10000 {
      assert !UnitInClass(Upper, u[0]) && !UnitInClass(Lower, u[0]) && !UnitInClass(Digit, u[0]);
      assert UnitInClass(Symbol, u[0]);
    } else {
      assert u[0] == c as int;
    }
  }

  lemma RegexTestConcat(k: CharClass, a: seq<int>, b: seq<int>)
    ensures RegexTest(k, a + b) <==> RegexTest(k, a) || RegexTest(k, b)
  {
    if RegexTest(k, a + b) {
      var i :| 0 <= i < |a + b| && UnitInClass(k, (a + b)[i]);
      if i >= |a| {
        assert b[i - |a|] == (a + b)[i];
      }
    }
    if RegexTest(k, a) {
      var i :| 0 <= i < |a| && UnitInClass(k, a[i]);
      assert (a + b)[i] == a[i];
    }
    if RegexTest(k, b) {
      var i :| 0 <= i < |b| && UnitInClass(k, b[i]);
      assert (a + b)[|a| + i] == b[i];
    }
  }

  /** Over a whole string, testing characters and testing code units agree. */
  lemma {:induction false} ClassSurvivesEncoding(k: CharClass, s: string)
    ensures HasClass(k, s) <==> RegexTest(k, Utf16Units(s))
  {
    if |s| > 0 {
      var init, last := s[..|s| - 1], s[|s| - 1];
      ClassSurvivesEncoding(k, init);
      EncodingKeepsClass(k, last);
      RegexTestConcat(k, Utf16Units(init), Utf16Encode(last));
      if HasClass(k, s) {
        var i :| 0 <= i < |s| && InClass(k, s[i]);
        if i < |init| {
          assert init[i] == s[i];
        }
      }
      if HasClass(k, init) {
        var i :| 0 <= i < |init| && InClass(k, init[i]);
        assert s[i] == init[i];
      }
      assert InClass(k, last) ==> InClass(k, s[|s| - 1]);
    }
  }

  /** The character-level rule is the regular-expression rule: a password
      is strong exactly when its UTF-16 code units pass the length check
      and all four class tests. */
  lemma StrongAgreesWithRegexes(password: string)
    ensures IsStrong(password) <==> RegexStrong(Utf16Units(password))
  {
    ClassSurvivesEncoding(Upper, password);
    ClassSurvivesEncoding(Lower, password);
    ClassSurvivesEncoding(Digit, password);
    ClassSurvivesEncoding(Symbol, password);
  }

  /** A non-ASCII letter such as `ñ` serves as the symbol. */
  lemma AccentedLetterCountsAsSymbol()
    ensures IsStrong("Contraseña1")
  {
    var p := "Contraseña1";
    assert InClass(Upper, p[0]) && InClass(Lower, p[1]) && InClass(Symbol, p[8]) && InClass(Digit, p[10]);
  }

  /** Length is counted in UTF-16 code units: six characters, three of
      them outside the Basic Multilingual Plane, make a long enough
      password. */
  lemma AstralCharactersCountTwice()
    ensures IsStrong("Ab1😀😀😀")
  {
    var p := "Ab1😀😀😀";
    assert |p| == 6;
    assert InClass(Upper, p[0]) && InClass(Lower, p[1]) && InClass(Digit, p[2]) && InClass(Symbol, p[3]);
  }

  /** Without an ASCII capital a password is weak, however long. */
  lemma NoCapitalIsWeak(password: string)
    requires forall i :: 0 <= i < |password| ==> !IsAsciiUpper(password[i])
    ensures !IsStrong(password)
  {
  }

  /** What submitting the form does. */
  datatype SubmitOutcome =
    | WeakPasswordAlert(message: string)
    | Register(name: string, email: string, password: string)
    | Login(email: string, password: string)

  /** The form's submit handler: registration demands a strong password and
      forwards the fields unchanged; login forwards email and password
      whatever their strength. */
  function HandleSubmit(isRegistering: bool, name: string, email: string, password: string): (r: SubmitOutcome)
    ensures r.WeakPasswordAlert? <==> isRegistering && !IsStrong(password)
    ensures r.WeakPasswordAlert? ==> r.message == WeakPasswordMessage
    ensures r.Register? <==> isRegistering && IsStrong(password)
    ensures r.Register? ==> r == Register(name, email, password)
    ensures !isRegistering ==> r == Login(email, password)
  {
    var isStrong := IsStrong(password);
    if isRegistering && !isStrong then WeakPasswordAlert(WeakPasswordMessage)
    else if isRegistering then Register(name, email, password)
    else Login(email, password)
  }

  /** The first step of the registration handler. */
  datatype RegisterStep =
    | RejectWeak(authError: string)
    | SendRegistration(name: string, email: string, password: string)

  /** The registration handler returns with an error before any request
      when the password is weak. */
  function RegisterGate(name: string, email: string, pass: string): (r: RegisterStep)
    ensures r.RejectWeak? <==> !IsStrong(pass)
    ensures r.RejectWeak? ==> r.authError == WeakPasswordMessage
    ensures r.SendRegistration? ==> r == SendRegistration(name, email, pass)
  {
    var strong := IsStrong(pass);
    if !strong then RejectWeak(WeakPasswordMessage) else SendRegistration(name, email, pass)
  }

  /** The form and the handler apply the same rule: whatever the form
      forwards for registration, the handler sends on, and a password the
      handler rejects never leaves the form. */
  lemma FormAndHandlerAgree(name: string, email: string, password: string)
    ensures HandleSubmit(true, name, email, password).Register? <==>
            RegisterGate(name, email, password).SendRegistration?
    ensures HandleSubmit(true, name, email, password).Register? ==>
            RegisterGate(name, email, password) == SendRegistration(name, email, password)
  {
  }
}
