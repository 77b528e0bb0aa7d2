/**
 * `userValidators`: the request-body checks that run before the register and login
 * handlers. Each failing check contributes its message, in the order of the chain; the
 * request is refused when any message is produced. A missing field reads as "".
 */
module Validators {
  import opened Text

  const NameLength := "Nome deve ter entre 2 e 100 caracteres"
  const PasswordTooShort := "Senha deve ter pelo menos 6 caracteres"
  const PasswordWeak := "Senha deve conter " + "pelo menos: 1 letra minúscula, " + "1 maiúscula e 1 número"
  const PasswordRequired := "Senha é obrigatória"

  // ---------------------------------------------------------------- register

  /** `body('name').trim().isLength({ min: 2, max: 100 })`: the length is that of the trimmed name. */
  predicate NameValid(name: string) {
    2 <= |Trim(name)| <= 100
  }

  /** `body('password').isLength({ min: 6 })`. */
  predicate PasswordLongEnough(password: string) {
    |password| >= 6
  }

  /** The characters `.` does not match in a regular expression without the `s` flag. */
  predicate IsLineTerminator(c: char) {
    c == '\n' || c == '\r' || c == '\U{2028}' || c == '\U{2029}'
  }

  /**
   * The lookahead `(?=.*[class])` tried at the start of `s`: `.*` consumes characters that
   * are not line terminators, and then one character must be in the class.
   */
  predicate AnyThen(s: string, inClass: char -> bool)
    decreases |s|
  {
    s != [] && (inClass(s[0]) || (!IsLineTerminator(s[0]) && AnyThen(s[1..], inClass)))
  }

  /** `/^(?=.*[a-z])(?=.*[A-Z])(?=.*\d)/`: three lookaheads at the start, nothing consumed. */
  predicate PasswordPatternMatches(password: string) {
    AnyThen(password, IsLower) && AnyThen(password, IsUpper) && AnyThen(password, IsDigit)
  }

  lemma RegisterMessagesDistinct()
    ensures NameLength != PasswordTooShort && NameLength != PasswordWeak && PasswordTooShort != PasswordWeak
  {
    assert NameLength[0] != PasswordTooShort[0];
    assert NameLength[0] != PasswordWeak[0];
    assert PasswordTooShort[11] != PasswordWeak[11];
  }

  /** The messages of `userValidators.register()` for a name and a password (the email check is not modelled). */
  function RegisterErrors(name: string, password: string): (errors: seq<string>)
    ensures errors == [] <==> NameValid(name) && PasswordLongEnough(password) && PasswordPatternMatches(password)
    ensures NameLength in errors <==> !NameValid(name)
    ensures PasswordTooShort in errors <==> !PasswordLongEnough(password)
    ensures PasswordWeak in errors <==> !PasswordPatternMatches(password)
  {
    RegisterMessagesDistinct();
    ThreeChecks(NameLength, PasswordTooShort, PasswordWeak,
      NameValid(name), PasswordLongEnough(password), PasswordPatternMatches(password));
    (if NameValid(name) then [] else [NameLength])
    + (if PasswordLongEnough(password) then [] else [PasswordTooShort])
    + (if PasswordPatternMatches(password) then [] else [PasswordWeak])
  }

  /** Three checks with distinct messages: each message is reported exactly when its check fails. */
  lemma ThreeChecks(x: string, y: string, z: string, p: bool, q: bool, r: bool)
    requires x != y && x != z && y != z
    ensures var e := (if p then [] else [x]) + (if q then [] else [y]) + (if r then [] else [z]);
      && (e == [] <==> p && q && r)
      && (x in e <==> !p) && (y in e <==> !q) && (z in e <==> !r)
  {
  }

  /** The name check does not see surrounding whitespace: a name is valid exactly when its trimmed form is. */
  lemma NameValidIgnoresPadding(name: string)
    ensures NameValid(name) <==> NameValid(Trim(name))
  {
    TrimIdempotent(name);
  }

  /** A lookahead finds a character of the class exactly when one occurs before the first line terminator. */
  lemma {:induction false} AnyThenBeforeLineBreak(s: string, inClass: char -> bool)
    ensures AnyThen(s, inClass) <==>
      exists i :: 0 <= i < |s| && inClass(s[i]) && forall j :: 0 <= j < i ==> !IsLineTerminator(s[j])
  {
    if s != [] {
      AnyThenBeforeLineBreak(s[1..], inClass);
      if AnyThen(s, inClass) && !inClass(s[0]) {
        var i :| 0 <= i < |s[1..]| && inClass(s[1..][i]) && forall j :: 0 <= j < i ==> !IsLineTerminator(s[1..][j]);
        assert inClass(s[i + 1]);
        assert forall j :: 0 <= j < i + 1 ==> !IsLineTerminator(s[j]) by {
          forall j | 0 <= j < i + 1 ensures !IsLineTerminator(s[j]) {
            if j > 0 { assert s[j] == s[1..][j - 1]; }
          }
        }
      }
      if !AnyThen(s, inClass) {
        forall i | 0 <= i < |s| && inClass(s[i]) ensures exists j :: 0 <= j < i && IsLineTerminator(s[j]) {
          assert i > 0;
          assert IsLineTerminator(s[0]) || !AnyThen(s[1..], inClass);
          if !IsLineTerminator(s[0]) {
            assert inClass(s[1..][i - 1]);
            var j :| 0 <= j < i - 1 && IsLineTerminator(s[1..][j]);
            assert IsLineTerminator(s[j + 1]);
          }
        }
      }
    }
  }

  /**
   * On a single-line password the three classes may come in any positions: the pattern
   * matches exactly when a lowercase letter, an uppercase letter and a digit all occur.
   */
  lemma PatternOnOneLine(password: string)
    requires forall i :: 0 <= i < |password| ==> !IsLineTerminator(password[i])
    ensures PasswordPatternMatches(password) <==>
      && (exists i :: 0 <= i < |password| && IsLower(password[i]))
      && (exists i :: 0 <= i < |password| && IsUpper(password[i]))
      && (exists i :: 0 <= i < |password| && IsDigit(password[i]))
  {
    AnyThenBeforeLineBreak(password, IsLower);
    AnyThenBeforeLineBreak(password, IsUpper);
    AnyThenBeforeLineBreak(password, IsDigit);
  }

  /** A letter or digit after a line break does not count: 'aB\n1xxxx' fails the pattern. */
  lemma PatternStopsAtLineBreak()
    ensures !PasswordPatternMatches("aB\n1xxxx")
  {
    var s := "aB\n1xxxx";
    assert s[1..][1..] == "\n1xxxx";
    assert !AnyThen("\n1xxxx", IsDigit);
    assert !AnyThen(s[1..], IsDigit);
  }

  // ---------------------------------------------------------------- login

  /** The messages of `userValidators.login()` for a password: `notEmpty` only. */
  function LoginErrors(password: string): (errors: seq<string>)
    ensures errors == [] <==> password != ""
  {
    if password == "" then [PasswordRequired] else []
  }

  /** A password of spaces passes the login check, which does not trim, while failing the register rules. */
  lemma LoginAcceptsBlankPassword()
    ensures LoginErrors("      ") == []
    ensures PasswordWeak in RegisterErrors("Ana", "      ")
  {
    assert !AnyThen("      ", IsDigit) by {
      var s := "      ";
      assert forall i :: 0 <= i < |s| ==> !IsDigit(s[i]);
      AnyThenBeforeLineBreak(s, IsDigit);
    }
  }
}
