/**
 * The login form: the loose e-mail test `/\S+@\S+\.\S+/`, the password
 * length rule, the error each field gets, editing that clears only the
 * edited field's error, and a submit that calls the login only for a
 * valid form and shows a refused login's error.
 */
module LoginForm {
  import opened Wrappers
  import opened Text
  import RegisterScreen
  import LoginScreen

  /** A match of `\S+`. */
  predicate NonSpaceRun(s: string) {
    |s| >= 1 && NoSpace(s)
  }

  /** A match of the pattern at `email[i..j]`, its '@' at `at` and its '.' at `dot`. */
  predicate MatchAt(email: string, i: int, at: int, dot: int, j: int) {
    0 <= i < at < dot < j <= |email| && email[at] == '@' && email[dot] == '.'
    && NonSpaceRun(email[i..at]) && NonSpaceRun(email[at + 1..dot]) && NonSpaceRun(email[dot + 1..j])
  }

  /** The unanchored pattern: somewhere in the text, a run, '@', a run, '.', a run. */
  predicate LooksLikeEmail(email: string) {
    exists i, at, dot, j :: 0 <= i < at < dot < j <= |email| && MatchAt(email, i, at, dot, j)
  }

  /**
   * The shortest match around an '@' at `at` and a '.' at `dot`: a
   * non-space character before the '@', one after the '.', and no white
   * space from the '@' to the '.'.
   */
  predicate ShortMatchAt(email: string, at: int, dot: int) {
    1 <= at && at + 1 < dot && dot + 1 < |email|
    && email[at] == '@' && email[dot] == '.' && !IsSpace(email[at - 1]) && !IsSpace(email[dot + 1])
    && NoSpace(email[at + 1..dot])
  }

  /** The pattern matches exactly when a shortest match exists. */
  lemma LooksLikeEmailShortest(email: string)
    ensures LooksLikeEmail(email) <==> exists at, dot :: ShortMatchAt(email, at, dot)
  {
    if LooksLikeEmail(email) {
      var i, at, dot, j :| 0 <= i < at < dot < j <= |email| && MatchAt(email, i, at, dot, j);
      MatchIsShort(email, i, at, dot, j);
    }
    if exists at, dot :: ShortMatchAt(email, at, dot) {
      var at, dot :| ShortMatchAt(email, at, dot);
      ShortIsMatch(email, at, dot);
    }
  }

  /** A match narrows to the shortest one around the same '@' and '.'. */
  lemma MatchIsShort(email: string, i: int, at: int, dot: int, j: int)
    requires MatchAt(email, i, at, dot, j)
    ensures ShortMatchAt(email, at, dot)
  {
    assert email[i..at][at - i - 1] == email[at - 1];
    assert email[dot + 1..j][0] == email[dot + 1];
  }

  /** The shortest match is a match. */
  lemma ShortIsMatch(email: string, at: int, dot: int)
    requires ShortMatchAt(email, at, dot)
    ensures MatchAt(email, at - 1, at, dot, dot + 2)
  {
    assert NonSpaceRun(email[at - 1..at]);
    assert NonSpaceRun(email[dot + 1..dot + 2]);
  }

  /** Every address the sign-up form accepts, the login form accepts too. */
  lemma SignUpAddressesPass(email: string)
    requires RegisterScreen.ValidateEmail(email)
    ensures LooksLikeEmail(email)
  {
    var at, dot :| 0 <= at < dot < |email| && email[at] == '@' && email[dot] == '.'
      && RegisterScreen.IsRun(email[..at]) && RegisterScreen.IsRun(email[at + 1..dot])
      && RegisterScreen.IsRun(email[dot + 1..]);
    assert email[0..at] == email[..at] && email[dot + 1..|email|] == email[dot + 1..];
    assert MatchAt(email, 0, at, dot, |email|);
  }

  /** The login form accepts addresses the sign-up form refuses: a second '@' is allowed. */
  lemma LoginIsLooser()
    ensures LooksLikeEmail("a@b@c.d") && !RegisterScreen.ValidateEmail("a@b@c.d")
  {
    var e := "a@b@c.d";
    assert e[2..3] == "b" && e[4..5] == "c" && e[6..7] == "d";
    assert NoSpace("c") && NoSpace("d") && NoSpace("b");
    assert MatchAt(e, 2, 3, 5, 7);
    RegisterScreen.ValidateEmailMeans(e);
    TwoAts();
  }

  lemma TwoAts()
    ensures RegisterScreen.Occurrences("a@b@c.d", '@') == 2
  {
    assert RegisterScreen.Occurrences("a", '@') == 0 by { assert "a"[..0] == ""; }
    assert RegisterScreen.Occurrences("a@", '@') == 1 by { assert "a@"[..1] == "a"; }
    assert RegisterScreen.Occurrences("a@b", '@') == 1 by { assert "a@b"[..2] == "a@"; }
    assert RegisterScreen.Occurrences("a@b@", '@') == 2 by { assert "a@b@"[..3] == "a@b"; }
    assert RegisterScreen.Occurrences("a@b@c", '@') == 2 by { assert "a@b@c"[..4] == "a@b@"; }
    assert RegisterScreen.Occurrences("a@b@c.", '@') == 2 by { assert "a@b@c."[..5] == "a@b@c"; }
    assert "a@b@c.d"[..6] == "a@b@c.";
  }

  const EmailRequiredMessage: string := "Email is required"
  const EmailInvalidMessage: string := "Please enter a valid email address"
  const PasswordRequiredMessage: string := "Password is required"
  const PasswordShortMessage: string := "Password must be at least 6 characters"

  function EmailError(email: string): Option<string> {
    if email == "" then Some(EmailRequiredMessage)
    else if !LooksLikeEmail(email) then Some(EmailInvalidMessage)
    else None
  }

  function PasswordError(password: string): Option<string> {
    if password == "" then Some(PasswordRequiredMessage)
    else if Utf16Length(password) < 6 then Some(PasswordShortMessage)
    else None
  }

  /** An empty address is required, a non-empty one is refused exactly when the pattern finds no match. */
  lemma EmailErrorCases(email: string)
    ensures EmailError(email) == Some(EmailRequiredMessage) <==> email == ""
    ensures EmailError(email) == None <==> LooksLikeEmail(email)
  {
  }

  /** An empty password is required, one of one to five UTF-16 code units is too short, six or more pass. */
  lemma PasswordErrorCases(password: string)
    ensures PasswordError(password) == Some(PasswordRequiredMessage) <==> password == ""
    ensures PasswordError(password) == Some(PasswordShortMessage) <==> 1 <= Utf16Length(password) < 6
    ensures PasswordError(password) == None <==> Utf16Length(password) >= 6
  {
  }

  /** Three emoji are six code units, so they make a long enough password. */
  lemma EmojiPasswordLongEnough()
    ensures PasswordError("\U{1F389}\U{1F389}\U{1F389}") == None
  {
    var p := "\U{1F389}\U{1F389}\U{1F389}";
    assert CodeUnits(p, 1) == 2 && CodeUnits(p, 2) == 4;
  }

  /** The demo credentials pass the form, so the one login that succeeds can be submitted. */
  lemma DemoCredentialsPass()
    ensures EmailError(LoginScreen.DemoEmail) == None && PasswordError(LoginScreen.DemoPassword) == None
  {
    var e := LoginScreen.DemoEmail;
    assert e[0..4] == "user" && e[5..12] == "mastery" && e[13..16] == "com";
    assert NoSpace("user") && NoSpace("mastery") && NoSpace("com");
    assert MatchAt(e, 0, 4, 12, 16);
    Utf16LengthOfBmp(LoginScreen.DemoPassword);
  }

  /** `errors`: one entry per field plus the general one; the cleared `''` is `None`. */
  datatype LoginErrors = LoginErrors(email: Option<string>, password: Option<string>, general: Option<string>)
  {
    predicate Any() {
      email.Some? || password.Some? || general.Some?
    }
  }

  datatype Field = EmailField | PasswordField

  class LoginFormState {
    var email: string
    var password: string
    var errors: LoginErrors
    var isLoading: bool

    constructor ()
      ensures email == "" && password == "" && errors == LoginErrors(None, None, None) && !isLoading
    {
      email, password := "", "";
      errors := LoginErrors(None, None, None);
      isLoading := false;
    }

    /** `handleInputChange`: only the edited field changes, and only its error is cleared. */
    method InputChange(field: Field, value: string)
      modifies this
      ensures field == EmailField ==> email == value && password == old(password) && errors == old(errors).(email := None)
      ensures field == PasswordField ==> password == value && email == old(email) && errors == old(errors).(password := None)
      ensures isLoading == old(isLoading)
    {
      match field
      case EmailField =>
        email := value;
        if errors.email.Some? { errors := errors.(email := None); }
      case PasswordField =>
        password := value;
        if errors.password.Some? { errors := errors.(password := None); }
    }

    /** `validateForm`: the errors are replaced by the fields' errors, and the form is valid when there are none. */
    method ValidateForm() returns (ok: bool)
      modifies this
      ensures errors == LoginErrors(EmailError(email), PasswordError(password), None)
      ensures ok <==> !errors.Any()
      ensures email == old(email) && password == old(password) && isLoading == old(isLoading)
    {
      var emailError: Option<string> := None;
      if email == "" {
        emailError := Some(EmailRequiredMessage);
      } else if !LooksLikeEmail(email) {
        emailError := Some(EmailInvalidMessage);
      }
      var passwordError: Option<string> := None;
      if password == "" {
        passwordError := Some(PasswordRequiredMessage);
      } else if Utf16Length(password) < 6 {
        passwordError := Some(PasswordShortMessage);
      }
      errors := LoginErrors(emailError, passwordError, None);
      ok := emailError.None? && passwordError.None?;
    }

    /**
     * `handleSubmit`: an invalid form shows its errors and the login is not
     * called; a valid one calls the login, whose refusal becomes the only
     * error shown.
     */
    method HandleSubmit(session: LoginScreen.Session)
      modifies this, session
      ensures email == old(email) && password == old(password) && !isLoading
      ensures var valid := EmailError(email) == None && PasswordError(password) == None;
        !valid ==> (
          errors == LoginErrors(EmailError(email), PasswordError(password), None)
          && session.authToken == old(session.authToken) && session.storedUser == old(session.storedUser)
          && session.navigatedTo == old(session.navigatedTo))
      ensures var valid := EmailError(email) == None && PasswordError(password) == None;
        var demo := email == LoginScreen.DemoEmail && password == LoginScreen.DemoPassword;
        valid && demo ==> (
          errors == LoginErrors(None, None, None) && session.authToken == Some(LoginScreen.DemoToken)
          && session.storedUser == Some(LoginScreen.DemoUser(email)) && session.navigatedTo == Some("/dashboard"))
      ensures var valid := EmailError(email) == None && PasswordError(password) == None;
        var demo := email == LoginScreen.DemoEmail && password == LoginScreen.DemoPassword;
        valid && !demo ==> (
          errors == LoginErrors(None, None, Some(LoginScreen.InvalidCredentialsMessage()))
          && session.authToken == old(session.authToken) && session.storedUser == old(session.storedUser)
          && session.navigatedTo == old(session.navigatedTo))
    {
      var ok := ValidateForm();
      if !ok {
        isLoading := false;
        return;
      }
      assert errors == LoginErrors(None, None, None);
      isLoading := true;
      var result := session.HandleLogin(email, password);
      if !result.success {
        errors := LoginErrors(None, None, result.error);
      }
      isLoading := false;
    }
  }
}
