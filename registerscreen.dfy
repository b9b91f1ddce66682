/**
 * The sign-up form: the e-mail pattern, the five password rules and the
 * strength bar built from them, the error each field gets on submit (with
 * the mock duplicate-account check), and what a successful sign-up stores.
 */
module RegisterScreen {
  import opened Wrappers
  import opened Text

  // ---------------------------------------------------------------------
  // The e-mail pattern /^[^\s@]+@[^\s@]+\.[^\s@]+$/
  // ---------------------------------------------------------------------

  /** A character of the class `[^\s@]`. */
  predicate RunChar(c: char) {
    !IsSpace(c) && c != '@'
  }

  /** A match of `[^\s@]+`. */
  predicate IsRun(s: string) {
    |s| >= 1 && forall i :: 0 <= i < |s| ==> RunChar(s[i])
  }

  /** The whole address is a run, '@', a run, '.', a run. */
  predicate ValidateEmail(email: string) {
    exists at, dot :: 0 <= at < dot < |email| && email[at] == '@' && email[dot] == '.'
      && IsRun(email[..at]) && IsRun(email[at + 1..dot]) && IsRun(email[dot + 1..])
  }

  /** How many times `c` occurs in `s`. */
  function Occurrences(s: string, c: char): nat {
    if s == [] then 0 else Occurrences(s[..|s| - 1], c) + (if s[|s| - 1] == c then 1 else 0)
  }

  lemma {:induction false} OccurrencesConcat(a: string, b: string, c: char)
    ensures Occurrences(a + b, c) == Occurrences(a, c) + Occurrences(b, c)
  {
    if b == [] {
      assert a + b == a;
    } else {
      assert (a + b)[..|a + b| - 1] == a + b[..|b| - 1];
      OccurrencesConcat(a, b[..|b| - 1], c);
    }
  }

  lemma {:induction false} OccurrencesZero(s: string, c: char)
    ensures Occurrences(s, c) == 0 <==> c !in s
  {
    if s != [] {
      OccurrencesZero(s[..|s| - 1], c);
      assert s == s[..|s| - 1] + [s[|s| - 1]];
    }
  }

  /** A run holds no '@' and no white space. */
  lemma RunHasNoAt(s: string)
    requires IsRun(s)
    ensures Occurrences(s, '@') == 0 && NoSpace(s)
  {
    OccurrencesZero(s, '@');
  }

  /** The pieces of an address around its '@' and its '.'. */
  lemma EmailPieces(email: string, at: int, dot: int)
    requires 0 <= at < dot < |email|
    ensures email == email[..at] + [email[at]] + email[at + 1..dot] + [email[dot]] + email[dot + 1..]
  {
  }

  /** A matching address has no white space and exactly one '@'. */
  lemma MatchHasOneAt(email: string, at: int, dot: int)
    requires 0 <= at < dot < |email| && email[at] == '@' && email[dot] == '.'
    requires IsRun(email[..at]) && IsRun(email[at + 1..dot]) && IsRun(email[dot + 1..])
    ensures NoSpace(email) && Occurrences(email, '@') == 1
  {
    var a, b, c := email[..at], email[at + 1..dot], email[dot + 1..];
    RunHasNoAt(a);
    RunHasNoAt(b);
    RunHasNoAt(c);
    EmailPieces(email, at, dot);
    OccurrencesConcat(a + [email[at]] + b + [email[dot]], c, '@');
    OccurrencesConcat(a + [email[at]] + b, [email[dot]], '@');
    OccurrencesConcat(a + [email[at]], b, '@');
    OccurrencesConcat(a, [email[at]], '@');
    assert Occurrences([email[dot]], '@') == 0 by { assert [email[dot]][..0] == []; }
    assert Occurrences([email[at]], '@') == 1 by { assert [email[at]][..0] == []; }
    forall i | 0 <= i < |email| ensures !IsSpace(email[i]) {
      if i < at {
        assert email[i] == a[i];
      } else if at < i < dot {
        assert email[i] == b[i - at - 1];
      } else if dot < i {
        assert email[i] == c[i - dot - 1];
      }
    }
  }

  /** With exactly one '@', the text on either side of it has none. */
  lemma OneAtSides(email: string, at: int)
    requires 0 <= at < |email| && email[at] == '@' && Occurrences(email, '@') == 1
    ensures '@' !in email[..at] && '@' !in email[at + 1..]
  {
    assert email == email[..at] + [email[at]] + email[at + 1..];
    OccurrencesConcat(email[..at] + [email[at]], email[at + 1..], '@');
    OccurrencesConcat(email[..at], [email[at]], '@');
    assert Occurrences([email[at]], '@') == 1 by { assert [email[at]][..0] == []; }
    OccurrencesZero(email[..at], '@');
    OccurrencesZero(email[at + 1..], '@');
  }

  /** A piece of an address without white space and with nothing but `at` as its '@' is a run when non-empty. */
  lemma PieceIsRun(email: string, at: int, lo: int, hi: int)
    requires 0 <= lo < hi <= |email| && NoSpace(email)
    requires 0 <= at < |email| && email[at] == '@' && Occurrences(email, '@') == 1
    requires hi <= at || at < lo
    ensures IsRun(email[lo..hi])
  {
    OneAtSides(email, at);
    forall i | 0 <= i < hi - lo ensures RunChar(email[lo..hi][i]) {
      var k := lo + i;
      assert email[lo..hi][i] == email[k];
      if k < at {
        assert email[k] == email[..at][k];
      } else {
        assert email[k] == email[at + 1..][k - at - 1];
      }
    }
  }

  /**
   * The pattern accepts an address exactly when it has no white space and
   * exactly one '@', something before the '@', and a '.' after it that is
   * neither the first nor the last character of the domain.
   */
  lemma ValidateEmailMeans(email: string)
    ensures ValidateEmail(email) <==>
      NoSpace(email) && Occurrences(email, '@') == 1
      && exists at, dot :: 0 < at && at + 1 < dot < |email| - 1 && email[at] == '@' && email[dot] == '.'
  {
    if ValidateEmail(email) {
      var at, dot :| 0 <= at < dot < |email| && email[at] == '@' && email[dot] == '.'
        && IsRun(email[..at]) && IsRun(email[at + 1..dot]) && IsRun(email[dot + 1..]);
      MatchHasOneAt(email, at, dot);
    }
    if NoSpace(email) && Occurrences(email, '@') == 1
      && exists at, dot :: 0 < at && at + 1 < dot < |email| - 1 && email[at] == '@' && email[dot] == '.' {
      var at, dot :| 0 < at && at + 1 < dot < |email| - 1 && email[at] == '@' && email[dot] == '.';
      PieceIsRun(email, at, 0, at);
      PieceIsRun(email, at, at + 1, dot);
      PieceIsRun(email, at, dot + 1, |email|);
      assert email[0..at] == email[..at] && email[dot + 1..|email|] == email[dot + 1..];
    }
  }

  // ---------------------------------------------------------------------
  // Password rules
  // ---------------------------------------------------------------------

  /** The class of `/[!@#$%^&*(),.?":{}|<>]/`. */
  const SpecialChars: string := "!@#$%^&*(),.?\":{}|<>"

  predicate HasUpperCase(p: string) {
    exists i :: 0 <= i < |p| && 'A' <= p[i] <= 'Z'
  }

  predicate HasLowerCase(p: string) {
    exists i :: 0 <= i < |p| && 'a' <= p[i] <= 'z'
  }

  predicate HasNumber(p: string) {
    exists i :: 0 <= i < |p| && '0' <= p[i] <= '9'
  }

  predicate HasSpecialChar(p: string) {
    exists i :: 0 <= i < |p| && p[i] in SpecialChars
  }

  /** The object `validatePassword` returns: the five rules and their conjunction. */
  datatype PasswordCheck = PasswordCheck(
    minLength: bool, hasUpperCase: bool, hasLowerCase: bool,
    hasNumbers: bool, hasSpecialChar: bool, isValid: bool)

  function ValidatePassword(p: string): PasswordCheck {
    var minLength, upper, lower, digits, special :=
      Utf16Length(p) >= 8, HasUpperCase(p), HasLowerCase(p), HasNumber(p), HasSpecialChar(p);
    PasswordCheck(minLength, upper, lower, digits, special,
      minLength && upper && lower && digits && special)
  }

  function B2I(b: bool): nat {
    if b then 1 else 0
  }

  /** `Object.values(passwordValidation).filter(Boolean).length`: the true values, `isValid` among them. */
  function Strength(c: PasswordCheck): nat {
    B2I(c.minLength) + B2I(c.hasUpperCase) + B2I(c.hasLowerCase)
    + B2I(c.hasNumbers) + B2I(c.hasSpecialChar) + B2I(c.isValid)
  }

  /** Strength bar `level` (1 to 5) is lit when the strength reaches it. */
  predicate BarLit(p: string, level: int) {
    Strength(ValidatePassword(p)) >= level
  }

  /**
   * A valid password counts six (its five rules and `isValid` itself);
   * an invalid one at most four. So the fifth, success-coloured bar is lit
   * exactly for valid passwords, and the first four bars light for a
   * password meeting four of the five rules.
   */
  lemma StrengthOfPassword(p: string)
    ensures ValidatePassword(p).isValid ==> Strength(ValidatePassword(p)) == 6
    ensures !ValidatePassword(p).isValid ==> Strength(ValidatePassword(p)) <= 4
    ensures BarLit(p, 5) <==> ValidatePassword(p).isValid
  {
  }

  // ---------------------------------------------------------------------
  // Submit
  // ---------------------------------------------------------------------

  const EmailRequiredMessage: string := "Email is required"
  const EmailInvalidMessage: string := "Please enter a valid email address"
  const EmailTakenMessage: string := "An account with this email already exists"
  const PasswordRequiredMessage: string := "Password is required"
  const PasswordWeakMessage: string := "Password does not meet requirements"
  const ConfirmRequiredMessage: string := "Please confirm your password"
  const ConfirmMismatchMessage: string := "Passwords do not match"
  const ExistingEmail: string := "existing@example.com"

  /** The error of each field; an absent error and the cleared `''` are both `None`. */
  datatype RegisterErrors = RegisterErrors(email: Option<string>, password: Option<string>, confirmPassword: Option<string>)
  {
    predicate Any() {
      email.Some? || password.Some? || confirmPassword.Some?
    }
  }

  /** The e-mail error the submit ends with, the duplicate check overriding the others. */
  function EmailError(email: string): Option<string> {
    if email == ExistingEmail then Some(EmailTakenMessage)
    else if email == "" then Some(EmailRequiredMessage)
    else if !ValidateEmail(email) then Some(EmailInvalidMessage)
    else None
  }

  function PasswordError(password: string): Option<string> {
    if password == "" then Some(PasswordRequiredMessage)
    else if !ValidatePassword(password).isValid then Some(PasswordWeakMessage)
    else None
  }

  function ConfirmError(password: string, confirm: string): Option<string> {
    if confirm == "" then Some(ConfirmRequiredMessage)
    else if password != confirm then Some(ConfirmMismatchMessage)
    else None
  }

  function SubmitErrors(email: string, password: string, confirm: string): RegisterErrors {
    RegisterErrors(EmailError(email), PasswordError(password), ConfirmError(password, confirm))
  }

  /** The demo address never matches the empty-address case, so the "required" error is exactly the empty address's. */
  lemma RequiredComesFirst(email: string, password: string, confirm: string)
    ensures EmailError(email) == Some(EmailRequiredMessage) <==> email == ""
    ensures PasswordError(password) == Some(PasswordRequiredMessage) <==> password == ""
    ensures ConfirmError(password, confirm) == Some(ConfirmRequiredMessage) <==> confirm == ""
  {
  }

  /** The mismatch error arises exactly for a non-empty confirmation that differs from the password. */
  lemma MismatchExactly(password: string, confirm: string)
    ensures ConfirmError(password, confirm) == Some(ConfirmMismatchMessage) <==> confirm != "" && confirm != password
  {
  }

  /** The demo address always ends with the duplicate-account error, and no other address does. */
  lemma DuplicateOverrides(email: string)
    ensures EmailError(email) == Some(EmailTakenMessage) <==> email == ExistingEmail
  {
  }

  /** The empty address does not match the pattern. */
  lemma EmptyEmailInvalid()
    ensures !ValidateEmail("")
  {
  }

  /** A submit has no error exactly when the address matches and is not taken, the password is valid and the confirmation equals it. */
  lemma AcceptedExactly(email: string, password: string, confirm: string)
    ensures !SubmitErrors(email, password, confirm).Any() <==>
      ValidateEmail(email) && email != ExistingEmail && ValidatePassword(password).isValid && confirm == password
  {
    EmptyEmailInvalid();
    if ValidatePassword(password).isValid {
      assert Utf16Length(password) >= 8;
    }
  }

  /** Length is counted in UTF-16 code units: four ASCII characters and two emoji make eight. */
  lemma EmojiPasswordValid()
    ensures ValidatePassword("Aa1!\U{1F389}\U{1F389}").isValid
  {
    var p := "Aa1!\U{1F389}\U{1F389}";
    assert CodeUnits(p, 4) == 4 by {
      assert CodeUnits(p, 1) == 1 && CodeUnits(p, 2) == 2 && CodeUnits(p, 3) == 3;
    }
    assert CodeUnits(p, 5) == 6;
    assert p[1..] == "a1!\U{1F389}\U{1F389}" && p[2..] == "1!\U{1F389}\U{1F389}" && p[3..] == "!\U{1F389}\U{1F389}";
    assert p[0] == 'A' && p[1] == 'a' && p[2] == '1' && p[3] == '!';
  }

  /** The user a sign-up stores. */
  datatype StoredUser = StoredUser(id: string, email: string, name: string, createdAt: string)

  /** `email.split('@')[0]`. */
  function NameOf(email: string): string {
    Split(email, '@')[0]
  }

  /** For a valid address, the stored name is the whole non-empty part before its '@'. */
  lemma NameIsLocalPart(email: string, at: int)
    requires 0 <= at < |email| && email[at] == '@' && IsRun(email[..at])
    ensures NameOf(email) == email[..at] && NameOf(email) != []
  {
    FirstPiece(email, '@');
    var p := NameOf(email);
    assert '@' !in p;
  }

  datatype Field = EmailField | PasswordField | ConfirmField

  class RegisterForm {
    var email: string
    var password: string
    var confirmPassword: string
    var errors: RegisterErrors
    var isLoading: bool
    /** The stored `authToken` and `user` entries. */
    var authToken: Option<string>
    var storedUser: Option<StoredUser>
    var navigatedTo: Option<string>

    constructor ()
      ensures email == "" && password == "" && confirmPassword == ""
      ensures errors == RegisterErrors(None, None, None) && !isLoading
      ensures authToken == None && storedUser == None && navigatedTo == None
    {
      email, password, confirmPassword := "", "", "";
      errors := RegisterErrors(None, None, None);
      isLoading := false;
      authToken, storedUser, navigatedTo := None, None, None;
    }

    /** `handleInputChange`: the field takes the value and its own error, if any, is cleared. */
    method InputChange(field: Field, value: string)
      modifies this
      ensures field == EmailField ==> (
        email == value && errors == old(errors).(email := None)
        && password == old(password) && confirmPassword == old(confirmPassword))
      ensures field == PasswordField ==> (
        password == value && errors == old(errors).(password := None)
        && email == old(email) && confirmPassword == old(confirmPassword))
      ensures field == ConfirmField ==> (
        confirmPassword == value && errors == old(errors).(confirmPassword := None)
        && email == old(email) && password == old(password))
      ensures isLoading == old(isLoading)
      ensures authToken == old(authToken) && storedUser == old(storedUser) && navigatedTo == old(navigatedTo)
    {
      match field
      case EmailField =>
        email := value;
        if errors.email.Some? { errors := errors.(email := None); }
      case PasswordField =>
        password := value;
        if errors.password.Some? { errors := errors.(password := None); }
      case ConfirmField =>
        confirmPassword := value;
        if errors.confirmPassword.Some? { errors := errors.(confirmPassword := None); }
    }

    /**
     * `handleSubmit`: the errors are collected field by field, the duplicate
     * check last; with any error they are shown and nothing is stored;
     * otherwise the token and the user are stored and the dashboard opens.
     */
    method HandleSubmit(now: string)
      modifies this
      ensures email == old(email) && password == old(password) && confirmPassword == old(confirmPassword)
      ensures !isLoading
      ensures var found := SubmitErrors(email, password, confirmPassword);
        if found.Any() then
          errors == found && authToken == old(authToken) && storedUser == old(storedUser) && navigatedTo == old(navigatedTo)
        else
          errors == old(errors) && authToken == Some("mock_token_123")
          && storedUser == Some(StoredUser("user_123", email, NameOf(email), now))
          && navigatedTo == Some("/dashboard")
    {
      isLoading := true;
      var emailError: Option<string> := None;
      if email == "" {
        emailError := Some(EmailRequiredMessage);
      } else if !ValidateEmail(email) {
        emailError := Some(EmailInvalidMessage);
      }
      var passwordError: Option<string> := None;
      if password == "" {
        passwordError := Some(PasswordRequiredMessage);
      } else if !ValidatePassword(password).isValid {
        passwordError := Some(PasswordWeakMessage);
      }
      var confirmError: Option<string> := None;
      if confirmPassword == "" {
        confirmError := Some(ConfirmRequiredMessage);
      } else if password != confirmPassword {
        confirmError := Some(ConfirmMismatchMessage);
      }
      if email == ExistingEmail {
        emailError := Some(EmailTakenMessage);
      }
      var newErrors := RegisterErrors(emailError, passwordError, confirmError);
      if newErrors.Any() {
        errors := newErrors;
        isLoading := false;
        return;
      }
      authToken := Some("mock_token_123");
      storedUser := Some(StoredUser("user_123", email, NameOf(email), now));
      navigatedTo := Some("/dashboard");
      isLoading := false;
    }
  }
}
