/**
 * The browser-side form checks of the login, registration and change-password pages,
 * the username-availability gate and the password-visibility toggle.
 * Each validator is a chain of checks with early return; the first failing check alone
 * decides the alert, and a form that passes every check is submitted.
 */
module AuthForms {
  import opened Common

  // ---------------------------------------------------------------------------
  // String.prototype.trim

  /** The code points JavaScript's `trim` removes: WhiteSpace and LineTerminator. */
  predicate IsJsSpace(c: char)
  {
    c == '\t' || c == '\n' || c == '\U{000B}' || c == '\U{000C}' || c == '\r' || c == ' '
    || c == '\U{00A0}' || c == '\U{1680}' || ('\U{2000}' <= c <= '\U{200A}')
    || c == '\U{2028}' || c == '\U{2029}' || c == '\U{202F}' || c == '\U{205F}'
    || c == '\U{3000}' || c == '\U{FEFF}'
  }

  /** Number of white-space code points at the front of `s`. */
  function LeadingSpaces(s: string): (n: nat)
    ensures n <= |s|
    ensures forall k :: 0 <= k < n ==> IsJsSpace(s[k])
    ensures n < |s| ==> !IsJsSpace(s[n])
  {
    if s != [] && IsJsSpace(s[0]) then 1 + LeadingSpaces(s[1..]) else 0
  }

  /** Number of white-space code points at the back of `s`. */
  function TrailingSpaces(s: string): (n: nat)
    ensures n <= |s|
    ensures forall k :: |s| - n <= k < |s| ==> IsJsSpace(s[k])
    ensures n < |s| ==> !IsJsSpace(s[|s| - 1 - n])
  {
    if s != [] && IsJsSpace(s[|s| - 1]) then 1 + TrailingSpaces(s[..|s| - 1]) else 0
  }

  /** `s.trim()`: the part of `s` between its leading and trailing white space. */
  function Trim(s: string): string
  {
    var lead := LeadingSpaces(s);
    if lead == |s| then [] else s[lead .. |s| - TrailingSpaces(s)]
  }

  /** A trimmed string is a slice of the input with no white space at either end, and it is empty
      exactly when the input is all white space. */
  lemma TrimShape(s: string)
    ensures var t := Trim(s);
      && (t == [] <==> forall k :: 0 <= k < |s| ==> IsJsSpace(s[k]))
      && (t != [] ==> !IsJsSpace(t[0]) && !IsJsSpace(t[|t| - 1]))
      && exists i, j :: 0 <= i <= j <= |s| && t == s[i..j]
  {
    var lead := LeadingSpaces(s);
    if lead < |s| {
      var trail := TrailingSpaces(s);
      assert !IsJsSpace(s[lead]);
      assert Trim(s) == s[lead .. |s| - trail];
    } else {
      assert Trim(s) == s[0..0];
    }
  }

  /** Trimming twice is trimming once. */
  lemma TrimIdempotent(s: string)
    ensures Trim(Trim(s)) == Trim(s)
  {
    TrimShape(s);
    var t := Trim(s);
    if t != [] {
      assert LeadingSpaces(t) == 0;
      assert TrailingSpaces(t) == 0;
      assert t[0..|t|] == t;
    }
  }

  // ---------------------------------------------------------------------------
  // Character classes of the regular expressions

  predicate IsAsciiLetter(c: char)
  {
    ('a' <= c <= 'z') || ('A' <= c <= 'Z')
  }

  predicate IsDigit(c: char)
  {
    '0' <= c <= '9'
  }

  /** `^[a-zA-Z0-9_]{3,20}$` */
  predicate IsValidUsername(s: string)
  {
    3 <= |s| <= 20 && forall k :: 0 <= k < |s| ==> IsWordChar(s[k])
  }

  /** A username that passes the format check has no surrounding white space, so trimming keeps it. */
  lemma ValidUsernameIsTrimmed(s: string)
    requires IsValidUsername(s)
    ensures Trim(s) == s
  {
    assert !IsJsSpace(s[0]);
    assert LeadingSpaces(s) == 0;
    assert !IsJsSpace(s[|s| - 1]);
    assert TrailingSpaces(s) == 0;
    assert s[0..|s|] == s;
  }

  /** A string's `.length` in JavaScript: UTF-16 code units, two for a character beyond U+FFFF. */
  function Utf16Length(s: string): (n: nat)
    ensures |s| <= n <= 2 * |s|
    ensures n == |s| <==> forall k :: 0 <= k < |s| ==> s[k] <= '\U{FFFF}'
  {
    if |s| == 0 then 0
    else
      var rest := Utf16Length(s[1..]);
      assert forall k :: 1 <= k < |s| ==> s[1..][k - 1] == s[k];
      (if s[0] > '\U{FFFF}' then 2 else 1) + rest
  }

  /** `/\d/.test(p) && /[a-zA-Z]/.test(p)` */
  predicate HasDigitAndLetter(p: string)
  {
    (exists k :: 0 <= k < |p| && IsDigit(p[k])) && (exists k :: 0 <= k < |p| && IsAsciiLetter(p[k]))
  }

  /** `[\w-]` */
  predicate IsLabelChar(c: char)
  {
    IsWordChar(c) || c == '-'
  }

  /** `^[\w-]+(\.[\w-]+)*$`: non-empty labels separated by single dots. */
  predicate IsDottedLabels(s: string)
  {
    && s != []
    && s[0] != '.' && s[|s| - 1] != '.'
    && (forall k :: 0 <= k < |s| ==> IsLabelChar(s[k]) || s[k] == '.')
    && (forall k :: 0 <= k < |s| - 1 ==> !(s[k] == '.' && s[k + 1] == '.'))
  }

  /** Index of the last occurrence of `c` in `s`. */
  function LastIndexOf(s: string, c: char): (r: Option<nat>)
    ensures r.Some? ==> (r.value < |s| && s[r.value] == c
                         && forall k :: r.value < k < |s| ==> s[k] != c)
    ensures r.None? ==> forall k :: 0 <= k < |s| ==> s[k] != c
  {
    if s == [] then None
    else if s[|s| - 1] == c then Some(|s| - 1)
    else LastIndexOf(s[..|s| - 1], c)
  }

  /** Index of the first occurrence of `c` in `s`. */
  function IndexOf(s: string, c: char): (r: Option<nat>)
    ensures r.Some? ==> (r.value < |s| && s[r.value] == c
                         && forall k :: 0 <= k < r.value ==> s[k] != c)
    ensures r.None? ==> forall k :: 0 <= k < |s| ==> s[k] != c
  {
    if s == [] then None
    else if s[0] == c then Some(0)
    else match IndexOf(s[1..], c)
      case None => None
      case Some(i) => Some(i + 1)
  }

  /** `^([\w-]+\.)+[a-zA-Z]{2,7}$`: labels each followed by a dot, then a 2 to 7 letter top-level label. */
  predicate IsEmailDomain(s: string)
  {
    match LastIndexOf(s, '.')
    case None => false
    case Some(p) =>
      IsDottedLabels(s[..p])
      && 2 <= |s| - p - 1 <= 7
      && forall k :: p < k < |s| ==> IsAsciiLetter(s[k])
  }

  /** `^[\w-]+(\.[\w-]+)*@([\w-]+\.)+[a-zA-Z]{2,7}$` */
  predicate IsValidEmail(s: string)
  {
    match IndexOf(s, '@')
    case None => false
    case Some(a) => IsDottedLabels(s[..a]) && IsEmailDomain(s[a + 1..])
  }

  /** A well-formed domain has no `@` in it. */
  lemma EmailDomainHasNoAt(d: string)
    requires IsEmailDomain(d)
    ensures forall k :: 0 <= k < |d| ==> d[k] != '@'
  {
    var p := LastIndexOf(d, '.').value;
    var labels := d[..p];
    forall k | 0 <= k < |d|
      ensures d[k] != '@'
    {
      if k < p {
        assert labels[k] == d[k];
        assert IsLabelChar(labels[k]) || labels[k] == '.';
      }
    }
  }

  /** An accepted address contains exactly one `@`: none follows the first. */
  lemma ValidEmailHasOneAt(s: string)
    requires IsValidEmail(s)
    ensures forall k :: IndexOf(s, '@').value < k < |s| ==> s[k] != '@'
  {
    var a := IndexOf(s, '@').value;
    var d := s[a + 1..];
    EmailDomainHasNoAt(d);
    forall k | a < k < |s|
      ensures s[k] != '@'
    {
      assert d[k - a - 1] == s[k];
    }
  }

  // ---------------------------------------------------------------------------
  // Validation chains

  /** A form either goes to the server or is stopped with one alert. */
  datatype Verdict<E> = Submit | Blocked(error: E)

  /** One link of a validation chain: whether it passes and the alert it raises otherwise. */
  datatype Check<E> = Check(passes: bool, error: E)

  /** The outcome of running checks in order with early return. */
  function FirstFailure<E>(checks: seq<Check<E>>): (v: Verdict<E>)
    ensures v.Submit? <==> forall k :: 0 <= k < |checks| ==> checks[k].passes
    ensures v.Blocked? ==>
      exists k :: (0 <= k < |checks| && !checks[k].passes && checks[k].error == v.error
                   && forall j :: 0 <= j < k ==> checks[j].passes)
  {
    if checks == [] then Submit
    else if !checks[0].passes then Blocked(checks[0].error)
    else
      var rest := FirstFailure(checks[1..]);
      assert forall k :: 1 <= k < |checks| ==> checks[k] == checks[1..][k - 1];
      rest
  }

  /** Running the checks from position `k` on: the check at `k` either stops the chain or hands over. */
  lemma FirstFailureStep<E>(checks: seq<Check<E>>, k: nat)
    requires k < |checks|
    ensures FirstFailure(checks[k..]) ==
      if checks[k].passes then FirstFailure(checks[k + 1..]) else Blocked(checks[k].error)
  {
    assert checks[k..][1..] == checks[k + 1..];
  }

  datatype LoginError = LoginMissingField

  /** Login is blocked when the trimmed username or the password is empty. */
  function ValidateLogin(username: string, password: string): (v: Verdict<LoginError>)
    ensures v.Submit? <==>
      password != [] && exists k :: 0 <= k < |username| && !IsJsSpace(username[k])
  {
    TrimShape(username);
    if Trim(username) == [] || password == [] then Blocked(LoginMissingField) else Submit
  }

  /** The registration form's fields; `agreement` is `None` when the page has no agreement box. */
  datatype RegisterForm = RegisterForm(
    username: string, email: string, password: string, confirmPassword: string,
    agreement: Option<bool>)

  datatype RegisterError =
    | RegisterMissingField | UsernameFormat | EmailFormat | PasswordTooShort
    | PasswordTooWeak | PasswordMismatch | AgreementUnchecked

  /** The registration checks in the order the page runs them. */
  function RegisterChecks(f: RegisterForm): seq<Check<RegisterError>>
  {
    var u := Trim(f.username);
    var e := Trim(f.email);
    [ Check(!(u == [] || e == [] || f.password == [] || f.confirmPassword == []), RegisterMissingField),
      Check(IsValidUsername(u), UsernameFormat),
      Check(IsValidEmail(e), EmailFormat),
      Check(Utf16Length(f.password) >= 8, PasswordTooShort),
      Check(HasDigitAndLetter(f.password), PasswordTooWeak),
      Check(f.password == f.confirmPassword, PasswordMismatch),
      Check(!(f.agreement.Some? && !f.agreement.value), AgreementUnchecked) ]
  }

  /** The registration handler's if-chain with early return. */
  function ValidateRegister(f: RegisterForm): (v: Verdict<RegisterError>)
  {
    var u := Trim(f.username);
    var e := Trim(f.email);
    if u == [] || e == [] || f.password == [] || f.confirmPassword == [] then Blocked(RegisterMissingField)
    else if !IsValidUsername(u) then Blocked(UsernameFormat)
    else if !IsValidEmail(e) then Blocked(EmailFormat)
    else if Utf16Length(f.password) < 8 then Blocked(PasswordTooShort)
    else if !HasDigitAndLetter(f.password) then Blocked(PasswordTooWeak)
    else if f.password != f.confirmPassword then Blocked(PasswordMismatch)
    else if f.agreement.Some? && !f.agreement.value then Blocked(AgreementUnchecked)
    else Submit
  }

  /** The handler's chain is the first failure among the registration checks, taken in order. */
  lemma RegisterIsFirstFailure(f: RegisterForm)
    ensures ValidateRegister(f) == FirstFailure(RegisterChecks(f))
  {
    SevenChecks(RegisterChecks(f));
  }

  /** Seven checks in a row stop at the first that fails. */
  lemma SevenChecks<E>(cs: seq<Check<E>>)
    requires |cs| == 7
    ensures FirstFailure(cs) ==
      if !cs[0].passes then Blocked(cs[0].error)
      else if !cs[1].passes then Blocked(cs[1].error)
      else if !cs[2].passes then Blocked(cs[2].error)
      else if !cs[3].passes then Blocked(cs[3].error)
      else if !cs[4].passes then Blocked(cs[4].error)
      else if !cs[5].passes then Blocked(cs[5].error)
      else if !cs[6].passes then Blocked(cs[6].error)
      else Submit
  {
    LastFourChecks(cs);
    FirstFailureStep(cs, 0);
    FirstFailureStep(cs, 1);
    FirstFailureStep(cs, 2);
    assert cs[0..] == cs;
  }

  /** The last four of seven checks in a row stop at the first that fails. */
  lemma LastFourChecks<E>(cs: seq<Check<E>>)
    requires |cs| == 7
    ensures FirstFailure(cs[3..]) ==
      if !cs[3].passes then Blocked(cs[3].error)
      else if !cs[4].passes then Blocked(cs[4].error)
      else if !cs[5].passes then Blocked(cs[5].error)
      else if !cs[6].passes then Blocked(cs[6].error)
      else Submit
  {
    FirstFailureStep(cs, 3);
    FirstFailureStep(cs, 4);
    FirstFailureStep(cs, 5);
    FirstFailureStep(cs, 6);
    assert cs[7..] == [];
  }

  /** A submitted registration carries a well-formed trimmed username and email and a password of at
      least 8 UTF-16 code units with a digit and a letter that equals its confirmation. */
  lemma RegisterSubmitMeans(f: RegisterForm)
    requires ValidateRegister(f).Submit?
    ensures IsValidUsername(Trim(f.username)) && IsValidEmail(Trim(f.email))
    ensures Utf16Length(f.password) >= 8 && HasDigitAndLetter(f.password)
    ensures f.password == f.confirmPassword
    ensures f.agreement != Some(false)
  {
    RegisterIsFirstFailure(f);
    var cs := RegisterChecks(f);
    assert cs[1].passes && cs[2].passes && cs[3].passes && cs[4].passes && cs[5].passes && cs[6].passes;
  }

  /** A password-complexity alert is raised only for a form whose fields are filled, whose username
      and email are well formed and whose password is long enough: the earlier checks come first. */
  lemma WeakPasswordReportedLate(f: RegisterForm)
    requires ValidateRegister(f) == Blocked(PasswordTooWeak)
    ensures Trim(f.username) != [] && Trim(f.email) != []
    ensures IsValidUsername(Trim(f.username)) && IsValidEmail(Trim(f.email)) && Utf16Length(f.password) >= 8
    ensures !HasDigitAndLetter(f.password)
  {
  }

  datatype ChangePasswordForm = ChangePasswordForm(
    currentPassword: string, newPassword: string, confirmPassword: string)

  datatype ChangeError =
    | ChangeMissingField | NewPasswordTooShort | NewPasswordTooWeak | NewPasswordMismatch
    | NewPasswordUnchanged

  /** The change-password handler's if-chain: the same length and complexity rules as registration,
      then the confirmation, and last the new password must differ from the current one. */
  function ValidateChangePassword(f: ChangePasswordForm): (v: Verdict<ChangeError>)
    ensures v.Submit? <==>
      && f.currentPassword != []
      && Utf16Length(f.newPassword) >= 8 && HasDigitAndLetter(f.newPassword)
      && f.newPassword == f.confirmPassword
      && f.newPassword != f.currentPassword
    ensures v == Blocked(NewPasswordUnchanged) ==>
      Utf16Length(f.newPassword) >= 8 && HasDigitAndLetter(f.newPassword) && f.newPassword == f.confirmPassword
  {
    if f.currentPassword == [] || f.newPassword == [] || f.confirmPassword == [] then Blocked(ChangeMissingField)
    else if Utf16Length(f.newPassword) < 8 then Blocked(NewPasswordTooShort)
    else if !HasDigitAndLetter(f.newPassword) then Blocked(NewPasswordTooWeak)
    else if f.newPassword != f.confirmPassword then Blocked(NewPasswordMismatch)
    else if f.newPassword == f.currentPassword then Blocked(NewPasswordUnchanged)
    else Submit
  }

  /** A new password accepted by the change-password form would pass the registration password checks. */
  lemma ChangeAcceptsOnlyRegisterStrength(f: ChangePasswordForm, r: RegisterForm)
    requires ValidateChangePassword(f).Submit?
    requires r.password == f.newPassword && r.confirmPassword == f.confirmPassword
    ensures RegisterChecks(r)[3].passes && RegisterChecks(r)[4].passes && RegisterChecks(r)[5].passes
  {
  }

  // ---------------------------------------------------------------------------
  // Username availability

  /** On keyup a check is scheduled only when the trimmed field is not empty. */
  predicate SchedulesAvailabilityCheck(fieldValue: string)
  {
    Trim(fieldValue) != []
  }

  /** When the timer fires, the query string sent for the field's current value, if any.
      `encodeURIComponent` leaves `[A-Za-z0-9_]` unchanged, so the username goes out as it is. */
  function AvailabilityRequest(fieldValue: string): (r: Option<string>)
    ensures r.Some? <==> IsValidUsername(Trim(fieldValue))
    ensures r.Some? ==> r.value == "/check_username?username=" + Trim(fieldValue)
  {
    var u := Trim(fieldValue);
    if IsValidUsername(u) then Some("/check_username?username=" + u) else None
  }

  /** A value for which a request is made would also have scheduled the check. */
  lemma RequestOnlyAfterSchedule(fieldValue: string)
    requires AvailabilityRequest(fieldValue).Some?
    ensures SchedulesAvailabilityCheck(fieldValue)
  {
  }

  // ---------------------------------------------------------------------------
  // Password visibility

  /** `this.getAttribute('data-target') || 'password'`: a missing or empty attribute names the
      `password` input. */
  function ToggleTarget(dataTarget: Option<string>): (id: string)
    ensures id != []
    ensures dataTarget.Some? && dataTarget.value != [] ==> id == dataTarget.value
  {
    if dataTarget.None? || dataTarget.value == [] then "password" else dataTarget.value
  }

  /** The new `type` of the input after one click. */
  function ToggleInputType(t: string): (r: string)
    ensures r == "text" || r == "password"
    ensures r == "text" <==> t == "password"
  {
    if t == "password" then "text" else "password"
  }

  /** Two clicks restore the input's type exactly when it was `password` or `text`. */
  lemma ToggleTwice(t: string)
    ensures ToggleInputType(ToggleInputType(t)) == t <==> t == "password" || t == "text"
  {
    assert "text" != "password";
  }
}
