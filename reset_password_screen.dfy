/** The new-password form of mobile-app/src/screens/ResetPasswordScreen.tsx:
    the checks made before the reset is sent, the strength shown under the
    field, and the mismatch hint under the confirmation. */
module ResetPasswordScreen {
  import opened Base
  import opened Text

  const MinPasswordLength: nat := 6
  const StrongPasswordLength: nat := 8

  /** `validatePassword`: `None` when the form may be sent, otherwise the
      alert the first failed check raises. */
  function ValidatePassword(newPassword: string, confirmPassword: string): (r: Option<string>)
    ensures r.None? <==>
              newPassword != "" && confirmPassword != "" && |newPassword| >= MinPasswordLength
              && newPassword == confirmPassword
    // the checks in order: both filled, then long enough, then equal
    ensures newPassword == "" || confirmPassword == "" ==> r == Some("Please fill in all fields")
    ensures newPassword != "" && confirmPassword != "" && |newPassword| < MinPasswordLength ==>
              r == Some("Password must be at least 6 characters long")
    ensures (newPassword != "" && confirmPassword != "" && |newPassword| >= MinPasswordLength
             && newPassword != confirmPassword) ==> r == Some("Passwords do not match")
  {
    if newPassword == "" || confirmPassword == "" then Some("Please fill in all fields")
    else if |newPassword| < MinPasswordLength then Some("Password must be at least 6 characters long")
    else if newPassword != confirmPassword then Some("Passwords do not match")
    else None
  }

  datatype Strength = NoStrength | Weak | Fair | Good | Strong

  function StrengthLabel(s: Strength): string {
    match s
    case NoStrength => ""
    case Weak => "Weak"
    case Fair => "Fair"
    case Good => "Good"
    case Strong => "Strong"
  }

  function StrengthColor(s: Strength): string {
    match s
    case NoStrength => ""
    case Weak => "#ff4757"
    case Fair => "#ffa726"
    case Good => "#5352ed"
    case Strong => "#2ed573"
  }

  predicate IsAsciiLetter(c: char) {
    'a' <= c <= 'z' || 'A' <= c <= 'Z'
  }

  /** The characters JavaScript's `.` does not match. */
  predicate IsJsLineTerminator(c: char) {
    c == '\n' || c == '\r' || c == '\U{2028}' || c == '\U{2029}'
  }

  /** No line terminator at an index in `[lo, hi)`. */
  predicate SameLine(p: string, lo: int, hi: int) {
    forall m | 0 <= lo <= m < hi <= |p| :: !IsJsLineTerminator(p[m])
  }

  /** The look-ahead test `(?=.*[a-zA-Z])(?=.*\d)`, searched from every
      position: a letter and a digit with no line terminator between them. */
  predicate HasLetterAndDigit(p: string) {
    exists j, k | 0 <= j < |p| && 0 <= k < |p| ::
      IsAsciiLetter(p[j]) && IsDigit(p[k]) && SameLine(p, if j < k then j else k, if j < k then k else j)
  }

  /** `getPasswordStrength`. */
  function PasswordStrength(p: string): (r: Strength)
    ensures r == NoStrength <==> p == ""
    ensures r == Weak <==> 0 < |p| < MinPasswordLength
    ensures r == Fair <==> MinPasswordLength <= |p| < StrongPasswordLength
    ensures r == Strong <==> |p| >= StrongPasswordLength && HasLetterAndDigit(p)
    ensures r == Good <==> |p| >= StrongPasswordLength && !HasLetterAndDigit(p)
  {
    if |p| == 0 then NoStrength
    else if |p| < MinPasswordLength then Weak
    else if |p| < StrongPasswordLength then Fair
    else if HasLetterAndDigit(p) then Strong
    else Good
  }

  /** A password the form accepts is never shown as empty or weak. */
  lemma AcceptedIsNotWeak(newPassword: string, confirmPassword: string)
    requires ValidatePassword(newPassword, confirmPassword).None?
    ensures PasswordStrength(newPassword) !in {NoStrength, Weak}
  {
  }

  /** Strength only grows as characters are appended. */
  lemma StrengthGrowsWithAppend(p: string, q: string)
    ensures Rank(PasswordStrength(p)) <= Rank(PasswordStrength(p + q))
  {
    if HasLetterAndDigit(p) {
      LetterAndDigitSurviveAppend(p, q);
    }
  }

  lemma LetterAndDigitSurviveAppend(p: string, q: string)
    requires HasLetterAndDigit(p)
    ensures HasLetterAndDigit(p + q)
  {
    var j, k :| 0 <= j < |p| && 0 <= k < |p| && IsAsciiLetter(p[j]) && IsDigit(p[k])
                && SameLine(p, if j < k then j else k, if j < k then k else j);
    var lo, hi := if j < k then j else k, if j < k then k else j;
    var pq := p + q;
    assert pq[j] == p[j] && pq[k] == p[k];
    forall m | 0 <= lo <= m < hi <= |pq| ensures !IsJsLineTerminator(pq[m]) {
      assert pq[m] == p[m];
    }
    assert SameLine(pq, lo, hi);
  }

  /** A line break between the only letters and the only digit keeps a
      long password at "Good": the look-ahead does not reach across it. */
  lemma LineBreakSeparatesLetterAndDigit()
    ensures PasswordStrength("abcdefg\n1") == Good
    ensures PasswordStrength("abcdefg 1") == Strong
  {
    var p := "abcdefg\n1";
    forall j, k | 0 <= j < |p| && 0 <= k < |p| && IsAsciiLetter(p[j]) && IsDigit(p[k])
      ensures !SameLine(p, if j < k then j else k, if j < k then k else j)
    {
      assert j < 7 && k == 8;
      assert IsJsLineTerminator(p[7]);
    }
    var q := "abcdefg 1";
    assert IsAsciiLetter(q[0]) && IsDigit(q[8]) && SameLine(q, 0, 8);
  }

  function Rank(s: Strength): nat {
    match s
    case NoStrength => 0
    case Weak => 1
    case Fair => 2
    case Good => 3
    case Strong => 4
  }

  /** The "Passwords do not match" hint under the confirmation field. */
  function ShowsMismatchHint(newPassword: string, confirmPassword: string): (r: bool)
    ensures r <==> confirmPassword != "" && newPassword != confirmPassword
  {
    |confirmPassword| > 0 && newPassword != confirmPassword
  }

  /** While the hint shows, the form is refused. */
  lemma HintMeansRefused(newPassword: string, confirmPassword: string)
    requires ShowsMismatchHint(newPassword, confirmPassword)
    ensures ValidatePassword(newPassword, confirmPassword).Some?
  {
  }

  /** What pressing "Reset Password" does: the request sent, if any, and the
      alert. */
  datatype ResetOutcome = ResetOutcome(sent: Option<(string, string, string)>, alert: string, offerLogin: bool)

  /** `handleResetPassword`. `reset` is the server's answer for the
      (email, code, password) triple. */
  function HandleResetPassword(email: string, otp: string, newPassword: string, confirmPassword: string,
                               reset: (string, string, string) -> Result<(), Option<string>>): (r: ResetOutcome)
    // the server is asked only when the form passes, and with the typed password
    ensures r.sent.Some? <==> ValidatePassword(newPassword, confirmPassword).None?
    ensures r.sent.Some? ==> r.sent.value == (email, otp, newPassword)
    ensures r.sent.None? ==> r.alert == ValidatePassword(newPassword, confirmPassword).value && !r.offerLogin
    // the way back to sign-in is offered only after the server accepted
    ensures r.offerLogin <==> r.sent.Some? && reset(email, otp, newPassword).Ok?
  {
    match ValidatePassword(newPassword, confirmPassword)
    case Some(message) => ResetOutcome(None, message, false)
    case None =>
      match reset(email, otp, newPassword)
      case Ok(_) =>
        ResetOutcome(Some((email, otp, newPassword)),
                     "Your password has been reset successfully. You can now login with your new password.", true)
      case Err(message) =>
        ResetOutcome(Some((email, otp, newPassword)),
                     OrFallback(message, "Failed to reset password. Please try again."), false)
  }
}
