/** The e-mail form of mobile-app/src/screens/ForgotPasswordScreen.tsx: an
    address is sent only when it is non-empty and matches
    `^[^\s@]+@[^\s@]+\.[^\s@]+$`, and the next screen is handed the same
    address. The server's answer is an input. */
module ForgotPasswordScreen {
  import opened Base
  import opened Text

  /** The characters JavaScript's `\s` matches: the ECMAScript white space
      and line terminators. */
  predicate IsJsSpace(c: char) {
    || c == '\t' || c == '\n' || c == '\U{000B}' || c == '\U{000C}' || c == '\r' || c == ' '
    || c == '\U{00A0}' || c == '\U{1680}' || ('\U{2000}' <= c <= '\U{200A}')
    || c == '\U{2028}' || c == '\U{2029}' || c == '\U{202F}' || c == '\U{205F}'
    || c == '\U{3000}' || c == '\U{FEFF}'
  }

  /** A run of `[^\s@]+`: non-empty, with no white space and no '@'. */
  predicate IsPlainRun(s: string) {
    s != [] && forall k | 0 <= k < |s| :: !IsJsSpace(s[k]) && s[k] != '@'
  }

  /** The regular expression, segment by segment: a local part, '@', a
      run, '.', a run, and nothing else. */
  ghost predicate MatchesEmailPattern(s: string) {
    exists i, j | 0 <= i < j < |s| ::
      s[i] == '@' && s[j] == '.'
      && IsPlainRun(s[..i]) && IsPlainRun(s[i + 1..j]) && IsPlainRun(s[j + 1..])
  }

  /** The same test stated character by character: no white space, exactly
      one '@' with something before it, and a '.' after the '@' that is
      neither the first nor the last character of the domain. */
  predicate EmailChars(s: string) {
    (forall k | 0 <= k < |s| :: !IsJsSpace(s[k]))
    && exists a | 0 < a < |s| ::
         && s[a] == '@'
         && (forall k | 0 <= k < |s| && s[k] == '@' :: k == a)
         && exists d | a + 1 < d < |s| - 1 :: s[d] == '.'
  }

  /** `emailRegex.test(email)`. */
  function IsValidEmail(s: string): (r: bool)
    ensures r <==> MatchesEmailPattern(s)
  {
    EmailCheckMatchesPattern(s);
    EmailChars(s)
  }

  lemma EmailCheckMatchesPattern(s: string)
    ensures EmailChars(s) <==> MatchesEmailPattern(s)
  {
    if MatchesEmailPattern(s) {
      PatternGivesChars(s);
    }
    if EmailChars(s) {
      CharsGivePattern(s);
    }
  }

  lemma PatternGivesChars(s: string)
    requires MatchesEmailPattern(s)
    ensures EmailChars(s)
  {
    var i, j :| 0 <= i < j < |s| && s[i] == '@' && s[j] == '.'
                && IsPlainRun(s[..i]) && IsPlainRun(s[i + 1..j]) && IsPlainRun(s[j + 1..]);
    PatternAtGivesChars(s, i, j);
  }

  lemma PatternAtGivesChars(s: string, i: int, j: int)
    requires 0 <= i < j < |s| && s[i] == '@' && s[j] == '.'
    requires IsPlainRun(s[..i]) && IsPlainRun(s[i + 1..j]) && IsPlainRun(s[j + 1..])
    ensures EmailChars(s)
  {
    assert s[..i] == s[0..i] && s[j + 1..] == s[j + 1..|s|];
    forall k | 0 <= k < |s| ensures !IsJsSpace(s[k]) && (s[k] == '@' ==> k == i) {
      if k < i {
        PlainRunChar(s, 0, i, k);
      } else if i < k < j {
        PlainRunChar(s, i + 1, j, k);
      } else if j < k {
        PlainRunChar(s, j + 1, |s|, k);
      }
    }
    assert i + 1 < j < |s| - 1;
  }

  lemma PlainRunChar(s: string, lo: int, hi: int, k: int)
    requires 0 <= lo <= k < hi <= |s| && IsPlainRun(s[lo..hi])
    ensures !IsJsSpace(s[k]) && s[k] != '@'
  {
    assert s[k] == s[lo..hi][k - lo];
  }

  lemma CharsGivePattern(s: string)
    requires EmailChars(s)
    ensures MatchesEmailPattern(s)
  {
    var a :| 0 < a < |s| && s[a] == '@' && (forall k | 0 <= k < |s| && s[k] == '@' :: k == a)
             && exists d | a + 1 < d < |s| - 1 :: s[d] == '.';
    var d :| a + 1 < d < |s| - 1 && s[d] == '.';
    CharsAtGivePattern(s, a, d);
  }

  lemma CharsAtGivePattern(s: string, a: int, d: int)
    requires forall k | 0 <= k < |s| :: !IsJsSpace(s[k])
    requires 0 < a && a + 1 < d < |s| - 1 && s[a] == '@' && s[d] == '.'
    requires forall k | 0 <= k < |s| && s[k] == '@' :: k == a
    ensures MatchesEmailPattern(s)
  {
    PlainSlice(s, a, 0, a);
    PlainSlice(s, a, a + 1, d);
    PlainSlice(s, a, d + 1, |s|);
    assert s[..a] == s[0..a] && s[d + 1..] == s[d + 1..|s|];
  }

  lemma PlainSlice(s: string, a: int, lo: int, hi: int)
    requires forall k | 0 <= k < |s| :: !IsJsSpace(s[k])
    requires forall k | 0 <= k < |s| && s[k] == '@' :: k == a
    requires 0 <= lo < hi <= |s| && !(lo <= a < hi)
    ensures IsPlainRun(s[lo..hi])
  {
    forall m | 0 <= m < hi - lo ensures !IsJsSpace(s[lo..hi][m]) && s[lo..hi][m] != '@' {
      assert s[lo..hi][m] == s[lo + m];
    }
  }

  /** What pressing "Send OTP" does. */
  datatype ForgotOutcome = ForgotOutcome(sent: Option<string>, alert: string, offerVerifyOtp: Option<string>)

  /** `handleForgotPassword`. `send` is the server's answer for the address. */
  function HandleForgotPassword(email: string, send: string -> Result<(), Option<string>>): (r: ForgotOutcome)
    // an empty address is refused first, then one that does not match
    ensures email == "" ==> r == ForgotOutcome(None, "Please enter your email address", None)
    ensures email != "" && !MatchesEmailPattern(email) ==>
              r == ForgotOutcome(None, "Please enter a valid email address", None)
    // only a matching address is sent, unchanged
    ensures r.sent.Some? <==> email != "" && MatchesEmailPattern(email)
    ensures r.sent.Some? ==> r.sent.value == email
    // the next screen is offered after the server accepted, with the same address
    ensures r.offerVerifyOtp.Some? <==> r.sent.Some? && send(email).Ok?
    ensures r.offerVerifyOtp.Some? ==> r.offerVerifyOtp.value == email
  {
    if email == "" then ForgotOutcome(None, "Please enter your email address", None)
    else if !IsValidEmail(email) then ForgotOutcome(None, "Please enter a valid email address", None)
    else
      match send(email)
      case Ok(_) =>
        ForgotOutcome(Some(email), "If the email exists in our system, an OTP has been sent to your email address. Please check your inbox (and spam folder).", Some(email))
      case Err(message) =>
        ForgotOutcome(Some(email), OrFallback(message, "Failed to send OTP. Please try again."), None)
  }

  /** An address of the usual shape is accepted. */
  lemma AcceptsPlainAddress()
    ensures IsValidEmail("ravi@fuel.in")
  {
    var ok := "ravi@fuel.in";
    assert ok[..4] == "ravi" && ok[5..9] == "fuel" && ok[10..] == "in";
    LowerCaseRunIsPlain("ravi");
    LowerCaseRunIsPlain("fuel");
    LowerCaseRunIsPlain("in");
    assert ok[4] == '@' && ok[9] == '.';
  }

  lemma LowerCaseRunIsPlain(s: string)
    requires s != [] && forall k | 0 <= k < |s| :: 'a' <= s[k] <= 'z'
    ensures IsPlainRun(s)
  {
  }

  /** An address with a second '@' is refused. */
  lemma RefusesSecondAt()
    ensures !IsValidEmail("a@b@c.in")
  {
    var twoAts := "a@b@c.in";
    assert twoAts[1] == '@' && twoAts[3] == '@';
  }
}
