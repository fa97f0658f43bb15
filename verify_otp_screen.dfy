/** The one-time-password entry of mobile-app/src/screens/VerifyOtpScreen.tsx:
    six one-character slots that take digits only, a focus that moves
    forward on entry and back on backspace, a verify button that insists on
    six digits, and a resend that clears the slots. The server's answers
    are inputs. */
module VerifyOtpScreen {
  import opened Base
  import opened Text

  const SlotCount: nat := 6

  function EmptySlots(): seq<string> { ["", "", "", "", "", ""] }

  /** `value.replace(/[^0-9]/g, '')`. */
  function DigitsOnly(s: string): (r: string)
    ensures forall i | 0 <= i < |r| :: IsDigit(r[i])
    ensures |r| <= |s|
    ensures (forall i | 0 <= i < |s| :: IsDigit(s[i])) ==> r == s
  {
    if s == [] then []
    else (if IsDigit(s[0]) then [s[0]] else []) + DigitsOnly(s[1..])
  }

  /** Removing the non-digits twice removes nothing more. */
  lemma DigitsOnlyIdempotent(s: string)
    ensures DigitsOnly(DigitsOnly(s)) == DigitsOnly(s)
  {
  }

  /** `otp.join('')`. */
  function Concat(slots: seq<string>): (r: string)
    ensures |r| == SumOfLengths(slots)
  {
    if slots == [] then [] else slots[0] + Concat(slots[1..])
  }

  function SumOfLengths(slots: seq<string>): nat {
    if slots == [] then 0 else |slots[0]| + SumOfLengths(slots[1..])
  }

  /** With slots of at most one character, the joined code has six
      characters exactly when all six slots are filled. */
  lemma {:induction false} JoinedLength(slots: seq<string>)
    requires forall i | 0 <= i < |slots| :: |slots[i]| <= 1
    ensures |Concat(slots)| <= |slots|
    ensures |Concat(slots)| == |slots| <==> forall i | 0 <= i < |slots| :: slots[i] != ""
  {
    if slots != [] {
      JoinedLength(slots[1..]);
      assert forall i | 1 <= i < |slots| :: slots[i] == slots[1..][i - 1];
    }
  }

  /** What pressing "Verify" leads to. */
  datatype VerifyOutcome =
    | IncompleteCode                          // alert: enter all six digits
    | OfferResetPassword(email: string, otp: string)  // alert offering the next screen
    | VerifyFailed(message: string)

  class OtpForm {
    const email: string
    var otp: seq<string>
    /** The slot that last received focus. */
    var focused: Option<nat>

    /** Six slots, each empty or one digit. */
    ghost predicate Valid()
      reads this
    {
      |otp| == SlotCount && forall i | 0 <= i < |otp| :: |otp[i]| <= 1 && forall k | 0 <= k < |otp[i]| :: IsDigit(otp[i][k])
    }

    constructor (email: string)
      ensures Valid() && this.email == email && otp == EmptySlots() && focused.None?
    {
      this.email := email;
      otp := EmptySlots();
      focused := None;
    }

    /** `handleOtpChange`: one slot replaced, and the focus moved on when
        something was entered before the last slot. */
    method HandleOtpChange(value: string, index: nat)
      requires index < |otp|
      modifies this`otp, this`focused
      ensures otp == old(otp)[index := value]
      ensures value != "" && index < 5 ==> focused == Some(index + 1)
      ensures !(value != "" && index < 5) ==> focused == old(focused)
    {
      var newOtp := otp;
      newOtp := newOtp[index := value];
      otp := newOtp;
      if value != "" && index < 5 {
        focused := Some(index + 1);
      }
    }

    /** The slot's `onChangeText`: the input holds at most one character
        (its `maxLength` is 1), whose non-digits are dropped before storing. */
    method OnChangeText(value: string, index: nat)
      requires Valid() && index < |otp| && |value| <= 1
      modifies this`otp, this`focused
      ensures Valid()
      ensures otp == old(otp)[index := DigitsOnly(value)]
    {
      HandleOtpChange(DigitsOnly(value), index);
    }

    /** `handleKeyPress`: backspace in an empty slot goes back one slot. */
    method HandleKeyPress(key: string, index: nat)
      requires index < |otp|
      modifies this`focused
      ensures key == "Backspace" && otp[index] == "" && index > 0 ==> focused == Some(index - 1)
      ensures !(key == "Backspace" && otp[index] == "" && index > 0) ==> focused == old(focused)
    {
      if key == "Backspace" && otp[index] == "" && index > 0 {
        focused := Some(index - 1);
      }
    }

    /** `handleVerifyOtp`. `verify` is the server's answer for the joined
        code: success, or the error's message. */
    method HandleVerifyOtp(verify: string -> Result<(), Option<string>>) returns (r: VerifyOutcome)
      requires Valid()
      // the server is asked only with all six digits, and the next screen gets those digits
      ensures r == IncompleteCode <==> exists i | 0 <= i < |otp| :: otp[i] == ""
      ensures r.OfferResetPassword? ==> r.email == email && r.otp == Concat(otp) && |r.otp| == SlotCount
      ensures r.OfferResetPassword? ==> verify(Concat(otp)).Ok?
      ensures (forall i | 0 <= i < |otp| :: otp[i] != "") && verify(Concat(otp)).Ok? ==>
                r == OfferResetPassword(email, Concat(otp))
      // a refused code shows the server's message, else the screen's own
      ensures (forall i | 0 <= i < |otp| :: otp[i] != "") && verify(Concat(otp)).Err? ==>
                r == VerifyFailed(OrFallback(verify(Concat(otp)).error, "Invalid or expired OTP. Please try again."))
    {
      var otpString := Concat(otp);
      JoinedLength(otp);
      if |otpString| != 6 {
        return IncompleteCode;
      }
      var answer := verify(otpString);
      if answer.Ok? {
        return OfferResetPassword(email, otpString);
      }
      return VerifyFailed(OrFallback(answer.error, "Invalid or expired OTP. Please try again."));
    }

    /** `handleResendOtp`: on success the slots are cleared and the first
        one focused; on failure nothing changes. */
    method HandleResendOtp(resend: Result<(), Option<string>>) returns (alert: string)
      requires Valid()
      modifies this`otp, this`focused
      ensures Valid()
      ensures resend.Ok? ==> otp == EmptySlots() && focused == Some(0)
      ensures resend.Err? ==> otp == old(otp) && focused == old(focused)
      ensures resend.Err? ==> alert == OrFallback(resend.error, "Failed to resend OTP. Please try again.")
    {
      if resend.Err? {
        return OrFallback(resend.error, "Failed to resend OTP. Please try again.");
      }
      otp := EmptySlots();
      focused := Some(0);
      return "A new OTP has been sent to your email address.";
    }
  }
}
