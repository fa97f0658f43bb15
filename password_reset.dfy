/** The one-time-password reset flow (backend/.../service/PasswordResetService.java)
    over the users the user service finds by e-mail address.

    The password encoder is a pair of functions: `encode` and `matches`, with
    every encoding matching its own input. The clock (seconds) and the six
    draws of the random generator are parameters; the e-mails the flow sends
    are returned instead of sent. */
module PasswordReset {
  import opened Base
  import opened Text
  import opened UserEntity

  const OtpLength: nat := 6
  const OtpExpirySeconds: int := 10 * 60
  const MaxResetAttempts: int := 3
  const RateLimitSeconds: int := 15 * 60

  datatype PasswordEncoder = PasswordEncoder(encode: string -> string, matches: (string, string) -> bool)

  /** Every encoding matches its own input. */
  ghost predicate SoundEncoder(e: PasswordEncoder) {
    forall raw :: e.matches(raw, e.encode(raw))
  }

  /** `InvalidCredentialsException`, with the message it carries. */
  datatype ResetError = InvalidCredentials(message: string)

  /** The OTP e-mail `initiatePasswordReset` hands to the mail service. */
  datatype OtpMail = OtpMail(to: string, otp: string, userName: string)

  /** Six decimal digits. */
  predicate IsOtp(s: string) {
    |s| == OtpLength && forall i | 0 <= i < |s| :: IsDigit(s[i])
  }

  /** `isRateLimited`: a previous request less than 15 minutes ago. */
  predicate IsRateLimited(u: User, now: int)
    reads u
    ensures IsRateLimited(u, now) ==> u.lastPasswordResetRequest.Some?
    ensures u.lastPasswordResetRequest.Some? ==>
              (IsRateLimited(u, now) <==> now - u.lastPasswordResetRequest.value < RateLimitSeconds)
  {
    u.lastPasswordResetRequest.Some? && now < u.lastPasswordResetRequest.value + RateLimitSeconds
  }

  /** A reset token exists and `now` is not after its expiry. */
  predicate HasLiveToken(u: User, now: int)
    reads u
  {
    u.passwordResetToken.Some? && u.passwordResetTokenExpiry.Some?
    && !(now > u.passwordResetTokenExpiry.value)
  }

  /** `generateOtp`: one digit per draw of `nextInt(10)`. */
  method GenerateOtp(draws: seq<nat>) returns (otp: string)
    requires |draws| == OtpLength && forall i | 0 <= i < |draws| :: draws[i] < 10
    ensures IsOtp(otp)
    ensures forall i | 0 <= i < OtpLength :: DigitValue(otp[i]) == draws[i]
  {
    otp := "";
    var i := 0;
    while i < OtpLength
      invariant 0 <= i <= OtpLength && |otp| == i
      invariant forall k | 0 <= k < i :: IsDigit(otp[k]) && DigitValue(otp[k]) == draws[k]
    {
      otp := otp + [DigitChar(draws[i])];
      i := i + 1;
    }
  }

  class PasswordResetService {
    /** The user store, by e-mail address. */
    var users: map<string, User>
    const encoder: PasswordEncoder

    /** Each user is stored under its own address (so no two addresses share
        a user), and the attempt counter stays within 0..3. */
    ghost predicate Valid()
      reads this, users.Values
    {
      && SoundEncoder(encoder)
      && (forall e | e in users :: users[e].email == e)
      && (forall e | e in users :: 0 <= users[e].passwordResetAttempts <= MaxResetAttempts)
    }

    /** The user an operation on `email` may update. */
    function Touched(email: string): set<User>
      reads this
    {
      if email in users then {users[email]} else {}
    }

    constructor (users: map<string, User>, encoder: PasswordEncoder)
      requires SoundEncoder(encoder)
      requires forall e | e in users :: users[e].email == e && 0 <= users[e].passwordResetAttempts <= MaxResetAttempts
      ensures Valid() && this.users == users && this.encoder == encoder
    {
      this.users := users;
      this.encoder := encoder;
    }

    /** `initiatePasswordReset`. */
    method InitiatePasswordReset(email: string, now: int, draws: seq<nat>)
      returns (r: Result<Option<OtpMail>, ResetError>)
      requires Valid()
      requires |draws| == OtpLength && forall i | 0 <= i < |draws| :: draws[i] < 10
      modifies Touched(email)
      ensures Valid()
      // An unknown address: nothing changes and no mail is sent.
      ensures email !in users ==> r == Ok(None)
      // A request within 15 minutes of the last one is refused; the user is unchanged.
      ensures email in users && old(IsRateLimited(users[email], now)) ==>
                r.Err? && unchanged(users[email])
      // Otherwise a fresh six-digit code is stored encoded and mailed in clear.
      ensures email in users && !old(IsRateLimited(users[email], now)) ==>
                var u := users[email];
                && r.Ok? && r.value.Some?
                && r.value.value.to == email && r.value.value.userName == u.userName
                && IsOtp(r.value.value.otp)
                && u.passwordResetToken == Some(encoder.encode(r.value.value.otp))
                && u.passwordResetTokenExpiry == Some(now + OtpExpirySeconds)
                && u.passwordResetAttempts == 0
                && u.lastPasswordResetRequest == Some(now)
                && u.password == old(u.password) && u.userName == old(u.userName)
                && u.email == old(u.email) && u.isActive == old(u.isActive)
                && u.id == old(u.id) && u.createdAt == old(u.createdAt)
                // the save stamps `updatedAt`
                && u.updatedAt == Some(now)
                // the mailed code verifies until the expiry, and only until then
                && (forall t :: HasLiveToken(u, t) <==> t <= now + OtpExpirySeconds)
                // and the next request is refused for exactly 15 minutes
                && (forall t :: IsRateLimited(u, t) <==> t < now + RateLimitSeconds)
    {
      if email !in users {
        return Ok(None);
      }
      var user := users[email];
      if IsRateLimited(user, now) {
        return Err(InvalidCredentials("Too many password reset requests. Please try again later."));
      }
      var otp := GenerateOtp(draws);
      StoreOtp(user, encoder.encode(otp), now);
      return Ok(Some(OtpMail(email, otp, user.GetUsername())));
    }

    /** The write of `initiatePasswordReset`: the encoded code, its expiry ten
        minutes on, a fresh attempt count, the request time, and the save. */
    static method StoreOtp(user: User, encoded: string, now: int)
      modifies user
      ensures user.passwordResetToken == Some(encoded)
      ensures user.passwordResetTokenExpiry == Some(now + OtpExpirySeconds)
      ensures user.passwordResetAttempts == 0 && user.lastPasswordResetRequest == Some(now)
      ensures user.updatedAt == Some(now)
      ensures user.password == old(user.password) && user.id == old(user.id)
      ensures user.userName == old(user.userName) && user.email == old(user.email)
      ensures user.isActive == old(user.isActive) && user.createdAt == old(user.createdAt)
    {
      user.passwordResetToken := Some(encoded);
      user.passwordResetTokenExpiry := Some(now + OtpExpirySeconds);
      user.passwordResetAttempts := 0;
      user.lastPasswordResetRequest := Some(now);
      user.OnUpdate(now);
    }

    /** `verifyOtp`. */
    method VerifyOtp(email: string, otp: string, now: int) returns (ok: bool)
      requires Valid()
      modifies Touched(email)
      ensures Valid()
      ensures email !in users ==> !ok
      ensures email in users ==>
                var u := users[email];
                // true exactly for a live token, fewer than three failures, and a matching code
                && (ok <==> old(HasLiveToken(u, now)) && old(u.passwordResetAttempts) < MaxResetAttempts
                            && encoder.matches(otp, old(u.passwordResetToken).value))
                // a refused code on a live token below the cap costs one attempt; nothing else changes
                && u.passwordResetAttempts ==
                     (if old(HasLiveToken(u, now)) && old(u.passwordResetAttempts) < MaxResetAttempts && !ok
                      then old(u.passwordResetAttempts) + 1 else old(u.passwordResetAttempts))
                // and that save is the only one, so only it moves `updatedAt`
                && u.updatedAt ==
                     (if old(HasLiveToken(u, now)) && old(u.passwordResetAttempts) < MaxResetAttempts && !ok
                      then Some(now) else old(u.updatedAt))
                && u.passwordResetToken == old(u.passwordResetToken)
                && u.passwordResetTokenExpiry == old(u.passwordResetTokenExpiry)
                && u.lastPasswordResetRequest == old(u.lastPasswordResetRequest)
                && u.password == old(u.password)
                && u.id == old(u.id) && u.userName == old(u.userName) && u.email == old(u.email)
                && u.isActive == old(u.isActive) && u.createdAt == old(u.createdAt)
    {
      if email !in users {
        return false;
      }
      var user := users[email];
      if user.passwordResetToken.None? || user.passwordResetTokenExpiry.None?
         || now > user.passwordResetTokenExpiry.value {
        return false;
      }
      if user.passwordResetAttempts >= MaxResetAttempts {
        return false;
      }
      ok := encoder.matches(otp, user.passwordResetToken.value);
      if !ok {
        user.passwordResetAttempts := user.passwordResetAttempts + 1;
        user.OnUpdate(now);
      }
    }

    /** `resetPassword`. The method runs in one transaction: when it throws,
        everything it wrote is rolled back, including the attempt the inner
        check counted, so a refused reset leaves the user as it was. */
    method ResetPassword(email: string, otp: string, newPassword: string, now: int)
      returns (r: Result<string, ResetError>)
      requires Valid()
      modifies Touched(email)
      ensures Valid()
      ensures email !in users ==> r.Err?
      // a good code always resets
      ensures (&& email in users && old(HasLiveToken(users[email], now))
               && old(users[email].passwordResetAttempts) < MaxResetAttempts
               && encoder.matches(otp, old(users[email].passwordResetToken).value)) ==> r.Ok?
      ensures r.Ok? ==>
                && email in users
                // the code was good when presented
                && old(HasLiveToken(users[email], now))
                && old(users[email].passwordResetAttempts) < MaxResetAttempts
                && encoder.matches(otp, old(users[email].passwordResetToken).value)
                // the new password is stored encoded and the reset state is cleared
                && users[email].password == encoder.encode(newPassword)
                && users[email].passwordResetToken.None?
                && users[email].passwordResetTokenExpiry.None?
                && users[email].passwordResetAttempts == 0
                && users[email].lastPasswordResetRequest.None?
                // the save stamps `updatedAt`; the account data stays
                && users[email].updatedAt == Some(now)
                && users[email].id == old(users[email].id)
                && users[email].userName == old(users[email].userName)
                && users[email].email == old(users[email].email)
                && users[email].isActive == old(users[email].isActive)
                && users[email].createdAt == old(users[email].createdAt)
                // so no code verifies any more, at any time
                && (forall t :: !HasLiveToken(users[email], t))
                // and the confirmation goes to the user's name
                && r.value == users[email].userName
      // a refused reset is rolled back whole
      ensures r.Err? ==> r == Err(InvalidCredentials("Invalid or expired OTP"))
      ensures r.Err? && email in users ==>
                var u := users[email];
                && u.passwordResetAttempts == old(u.passwordResetAttempts)
                && u.updatedAt == old(u.updatedAt)
                && u.passwordResetToken == old(u.passwordResetToken)
                && u.passwordResetTokenExpiry == old(u.passwordResetTokenExpiry)
                && u.lastPasswordResetRequest == old(u.lastPasswordResetRequest)
                && u.password == old(u.password)
                && u.id == old(u.id) && u.userName == old(u.userName) && u.email == old(u.email)
                && u.isActive == old(u.isActive) && u.createdAt == old(u.createdAt)
    {
      var attempts, updated;
      if email in users {
        attempts, updated := users[email].passwordResetAttempts, users[email].updatedAt;
      }
      var verified := VerifyOtp(email, otp, now);
      if !verified {
        if email in users {
          // the rollback of the transaction
          users[email].passwordResetAttempts := attempts;
          users[email].updatedAt := updated;
        }
        return Err(InvalidCredentials("Invalid or expired OTP"));
      }
      // a verified code implies a stored user, so "User not found" cannot be thrown
      assert email in users;
      var user := users[email];
      StoreNewPassword(user, encoder.encode(newPassword), now);
      return Ok(user.GetUsername());
    }

    /** The success path of `resetPassword`: the new encoded password, the
        reset state cleared, and the save. */
    static method StoreNewPassword(user: User, encoded: string, now: int)
      modifies user
      ensures user.password == encoded
      ensures user.passwordResetToken.None? && user.passwordResetTokenExpiry.None?
      ensures user.passwordResetAttempts == 0 && user.lastPasswordResetRequest.None?
      ensures user.updatedAt == Some(now)
      ensures user.id == old(user.id) && user.userName == old(user.userName)
      ensures user.email == old(user.email) && user.isActive == old(user.isActive)
      ensures user.createdAt == old(user.createdAt)
    {
      user.password := encoded;
      user.passwordResetToken := None;
      user.passwordResetTokenExpiry := None;
      user.passwordResetAttempts := 0;
      user.lastPasswordResetRequest := None;
      user.OnUpdate(now);
    }
  }
}
