/** The OTP page of the password reset: the code field keeps only digits,
    verification needs exactly six of them, and a resend starts a sixty-second
    countdown that disables resending until it runs out. */
module VerifyOtp {
  import opened Common

  const InvalidOtpInput := "Please enter a valid 6-digit OTP"
  const OtpRejected := "Invalid OTP. Please try again."
  const ResendFailed := "Failed to resend OTP"
  const NetworkFailure := "Network error. Please try again."
  const OtpLength := 6
  const ResendDelay := 60

  // --------------------------------------------------------------- sanitising

  /** `value.replace(/\D/g, "")`: the ASCII digits of the input, in order. */
  function DigitsOf(s: string): (r: string)
    ensures AllDigits(r)
    ensures |r| <= |s|
  {
    if s == "" then ""
    else (if IsAsciiDigit(s[0]) then [s[0]] else "") + DigitsOf(s[1..])
  }

  /** Removing the non-digits of two pieces one after the other is removing
      them from the whole: the digits keep their order. */
  lemma {:induction false} DigitsOfAppend(a: string, b: string)
    ensures DigitsOf(a + b) == DigitsOf(a) + DigitsOf(b)
  {
    if a != "" {
      assert (a + b)[1..] == a[1..] + b;
      DigitsOfAppend(a[1..], b);
    } else {
      assert a + b == b;
    }
  }

  /** A string of digits has nothing to remove. */
  lemma {:induction false} DigitsOfDigits(s: string)
    requires AllDigits(s)
    ensures DigitsOf(s) == s
  {
    if s != "" {
      DigitsOfDigits(s[1..]);
    }
  }

  /** The `handleOTPChange` expression: the digits of the input, cut to
      six. */
  function SanitizeOtp(value: string): (r: string)
    ensures AllDigits(r)
    ensures |r| == Min(OtpLength, |DigitsOf(value)|)
    ensures r <= DigitsOf(value)
  {
    var digits := DigitsOf(value);
    digits[..Min(OtpLength, |digits|)]
  }

  /** Sanitising what sanitising produced changes nothing. */
  lemma SanitizeIdempotent(value: string)
    ensures SanitizeOtp(SanitizeOtp(value)) == SanitizeOtp(value)
  {
    DigitsOfDigits(SanitizeOtp(value));
  }

  /** A pasted code loses its separator ... */
  lemma SanitizeDropsSeparator()
    ensures SanitizeOtp("123 456") == "123456"
  {
    assert "123 456" == "123" + (" " + "456");
    DigitsOfAppend("123", " " + "456");
    DigitsOfAppend(" ", "456");
    DigitsOfDigits("123");
    DigitsOfDigits("456");
    assert DigitsOf(" ") == "";
    assert DigitsOf("123 456") == "123456";
  }

  /** ... and digits past the sixth are cut. */
  lemma SanitizeCutsToSix()
    ensures SanitizeOtp("1234567") == "123456"
  {
    DigitsOfDigits("1234567");
  }

  // ----------------------------------------------------------------- handlers

  /** The guard of `handleVerifyOTP`. */
  function VerifyGuard(otp: string): (r: Option<string>)
    ensures r.None? <==> |otp| == OtpLength
    ensures r.Some? ==> r.value == InvalidOtpInput
  {
    if otp == "" || |otp| != OtpLength then Some(InvalidOtpInput) else None
  }

  /** The body `handleVerifyOTP` posts. */
  datatype VerifyRequest = VerifyRequest(email: string, otp: string)

  /** What `localStorage.setItem` stores for the reply's `token` field:
      a missing field is stored as the text "undefined". */
  function StoredToken(token: Option<string>): string {
    if token.Some? then token.value else "undefined"
  }

  /** The page's state; `storage` is its view of `localStorage`, `verified`
      and `resent` the requests posted so far. */
  class OtpPage {
    var otp: string
    var email: string
    var isLoading: bool
    var error: string
    var success: bool
    var resendLoading: bool
    var countdown: nat
    var storage: map<string, string>
    var verified: seq<VerifyRequest>
    var resent: seq<string>

    /** What the handlers keep true of the code field and the countdown. */
    predicate Valid()
      reads this
    {
      AllDigits(otp) && |otp| <= OtpLength && countdown <= ResendDelay
    }

    /** The page as it mounts: the email the previous page stored. A missing
        email sends the browser back to that page, which is not modelled. */
    constructor (storage: map<string, string>)
      ensures Valid()
      ensures this.storage == storage
      ensures email == (if "resetEmail" in storage then storage["resetEmail"] else "")
      ensures otp == "" && error == "" && countdown == 0
      ensures !isLoading && !success && !resendLoading && verified == [] && resent == []
    {
      this.storage := storage;
      email := if "resetEmail" in storage then storage["resetEmail"] else "";
      otp, error, countdown := "", "", 0;
      isLoading, success, resendLoading := false, false, false;
      verified, resent := [], [];
    }

    /** The `disabled` expression of the verify button. */
    predicate VerifyDisabled()
      reads this
    {
      isLoading || |otp| != OtpLength || success
    }

    /** The `disabled` expression of the resend button. */
    predicate ResendDisabled()
      reads this
    {
      resendLoading || countdown > 0 || success
    }

    /** `handleOTPChange`. */
    method HandleOtpChange(value: string)
      requires Valid()
      modifies this
      ensures Valid()
      ensures otp == SanitizeOtp(value)
      ensures email == old(email) && error == old(error) && countdown == old(countdown)
      ensures isLoading == old(isLoading) && success == old(success) && resendLoading == old(resendLoading)
      ensures storage == old(storage) && verified == old(verified) && resent == old(resent)
    {
      otp := SanitizeOtp(value);
    }

    /** `handleVerifyOTP` with the outcome of its `fetch`: without six
        digits it sets the error and sends nothing; otherwise it posts the
        email and code, and the reply either marks success and stores the
        reset token or sets the server's or the network error. */
    method HandleVerifyOtp(response: Response)
      requires Valid()
      modifies this
      ensures Valid()
      ensures otp == old(otp) && email == old(email) && countdown == old(countdown)
      ensures resendLoading == old(resendLoading) && resent == old(resent)
      ensures VerifyGuard(old(otp)).Some? ==>
        && error == InvalidOtpInput
        && verified == old(verified) && storage == old(storage)
        && isLoading == old(isLoading) && success == old(success)
      ensures VerifyGuard(old(otp)).None? ==>
        && verified == old(verified) + [VerifyRequest(old(email), old(otp))]
        && !isLoading
        && (response.NetworkError? ==>
              error == NetworkFailure && success == old(success) && storage == old(storage))
        && (response.Response? && response.ok ==>
              error == "" && success && storage == old(storage)["resetToken" := StoredToken(response.token)])
        && (response.Response? && !response.ok ==>
              && error == MessageOr(response.message, OtpRejected)
              && success == old(success) && storage == old(storage))
    {
      var guard := VerifyGuard(otp);
      if guard.Some? {
        error := guard.value;
        return;
      }
      isLoading := true;
      error := "";
      verified := verified + [VerifyRequest(email, otp)];
      match response {
        case NetworkError =>
          error := NetworkFailure;
        case Response(ok, message, token) =>
          if ok {
            success := true;
            storage := storage["resetToken" := StoredToken(token)];
          } else {
            error := MessageOr(message, OtpRejected);
          }
      }
      isLoading := false;
    }

    /** `handleResendOTP` with the outcome of its `fetch`: a successful
        resend clears the code and starts the countdown, which disables the
        resend button. */
    method HandleResendOtp(response: Response)
      requires Valid()
      modifies this
      ensures Valid()
      ensures email == old(email) && isLoading == old(isLoading) && success == old(success)
      ensures storage == old(storage) && verified == old(verified)
      ensures resent == old(resent) + [old(email)] && !resendLoading
      ensures response.NetworkError? ==>
        error == NetworkFailure && otp == old(otp) && countdown == old(countdown)
      ensures response.Response? && response.ok ==>
        error == "" && otp == "" && countdown == ResendDelay && ResendDisabled()
      ensures response.Response? && !response.ok ==>
        error == MessageOr(response.message, ResendFailed) && otp == old(otp) && countdown == old(countdown)
    {
      resendLoading := true;
      error := "";
      resent := resent + [email];
      match response {
        case NetworkError =>
          error := NetworkFailure;
        case Response(ok, message, _) =>
          if ok {
            otp := "";
            countdown := ResendDelay;
            error := "";
          } else {
            error := MessageOr(message, ResendFailed);
          }
      }
      resendLoading := false;
    }

    /** One second of the countdown effect: it counts down only while
        positive. */
    method Tick()
      requires Valid()
      modifies this
      ensures Valid()
      ensures countdown == (if old(countdown) > 0 then old(countdown) - 1 else 0)
      ensures otp == old(otp) && email == old(email) && error == old(error)
      ensures isLoading == old(isLoading) && success == old(success) && resendLoading == old(resendLoading)
      ensures storage == old(storage) && verified == old(verified) && resent == old(resent)
    {
      if countdown > 0 {
        countdown := countdown - 1;
      }
    }
  }
}
