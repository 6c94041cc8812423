/** The forgot-password page: the email check and the handler that asks
    the server for a reset code and remembers the email for the next page. */
module ForgotPassword {
  import opened Common

  const EmailMissing := "Please enter your email address"
  const EmailInvalid := "Please enter a valid email address"
  const OtpSentDefault := "OTP has been sent to your email address"
  const SendFailed := "Failed to send OTP"
  const NetworkFailure := "Network error. Please try again."

  // --------------------------------------------------------------- the check

  /** Text of the class `[^\s@]`: no white space and no '@'. */
  predicate Plain(x: string) {
    forall j :: 0 <= j < |x| ==> !IsJsWhitespace(x[j]) && x[j] != '@'
  }

  /** `validateEmail`, the pattern `^[^\s@]+@[^\s@]+\.[^\s@]+$` read
      literally: an '@' at `a` and a '.' at `b` split the string into three
      non-empty pieces of the class. */
  predicate ValidateEmail(s: string) {
    exists a, b :: 0 < a && a + 1 < b < |s| - 1 && s[a] == '@' && s[b] == '.'
      && Plain(s[..a]) && Plain(s[a + 1..b]) && Plain(s[b + 1..])
  }

  predicate NoWhitespace(s: string) {
    forall j :: 0 <= j < |s| ==> !IsJsWhitespace(s[j])
  }

  /** A '.' with text on both sides of it. */
  predicate HasInnerDot(d: string) {
    exists k :: 0 < k < |d| - 1 && d[k] == '.'
  }

  /** The address in plain words: no white space, exactly one '@', text
      before it, and after it a '.' with text on both sides. */
  predicate EmailShape(s: string) {
    && NoWhitespace(s)
    && IndexOf(s, '@').Some?
    && var a := IndexOf(s, '@').value;
      && a > 0
      && (forall j :: a < j < |s| ==> s[j] != '@')
      && HasInnerDot(s[a + 1..])
  }

  /** What the pattern accepts has that shape. */
  lemma ValidEmailHasShape(s: string)
    requires ValidateEmail(s)
    ensures EmailShape(s)
  {
    var a, b :| 0 < a && a + 1 < b < |s| - 1 && s[a] == '@' && s[b] == '.'
      && Plain(s[..a]) && Plain(s[a + 1..b]) && Plain(s[b + 1..]);
    PlainParts(s, a, b);
    assert IndexOf(s, '@') == Some(a);
    var d := s[a + 1..];
    assert d[b - a - 1] == '.';
  }

  /** Outside the '@' at `a` and the '.' at `b`, the three plain pieces
      leave no white space and no '@'. */
  lemma PlainParts(s: string, a: nat, b: nat)
    requires a < b < |s|
    requires Plain(s[..a]) && Plain(s[a + 1..b]) && Plain(s[b + 1..])
    ensures forall j :: 0 <= j < |s| && j != a && j != b ==> !IsJsWhitespace(s[j]) && s[j] != '@'
  {
    forall j | 0 <= j < |s| && j != a && j != b ensures !IsJsWhitespace(s[j]) && s[j] != '@' {
      if j < a {
        assert s[..a][j] == s[j];
      } else if j < b {
        assert s[a + 1..b][j - a - 1] == s[j];
      } else {
        assert s[b + 1..][j - b - 1] == s[j];
      }
    }
  }

  /** Every string of that shape passes the pattern. */
  lemma ShapedEmailIsValid(s: string)
    requires EmailShape(s)
    ensures ValidateEmail(s)
  {
    var a := IndexOf(s, '@').value;
    var d := s[a + 1..];
    var k :| 0 < k < |d| - 1 && d[k] == '.';
    var b := a + 1 + k;
    assert s[b] == '.';
    assert Plain(s[..a]) by {
      forall j | 0 <= j < a ensures !IsJsWhitespace(s[..a][j]) && s[..a][j] != '@' {
        assert s[..a][j] == s[j];
      }
    }
    var host, top := s[a + 1..b], s[b + 1..];
    assert Plain(host) by {
      forall j | 0 <= j < |host| ensures !IsJsWhitespace(host[j]) && host[j] != '@' {
        assert host[j] == s[a + 1 + j];
      }
    }
    assert Plain(top) by {
      forall j | 0 <= j < |top| ensures !IsJsWhitespace(top[j]) && top[j] != '@' {
        assert top[j] == s[b + 1 + j];
      }
    }
  }

  /** An address without a dot after the '@' is refused. */
  lemma NoDotRefused()
    ensures !ValidateEmail("a@b")
  {
  }

  // ------------------------------------------------------------------ handler

  /** The guards of `handleSendOTP`, in order: an empty field, then the
      pattern. */
  function SendGuard(email: string): (r: Option<string>)
    ensures email == "" ==> r == Some(EmailMissing)
    ensures email != "" ==> (r.None? <==> ValidateEmail(email))
    ensures email != "" && r.Some? ==> r == Some(EmailInvalid)
  {
    if email == "" then Some(EmailMissing)
    else if !ValidateEmail(email) then Some(EmailInvalid)
    else None
  }

  /** The page's state; `storage` is its view of `localStorage` and `sent`
      the emails posted so far. */
  class ForgotPasswordPage {
    var email: string
    var isLoading: bool
    var error: string
    var success: bool
    var message: string
    var storage: map<string, string>
    var sent: seq<string>

    constructor (storage: map<string, string>)
      ensures this.storage == storage
      ensures email == "" && error == "" && message == ""
      ensures !isLoading && !success && sent == []
    {
      this.storage := storage;
      email, error, message := "", "", "";
      isLoading, success, sent := false, false, [];
    }

    /** The email field's `onChange`. */
    method SetEmail(value: string)
      modifies this
      ensures email == value
      ensures isLoading == old(isLoading) && error == old(error) && success == old(success)
      ensures message == old(message) && storage == old(storage) && sent == old(sent)
    {
      email := value;
    }

    /** `handleSendOTP` with the outcome of its `fetch`: a failed guard sets
        its error and sends nothing; otherwise the email is posted, and a
        successful reply shows its message and stores the email under
        "resetEmail" for the code page. */
    method HandleSendOtp(response: Response)
      modifies this
      ensures email == old(email)
      ensures var guard := SendGuard(old(email));
        && (guard.Some? ==>
              && error == guard.value
              && sent == old(sent) && storage == old(storage) && message == old(message)
              && isLoading == old(isLoading) && success == old(success))
        && (guard.None? ==>
              && ValidateEmail(old(email))
              && sent == old(sent) + [old(email)]
              && !isLoading
              && (response.NetworkError? ==>
                    error == NetworkFailure && !success && storage == old(storage) && message == old(message))
              && (response.Response? && response.ok ==>
                    && error == "" && success
                    && message == MessageOr(response.message, OtpSentDefault)
                    && storage == old(storage)["resetEmail" := old(email)])
              && (response.Response? && !response.ok ==>
                    && error == MessageOr(response.message, SendFailed)
                    && !success && storage == old(storage) && message == old(message)))
    {
      var guard := SendGuard(email);
      if guard.Some? {
        error := guard.value;
        return;
      }
      isLoading := true;
      error := "";
      success := false;
      sent := sent + [email];
      match response {
        case NetworkError =>
          error := NetworkFailure;
        case Response(ok, reply, _) =>
          if ok {
            success := true;
            message := MessageOr(reply, OtpSentDefault);
            storage := storage["resetEmail" := email];
          } else {
            error := MessageOr(reply, SendFailed);
          }
      }
      isLoading := false;
    }
  }
}
