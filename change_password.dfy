/** The reset-password page: a strength meter for the new password, the
    match indicator for the confirmation, and the submit handler with its
    three guards. */
module ChangePassword {
  import opened Common

  const FillAllFields := "Please fill in all fields"
  const PasswordsDiffer := "Passwords do not match"
  const TooWeak := "Password is too weak. Please choose a stronger password."
  const ResetFailed := "Failed to reset password"
  const NetworkFailure := "Network error. Please try again."

  /** The characters of the `special` check's character class. */
  const Specials := "!@#$%^&*(),.?\":{}|<>"

  // ----------------------------------------------------------------- strength

  predicate HasUpper(p: string) { exists k :: 0 <= k < |p| && IsAsciiUpper(p[k]) }
  predicate HasLower(p: string) { exists k :: 0 <= k < |p| && IsAsciiLower(p[k]) }
  predicate HasDigit(p: string) { exists k :: 0 <= k < |p| && IsAsciiDigit(p[k]) }
  predicate HasSpecial(p: string) { exists k :: 0 <= k < |p| && p[k] in Specials }

  /** The five checks of the meter. */
  datatype Checks = Checks(length: bool, uppercase: bool, lowercase: bool, number: bool, special: bool)

  function ChecksOf(p: string): Checks {
    Checks(|p| >= 8, HasUpper(p), HasLower(p), HasDigit(p), HasSpecial(p))
  }

  function B(b: bool): nat { if b then 1 else 0 }

  /** `Object.values(checks).filter(Boolean).length`. */
  function Passed(c: Checks): (n: nat)
    ensures n <= 5
    ensures n == 5 <==> c.length && c.uppercase && c.lowercase && c.number && c.special
    ensures n == 0 <==> !(c.length || c.uppercase || c.lowercase || c.number || c.special)
  {
    B(c.length) + B(c.uppercase) + B(c.lowercase) + B(c.number) + B(c.special)
  }

  /** The label for each strength. */
  function Label(n: nat): (text: string)
    ensures text == "" <==> n == 0 || n > 5
  {
    if n == 1 then "Very Weak"
    else if n == 2 then "Weak"
    else if n == 3 then "Fair"
    else if n == 4 then "Good"
    else if n == 5 then "Strong"
    else ""
  }

  datatype Strength = Strength(strength: nat, text: string)

  /** `getPasswordStrength`: no password scores 0 with no label; otherwise
      the number of checks passed, with its label. */
  function GetPasswordStrength(p: string): (r: Strength)
    ensures r.strength <= 5
    ensures p == "" ==> r == Strength(0, "")
    ensures r.text == "" <==> r.strength == 0
    ensures p != "" ==> r.strength == Passed(ChecksOf(p))
  {
    if p == "" then Strength(0, "")
    else
      var n := Passed(ChecksOf(p));
      Strength(n, Label(n))
  }

  /** Typing more characters never weakens a password. */
  lemma StrengthMonotone(p: string, q: string)
    ensures GetPasswordStrength(p).strength <= GetPasswordStrength(p + q).strength
  {
    if p != "" {
      var pq := p + q;
      var c, d := ChecksOf(p), ChecksOf(pq);
      if HasUpper(p) {
        var k :| 0 <= k < |p| && IsAsciiUpper(p[k]);
        assert pq[k] == p[k];
      }
      if HasLower(p) {
        var k :| 0 <= k < |p| && IsAsciiLower(p[k]);
        assert pq[k] == p[k];
      }
      if HasDigit(p) {
        var k :| 0 <= k < |p| && IsAsciiDigit(p[k]);
        assert pq[k] == p[k];
      }
      if HasSpecial(p) {
        var k :| 0 <= k < |p| && p[k] in Specials;
        assert pq[k] == p[k];
      }
      assert B(c.length) <= B(d.length) && B(c.uppercase) <= B(d.uppercase);
      assert B(c.lowercase) <= B(d.lowercase) && B(c.number) <= B(d.number);
      assert B(c.special) <= B(d.special);
      assert Passed(c) <= Passed(d);
    }
  }

  /** The length check is worth one point, so a password the page accepts
      (strength at least 3) mixes at least two kinds of character. */
  lemma AcceptedStrengthMixesKinds(p: string)
    requires GetPasswordStrength(p).strength >= 3
    ensures B(HasUpper(p)) + B(HasLower(p)) + B(HasDigit(p)) + B(HasSpecial(p)) >= 2
  {
  }

  /** "abc" passes only the lower-case check. */
  lemma WeakChecks()
    ensures ChecksOf("abc") == Checks(false, false, true, false, false)
  {
    var weak := "abc";
    assert IsAsciiLower(weak[0]);
    forall k | 0 <= k < |weak| ensures !IsAsciiUpper(weak[k]) && !IsAsciiDigit(weak[k]) && weak[k] !in Specials {
      assert weak[k] == 'a' || weak[k] == 'b' || weak[k] == 'c';
    }
  }

  /** "Password1!" passes all five checks. */
  lemma StrongChecks()
    ensures ChecksOf("Password1!") == Checks(true, true, true, true, true)
  {
    var strong := "Password1!";
    assert IsAsciiUpper(strong[0]) && IsAsciiLower(strong[1]) && IsAsciiDigit(strong[8]);
    assert strong[9] == Specials[0];
  }

  /** A short password of lower-case letters only is "Very Weak"; one with
      all five kinds of check is "Strong". */
  lemma StrengthExamples()
    ensures GetPasswordStrength("abc") == Strength(1, "Very Weak")
    ensures GetPasswordStrength("Password1!") == Strength(5, "Strong")
  {
    WeakChecks();
    StrongChecks();
  }

  // -------------------------------------------------------------------- match

  /** `passwordsMatch`: both filled in and equal. */
  predicate PasswordsMatch(a: string, b: string) { a != "" && b != "" && a == b }

  /** `passwordsDontMatch`: both filled in and different. */
  predicate PasswordsDontMatch(a: string, b: string) { a != "" && b != "" && a != b }

  /** The two indicators never show together, and once both fields are
      filled in exactly one of them shows. */
  lemma MatchIndicatorsExclusive(a: string, b: string)
    ensures !(PasswordsMatch(a, b) && PasswordsDontMatch(a, b))
    ensures a != "" && b != "" ==> PasswordsMatch(a, b) != PasswordsDontMatch(a, b)
  {
  }

  // ------------------------------------------------------------------- submit

  /** The guards of `handleResetPassword`, in order: the error they set, or
      `None` when the request may go. */
  function ResetGuard(newPassword: string, confirmPassword: string): (r: Option<string>)
    ensures r.None? <==> PasswordsMatch(newPassword, confirmPassword) && GetPasswordStrength(newPassword).strength >= 3
    ensures newPassword == "" || confirmPassword == "" ==> r == Some(FillAllFields)
    ensures PasswordsDontMatch(newPassword, confirmPassword) ==> r == Some(PasswordsDiffer)
    ensures PasswordsMatch(newPassword, confirmPassword) && GetPasswordStrength(newPassword).strength < 3 ==>
      r == Some(TooWeak)
  {
    if newPassword == "" || confirmPassword == "" then Some(FillAllFields)
    else if newPassword != confirmPassword then Some(PasswordsDiffer)
    else if GetPasswordStrength(newPassword).strength < 3 then Some(TooWeak)
    else None
  }

  /** The `disabled` expression of the submit button. */
  predicate SubmitDisabled(isLoading: bool, newPassword: string, confirmPassword: string, success: bool) {
    || isLoading
    || newPassword == ""
    || confirmPassword == ""
    || PasswordsDontMatch(newPassword, confirmPassword)
    || GetPasswordStrength(newPassword).strength < 3
    || success
  }

  /** The button is enabled exactly when nothing is loading, the reset has
      not succeeded yet and the handler's guards would all pass: a click on
      an enabled button always sends the request. */
  lemma SubmitEnabledIff(isLoading: bool, newPassword: string, confirmPassword: string, success: bool)
    ensures !SubmitDisabled(isLoading, newPassword, confirmPassword, success)
        <==> !isLoading && !success && ResetGuard(newPassword, confirmPassword).None?
  {
  }

  /** The body `handleResetPassword` posts. */
  datatype ResetRequest = ResetRequest(token: string, newPassword: string, confirmPassword: string)

  /** The page's state; `storage` is the page's view of `localStorage` and
      `sent` the requests posted so far. */
  class ResetPasswordPage {
    var newPassword: string
    var confirmPassword: string
    var isLoading: bool
    var error: string
    var success: bool
    var token: string
    var storage: map<string, string>
    var sent: seq<ResetRequest>

    /** The page as it mounts: the reset token the code page stored. A
        missing token sends the browser back to the forgot-password page,
        which is not modelled. */
    constructor (storage: map<string, string>)
      ensures this.storage == storage
      ensures token == (if "resetToken" in storage then storage["resetToken"] else "")
      ensures newPassword == "" && confirmPassword == "" && error == ""
      ensures !isLoading && !success && sent == []
    {
      this.storage := storage;
      token := if "resetToken" in storage then storage["resetToken"] else "";
      newPassword, confirmPassword, error := "", "", "";
      isLoading, success, sent := false, false, [];
    }

    /** The new-password field's `onChange`. */
    method SetNewPassword(value: string)
      modifies this
      ensures newPassword == value && confirmPassword == old(confirmPassword)
      ensures isLoading == old(isLoading) && error == old(error) && success == old(success)
      ensures token == old(token) && storage == old(storage) && sent == old(sent)
    {
      newPassword := value;
    }

    /** The confirmation field's `onChange`. */
    method SetConfirmPassword(value: string)
      modifies this
      ensures confirmPassword == value && newPassword == old(newPassword)
      ensures isLoading == old(isLoading) && error == old(error) && success == old(success)
      ensures token == old(token) && storage == old(storage) && sent == old(sent)
    {
      confirmPassword := value;
    }

    /** `handleResetPassword` with the outcome of its `fetch`: a failed
        guard sets its error and sends nothing; otherwise the request is
        sent, and the reply sets success (forgetting the stored token and
        email) or the server's or the network error. Loading ends in every
        case. */
    method HandleResetPassword(response: Response)
      modifies this
      ensures newPassword == old(newPassword) && confirmPassword == old(confirmPassword) && token == old(token)
      ensures var guard := ResetGuard(old(newPassword), old(confirmPassword));
        && (guard.Some? ==>
              && error == guard.value
              && sent == old(sent) && storage == old(storage)
              && isLoading == old(isLoading) && success == old(success))
        && (guard.None? ==>
              && sent == old(sent) + [ResetRequest(old(token), old(newPassword), old(confirmPassword))]
              && !isLoading
              && (response.NetworkError? ==>
                    error == NetworkFailure && success == old(success) && storage == old(storage))
              && (response.Response? && response.ok ==>
                    && error == "" && success
                    && storage == old(storage) - {"resetToken", "resetEmail"})
              && (response.Response? && !response.ok ==>
                    && error == MessageOr(response.message, ResetFailed)
                    && success == old(success) && storage == old(storage)))
    {
      var guard := ResetGuard(newPassword, confirmPassword);
      if guard.Some? {
        error := guard.value;
        return;
      }
      isLoading := true;
      error := "";
      sent := sent + [ResetRequest(token, newPassword, confirmPassword)];
      match response {
        case NetworkError =>
          error := NetworkFailure;
        case Response(ok, message, _) =>
          if ok {
            success := true;
            storage := storage - {"resetToken", "resetEmail"};
          } else {
            error := MessageOr(message, ResetFailed);
          }
      }
      isLoading := false;
    }
  }
}
