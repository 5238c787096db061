/**
 * The admin "Change Password" form: an ordered chain of checks on the three
 * inputs, where the first failing check is the one reported, then the update
 * request, and the three show/hide toggles.
 */
module ChangePassword {
  import opened Common

  /** The reasons the form refuses a submission, in the order they are checked. */
  datatype PasswordError = AllFieldsRequired | TooShort | Mismatch | SameAsCurrent

  /** The message shown after a submission. */
  datatype Notice = Invalid(error: PasswordError) | Changed | AuthorizationError | ChangeFailed

  /** The update request's fate: success, an error response with a status, or no response at all. */
  datatype RequestOutcome = Ok | ErrorStatus(status: int) | NoResponse

  const MinPasswordLength: nat := 8

  /**
   * The check chain of `handleSubmit`: the first check that fails names the
   * error, so each error implies every earlier check passed.
   */
  function CheckPasswordChange(currentPassword: string, newPassword: string, confirmPassword: string): (r: Outcome<PasswordError>)
    ensures r == Pass <==>
      currentPassword != "" && newPassword != "" && confirmPassword != "" && |newPassword| >= MinPasswordLength && newPassword == confirmPassword && currentPassword != newPassword
    ensures r == Fail(AllFieldsRequired) <==> currentPassword == "" || newPassword == "" || confirmPassword == ""
    ensures r == Fail(TooShort) <==> currentPassword != "" && newPassword != "" && confirmPassword != "" && |newPassword| < MinPasswordLength
    ensures r == Fail(Mismatch) <==>
      currentPassword != "" && newPassword != "" && confirmPassword != "" && |newPassword| >= MinPasswordLength && newPassword != confirmPassword
    ensures r == Fail(SameAsCurrent) <==>
      currentPassword != "" && newPassword != "" && confirmPassword != "" && |newPassword| >= MinPasswordLength && newPassword == confirmPassword && currentPassword == newPassword
  {
    if currentPassword == "" || newPassword == "" || confirmPassword == "" then Fail(AllFieldsRequired)
    else if |newPassword| < MinPasswordLength then Fail(TooShort)
    else if newPassword != confirmPassword then Fail(Mismatch)
    else if currentPassword == newPassword then Fail(SameAsCurrent)
    else Pass
  }

  /** The checks do not depend on the confirmation beyond its equality with the new password. */
  lemma AcceptedConfirmationIsNewPassword(currentPassword: string, newPassword: string, confirmPassword: string)
    requires CheckPasswordChange(currentPassword, newPassword, confirmPassword) == Pass
    ensures confirmPassword == newPassword && |confirmPassword| >= MinPasswordLength && confirmPassword != currentPassword
  {
  }

  /** The message for a failed request: status 401 asks the user to log in again; anything else is generic. */
  function FailureNotice(outcome: RequestOutcome): (n: Notice)
    requires outcome != Ok
    ensures n == AuthorizationError <==> outcome == ErrorStatus(401)
    ensures n == AuthorizationError || n == ChangeFailed
  {
    if outcome.ErrorStatus? && outcome.status == 401 then AuthorizationError else ChangeFailed
  }

  /** The state of the form. */
  class PasswordForm {
    var currentPassword: string
    var newPassword: string
    var confirmPassword: string
    var showCurrentPassword: bool
    var showNewPassword: bool
    var showConfirmPassword: bool

    /** The initial state: empty inputs, all three hidden. */
    constructor ()
      ensures currentPassword == "" && newPassword == "" && confirmPassword == ""
      ensures !showCurrentPassword && !showNewPassword && !showConfirmPassword
    {
      currentPassword, newPassword, confirmPassword := "", "", "";
      showCurrentPassword, showNewPassword, showConfirmPassword := false, false, false;
    }

    /** `togglePasswordVisibility`: flips exactly the flag the field name selects; other names do nothing. */
    method TogglePasswordVisibility(field: string)
      modifies this`showCurrentPassword, this`showNewPassword, this`showConfirmPassword
      ensures showCurrentPassword == (if field == "current" then !old(showCurrentPassword) else old(showCurrentPassword))
      ensures showNewPassword == (if field == "new" then !old(showNewPassword) else old(showNewPassword))
      ensures showConfirmPassword == (if field == "confirm" then !old(showConfirmPassword) else old(showConfirmPassword))
    {
      if field == "current" {
        showCurrentPassword := !showCurrentPassword;
      } else if field == "new" {
        showNewPassword := !showNewPassword;
      } else if field == "confirm" {
        showConfirmPassword := !showConfirmPassword;
      }
    }

    /**
     * `handleSubmit`: a failed check is reported and nothing is sent; otherwise
     * the update is sent, success clears all three inputs, and a failure keeps
     * them and reports the failure.  `sent` tells whether the request was made.
     */
    method HandleSubmit(outcome: RequestOutcome) returns (notice: Notice, sent: bool)
      modifies this`currentPassword, this`newPassword, this`confirmPassword
      ensures var check := CheckPasswordChange(old(currentPassword), old(newPassword), old(confirmPassword));
        (sent <==> check == Pass) &&
        (check.Fail? ==> notice == Invalid(check.error))
      ensures sent && outcome == Ok ==>
        notice == Changed && currentPassword == "" && newPassword == "" && confirmPassword == ""
      ensures sent && outcome != Ok ==> notice == FailureNotice(outcome)
      ensures !(sent && outcome == Ok) ==>
        currentPassword == old(currentPassword) && newPassword == old(newPassword) &&
        confirmPassword == old(confirmPassword)
    {
      var check := CheckPasswordChange(currentPassword, newPassword, confirmPassword);
      if check.Fail? {
        return Invalid(check.error), false;
      }
      sent := true;
      if outcome == Ok {
        notice := Changed;
        currentPassword, newPassword, confirmPassword := "", "", "";
      } else {
        notice := FailureNotice(outcome);
      }
    }
  }
}
