/**
 * The validation guards of the trial signup form (`handleTrialSignup`) and of the
 * newsletter form. A rejected submission raises one error notification and changes
 * nothing else.
 */
module Forms {
  import opened Email
  import Notifications

  const MissingFieldsMessage: string := "Please fill in all required fields"
  const InvalidEmailMessage: string := "Please enter a valid email address"

  /** Either the form is rejected with a notice, or it goes on to the (simulated) request. */
  datatype Outcome = Rejected(notice: Notifications.Notice) | Accepted

  /** `handleTrialSignup`: required fields first, then the email format. */
  function TrialSignup(email: string, name: string): (r: Outcome)
    ensures r.Accepted? <==> email != "" && name != "" && IsValidEmail(email)
    ensures r.Rejected? ==> r.notice.kind == "error"
    ensures (email == "" || name == "") ==> r == Rejected(Notifications.Notice(MissingFieldsMessage, "error"))
  {
    if email == "" || name == "" then Rejected(Notifications.Notice(MissingFieldsMessage, "error"))
    else if !IsValidEmail(email) then Rejected(Notifications.Notice(InvalidEmailMessage, "error"))
    else Accepted
  }

  /** The newsletter form: the format check only. */
  function Newsletter(email: string): (r: Outcome)
    ensures r.Accepted? <==> IsValidEmail(email)
    ensures r.Rejected? ==> r.notice == Notifications.Notice(InvalidEmailMessage, "error")
  {
    if !IsValidEmail(email) then Rejected(Notifications.Notice(InvalidEmailMessage, "error"))
    else Accepted
  }

  /**
   * The format message is raised exactly for filled-in forms whose email does not
   * match the pattern; an empty field is always reported as missing, never as malformed.
   */
  lemma FormatCheckedOnlyAfterRequiredFields(email: string, name: string)
    ensures TrialSignup(email, name) == Rejected(Notifications.Notice(InvalidEmailMessage, "error"))
        <==> email != "" && name != "" && !MatchesEmailPattern(email)
  {
    IsValidEmailMatchesPattern(email);
  }

  /** Both forms accept the same addresses once the signup's name is filled in. */
  lemma FormsAgreeOnAddresses(email: string, name: string)
    requires name != ""
    ensures TrialSignup(email, name).Accepted? <==> Newsletter(email).Accepted?
  {
    if email == "" {
      RejectsMissingParts();
    }
  }
}
