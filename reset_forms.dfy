/** The two password-reset forms: the patient site's, which chooses the
    patient or the doctor endpoint by the link's `type`, and the admin panel's,
    which always uses the doctor endpoint. Both check that the passwords match
    and then their length before sending anything. */
module ResetForms {
  import opened Wrappers
  import opened Backend
  import opened JsText

  datatype Endpoint = UserReset | DoctorReset

  /** What pressing submit does: an error message and no request, or a request. */
  datatype Submission = Rejected(message: string) | Post(endpoint: Endpoint, token: string, newPassword: string)

  const Mismatch := "Passwords do not match"
  const TooShort := "Password must be at least 8 characters long"

  /** handleSubmit on the patient site. */
  function SiteSubmit(newPassword: string, confirmPassword: string, token: string, kind: Option<string>)
    : (r: Submission)
    ensures r.Post? <==> newPassword == confirmPassword && Utf16Length(newPassword) >= 8
    ensures r.Post? ==> r.newPassword == newPassword && r.token == token
    ensures r.Post? ==> (r.endpoint == DoctorReset <==> kind == Some("doctor"))
  {
    if newPassword != confirmPassword then Rejected(Mismatch)
    else if Utf16Length(newPassword) < 8 then Rejected(TooShort)
    else Post(if kind == Some("doctor") then DoctorReset else UserReset, token, newPassword)
  }

  /** handleSubmit on the admin panel: the link's `type` plays no part. */
  function PanelSubmit(newPassword: string, confirmPassword: string, token: string, kind: Option<string>)
    : (r: Submission)
    ensures r.Post? ==> r.endpoint == DoctorReset
  {
    if newPassword != confirmPassword then Rejected(Mismatch)
    else if Utf16Length(newPassword) < 8 then Rejected(TooShort)
    else Post(DoctorReset, token, newPassword)
  }

  /** The checks come in order: a mismatch is reported whatever the length,
      and the length is reported only for matching passwords. The panel's form
      behaves as the site's form for a doctor's link. */
  lemma ChecksInOrder(newPassword: string, confirmPassword: string, token: string, kind: Option<string>)
    ensures newPassword != confirmPassword ==>
              SiteSubmit(newPassword, confirmPassword, token, kind) == Rejected(Mismatch)
              && PanelSubmit(newPassword, confirmPassword, token, kind) == Rejected(Mismatch)
    ensures newPassword == confirmPassword && Utf16Length(newPassword) < 8 ==>
              SiteSubmit(newPassword, confirmPassword, token, kind) == Rejected(TooShort)
              && PanelSubmit(newPassword, confirmPassword, token, kind) == Rejected(TooShort)
    ensures PanelSubmit(newPassword, confirmPassword, token, kind)
            == SiteSubmit(newPassword, confirmPassword, token, Some("doctor"))
  {
  }

  /** The controller a request reaches. */
  function Deliver(db: Db, s: Submission, now: int): Outcome
    requires s.Post?
  {
    match s.endpoint
    case UserReset => ResetPassword(db, s.token, s.newPassword, now)
    case DoctorReset => ResetDoctorPassword(db, s.token, s.newPassword, now)
  }

  /** A request the site sends always passes the controller's length check:
      it is refused only for want of a live reset token, and it succeeds
      exactly when the patient (or, for a doctor's link, a doctor) holds one. */
  lemma PostedPasswordPassesLengthCheck(db: Db, newPassword: string, confirmPassword: string, token: string,
                                        kind: Option<string>, now: int)
    requires SiteSubmit(newPassword, confirmPassword, token, kind).Post?
    ensures var r := Deliver(db, SiteSubmit(newPassword, confirmPassword, token, kind), now).reply;
            r != Failure(WeakNewPassword)
            && (r.Success? <==>
                  if kind == Some("doctor") then exists j :: 0 <= j < |db.doctors| && Live(db.doctors[j].reset, token, now)
                  else exists j :: 0 <= j < |db.users| && Live(db.users[j].reset, token, now))
  {
  }

  /** Which view the page shows: the form only for a link with a token
      (a missing or empty token is falsy). */
  datatype Page = InvalidLink | Form

  function PageFor(token: Option<string>): (p: Page)
    ensures p == Form <==> token.Some? && token.value != ""
  {
    if token.Some? && token.value != "" then Form else InvalidLink
  }

  /** The submit button is disabled while a request is pending, or when both
      fields are filled in and differ; the same rule on both forms. */
  predicate SubmitDisabled(isLoading: bool, newPassword: string, confirmPassword: string) {
    isLoading || (newPassword != "" && confirmPassword != "" && newPassword != confirmPassword)
  }

  datatype FormKind = SiteForm | PanelForm

  /** What a press of the submit button leads to: nothing while the button is
      disabled, the browser's own refusal when a `required` field is empty
      (handleSubmit does not run), and otherwise the form's handleSubmit. */
  datatype Press = Ignored | Blocked | Submitted(submission: Submission)

  function PressSubmit(form: FormKind, isLoading: bool, newPassword: string, confirmPassword: string,
                       token: string, kind: Option<string>): (r: Press)
    ensures r == Ignored <==> SubmitDisabled(isLoading, newPassword, confirmPassword)
    ensures r == Blocked <==>
              !SubmitDisabled(isLoading, newPassword, confirmPassword) && (newPassword == "" || confirmPassword == "")
    ensures r.Submitted? ==> newPassword != "" && confirmPassword != "" && newPassword == confirmPassword
  {
    if SubmitDisabled(isLoading, newPassword, confirmPassword) then Ignored
    else if newPassword == "" || confirmPassword == "" then Blocked
    else Submitted(match form
                   case SiteForm => SiteSubmit(newPassword, confirmPassword, token, kind)
                   case PanelForm => PanelSubmit(newPassword, confirmPassword, token, kind))
  }

  /** Between the disabled button and the `required` fields, a press that
      reaches handleSubmit always carries matching passwords: the mismatch
      message is never shown, and the submission is refused only for its
      length. */
  lemma SubmittedNeverMismatched(form: FormKind, isLoading: bool, newPassword: string,
                                  confirmPassword: string, token: string, kind: Option<string>)
    requires PressSubmit(form, isLoading, newPassword, confirmPassword, token, kind).Submitted?
    ensures var s := PressSubmit(form, isLoading, newPassword, confirmPassword, token, kind).submission;
            s != Rejected(Mismatch)
            && (s.Post? <==> Utf16Length(newPassword) >= 8)
            && (s.Rejected? ==> s == Rejected(TooShort))
  {
    ChecksInOrder(newPassword, confirmPassword, token, kind);
  }

  /** Pending requests block the button whatever the fields hold. */
  lemma LoadingDisables(newPassword: string, confirmPassword: string)
    ensures SubmitDisabled(true, newPassword, confirmPassword)
    ensures !SubmitDisabled(false, newPassword, confirmPassword) <==>
              newPassword == "" || confirmPassword == "" || newPassword == confirmPassword
  {
  }
}
