/** The registration-number input of the doctor form
    (src/features/doctors/components/slmc-verification-field.tsx): everything it
    shows is derived from its props, and an edit only invokes callbacks. */
module SlmcVerificationField {
  import opened Common
  import opened DoctorTypes

  /** The props the field reads. `formError` is absent when the form has no
      message; `optional` defaults to true. */
  datatype FieldProps = FieldProps(
    value: string,
    status: SlmcVerificationStatus,
    practitioner: Option<SlmcPractitioner>,
    verificationError: Option<string>,
    formError: Option<string>,
    optional: bool)

  /** A callback the field invokes. */
  datatype Callback = OnChange(value: string) | OnReset

  datatype Icon = Spinner | CheckCircle | CrossCircle

  /** The element ids `aria-describedby` can name. */
  const ErrorId: string := "slmc-error"
  const VerifiedId: string := "slmc-verified"
  const HelperId: string := "slmc-helper"

  /** The callbacks an edit to `newValue` invokes, in order. */
  function HandleChange(status: SlmcVerificationStatus, newValue: string): (calls: seq<Callback>)
    ensures |calls| >= 1 && calls[0] == OnChange(newValue)
    ensures OnReset in calls <==> status != Idle
    ensures |calls| == (if status == Idle then 1 else 2)
  {
    [OnChange(newValue)] + (if status != Idle then [OnReset] else [])
  }

  /** `formError ?? (status === "invalid" ? verificationError : null)`: a present
      form error wins, even an empty one. */
  function DisplayError(p: FieldProps): (e: Option<string>)
    ensures p.formError.Some? ==> e == p.formError
    ensures p.formError.None? && p.status == Invalid ==> e == p.verificationError
    ensures p.formError.None? && p.status != Invalid ==> e.None?
  {
    if p.formError.Some? then p.formError
    else if p.status == Invalid then p.verificationError
    else None
  }

  /** The display error is truthy: present and not "". */
  predicate ShowsError(p: FieldProps) {
    DisplayError(p).Some? && DisplayError(p).value != []
  }

  function StatusIcon(status: SlmcVerificationStatus): (icon: Option<Icon>)
    ensures icon.None? <==> status == Idle
    ensures icon == Some(Spinner) <==> status == Loading
    ensures icon == Some(CheckCircle) <==> status == Valid
    ensures icon == Some(CrossCircle) <==> status == Invalid
  {
    match status
    case Loading => Some(Spinner)
    case Valid => Some(CheckCircle)
    case Invalid => Some(CrossCircle)
    case Idle => None
  }

  /** Distinct statuses show distinct icons. */
  lemma StatusIconInjective(s: SlmcVerificationStatus, t: SlmcVerificationStatus)
    requires StatusIcon(s) == StatusIcon(t)
    ensures s == t
  {
  }

  predicate Disabled(p: FieldProps) {
    p.status == Loading
  }

  predicate AriaInvalid(p: FieldProps) {
    ShowsError(p)
  }

  function AriaDescribedBy(p: FieldProps): (id: string)
    ensures id in {ErrorId, VerifiedId, HelperId}
    ensures id == ErrorId <==> ShowsError(p)
    ensures id == VerifiedId <==> !ShowsError(p) && p.status == Valid
  {
    if ShowsError(p) then ErrorId
    else if p.status == Valid then VerifiedId
    else HelperId
  }

  predicate ShowsLoadingMessage(p: FieldProps) {
    p.status == Loading
  }

  predicate ShowsVerifiedPanel(p: FieldProps) {
    p.status == Valid && p.practitioner.Some?
  }

  predicate ShowsHelper(p: FieldProps) {
    p.status == Idle && !ShowsError(p)
  }

  /** The ids of the elements that are rendered. */
  function RenderedIds(p: FieldProps): (ids: set<string>)
    ensures ErrorId in ids <==> ShowsError(p)
    ensures VerifiedId in ids <==> ShowsVerifiedPanel(p)
    ensures HelperId in ids <==> ShowsHelper(p)
  {
    (if ShowsError(p) then {ErrorId} else {})
    + (if ShowsVerifiedPanel(p) then {VerifiedId} else {})
    + (if ShowsHelper(p) then {HelperId} else {})
  }

  /** `aria-describedby` names a rendered element exactly when an error shows, the
      status is valid with a practitioner, or the status is idle. While loading, and
      while invalid without a message, it names the helper text, which is not
      rendered then. */
  lemma DescribedByResolves(p: FieldProps)
    ensures AriaDescribedBy(p) in RenderedIds(p) <==>
      ShowsError(p) || (p.status == Valid && p.practitioner.Some?) || p.status == Idle
  {
  }

  /** The input is disabled exactly while the spinner icon and the loading line
      show; it is marked invalid exactly when the error paragraph is rendered and
      named by `aria-describedby`. */
  lemma InputAttributesAgree(p: FieldProps)
    ensures Disabled(p) <==> StatusIcon(p.status) == Some(Spinner)
    ensures Disabled(p) <==> ShowsLoadingMessage(p)
    ensures AriaInvalid(p) <==> ErrorId in RenderedIds(p)
    ensures AriaInvalid(p) <==> AriaDescribedBy(p) == ErrorId
  {
  }

  /** At most one of the error, the verified panel and the helper is shown, except
      that a form error can show beside the verified panel. */
  lemma MessagesExclusive(p: FieldProps)
    ensures !(ShowsHelper(p) && ShowsError(p))
    ensures !(ShowsHelper(p) && ShowsVerifiedPanel(p))
    ensures !(ShowsHelper(p) && ShowsLoadingMessage(p))
    ensures ShowsError(p) && ShowsVerifiedPanel(p) ==> p.formError.Some?
  {
  }

  /** A form error of "" is present, so it hides a verification error, yet it is
      not truthy, so nothing is shown. */
  lemma EmptyFormErrorHidesVerificationError(p: FieldProps)
    requires p.formError == Some([]) && p.status == Invalid
    ensures DisplayError(p) == Some([]) && !ShowsError(p) && !AriaInvalid(p)
  {
  }

  /** The colour of the input's border. */
  datatype Tone = Success | Error | Neutral

  function BorderTone(p: FieldProps): (t: Tone)
    ensures t == Success <==> p.status == Valid
    ensures t == Error <==> p.status != Valid && ShowsError(p)
  {
    if p.status == Valid then Success
    else if ShowsError(p) then Error
    else Neutral
  }

  /** The text lines of the verified panel. */
  function PanelLines(pr: SlmcPractitioner): (lines: seq<string>)
    ensures |lines| == (if pr.qualifications.Some? && pr.qualifications.value != [] then 3 else 2)
    ensures lines[0] == "Verified: " + pr.fullName
    ensures lines[1] == "Reg #" + pr.regNo + (if pr.regDate != [] then " · Registered " + pr.regDate else [])
    ensures |lines[1]| >= 5 + |pr.regNo| && lines[1][..5 + |pr.regNo|] == "Reg #" + pr.regNo
    ensures pr.regDate == [] <==> |lines[1]| == 5 + |pr.regNo|
    ensures |lines| == 3 ==> lines[2] == pr.qualifications.value
  {
    var registered := if pr.regDate != [] then " · Registered " + pr.regDate else [];
    assert ("Reg #" + pr.regNo + registered)[..5 + |pr.regNo|] == "Reg #" + pr.regNo;
    ["Verified: " + pr.fullName, "Reg #" + pr.regNo + registered]
    + (if pr.qualifications.Some? && pr.qualifications.value != [] then [pr.qualifications.value] else [])
  }

  /** The label's "(Optional)" marker. */
  predicate ShowsOptionalMarker(p: FieldProps) {
    p.optional
  }
}
