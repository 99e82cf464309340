/** The field rules for a doctor record (src/features/doctors/validation/rules.ts).

    Each rule is a zod chain. A chain runs its checks in the order they are
    declared, on the value as it stands at that point, and collects one issue per
    failing check; `.trim()` and `.toLowerCase()` are themselves steps of the chain,
    so every length or pattern check declared before them sees the raw string.
    A `.transform` runs only when no check failed. */
module ValidationRules {
  import opened Common
  import opened JsString
  import opened DoctorTypes

  /** One zod issue. */
  datatype Issue =
    | Message(text: string)             // a failing check with a message written in the rules
    | InvalidEnumValue(received: string) // `z.enum`'s own message for a value outside the list
    | InvalidType                        // a present value of the wrong JSON type
    | Required                           // an absent key

  type Parsed<T> = Result<T, seq<Issue>>

  const FullNameTooShort := "Full name must be at least 2 characters"
  const FullNameTooLong := "Full name must not exceed 100 characters"
  const LicenseIdRequired := "License ID is required"
  const LicenseIdCharset := "License ID can only contain letters, numbers, and hyphens"
  const ContactNumberRequired := "Contact number is required"
  const ContactNumberInvalid := "Please enter a valid Sri Lankan phone number"
  const EmailRequired := "Email is required"
  const EmailInvalid := "Please enter a valid email address"
  const ExperienceTooLow := "Years of experience must be 0 or more"
  const ExperienceTooHigh := "Please enter a valid number"
  const DurationTooLow := "Minimum 5 minutes"
  const DurationTooHigh := "Maximum 180 minutes"

  /** The issue a check contributes: none when it passes. */
  function Check(passes: bool, message: string): seq<Issue> {
    if passes then [] else [Message(message)]
  }

  // ---------------------------------------------------------------- full name

  /** `z.string().min(2).max(100).trim()`: the bounds apply to the raw string. */
  function ParseFullName(raw: string): (r: Parsed<string>)
    ensures r.Ok? <==> 2 <= Utf16Length(raw) <= 100
    ensures r.Ok? ==> r.value == Trim(raw)
    ensures r.Ok? ==> NoOuterSpace(r.value) && |r.value| <= 100
    ensures r.Err? ==> |r.error| == 1
    ensures Utf16Length(raw) < 2 ==> r == Err([Message(FullNameTooShort)])
    ensures Utf16Length(raw) > 100 ==> r == Err([Message(FullNameTooLong)])
  {
    var issues := Check(Utf16Length(raw) >= 2, FullNameTooShort)
                + Check(Utf16Length(raw) <= 100, FullNameTooLong);
    assert Utf16Length(raw) < 2 ==> issues == [Message(FullNameTooShort)];
    assert Utf16Length(raw) > 100 ==> issues == [Message(FullNameTooLong)];
    if issues == [] then Ok(Trim(raw)) else Err(issues)
  }

  /** Because the bounds are checked before the trim, an accepted name can be
      shorter than two characters, or even empty, once trimmed. */
  lemma FullNameBoundsPrecedeTrim()
    ensures ParseFullName(" a") == Ok("a")
    ensures ParseFullName("   ") == Ok("")
  {
    assert Utf16Length(" a") == 2;
    assert Utf16Length("   ") == 3;
    assert SkipSpaceForward(" a", 0) == SkipSpaceForward(" a", 1) == 1;
    assert SkipSpaceBackward(" a", 1, 2) == 2;
    assert Trim(" a") == " a"[1..2] == "a";
    assert SkipSpaceForward("   ", 0) == SkipSpaceForward("   ", 1) == SkipSpaceForward("   ", 2) == 3;
  }

  // --------------------------------------------------------------- license id

  predicate IsLicenseChar(c: char) {
    IsAsciiUpper(c) || IsAsciiLower(c) || IsDigit(c) || c == '-'
  }

  /** `/^[A-Za-z0-9-]+$/` */
  predicate MatchesLicensePattern(s: string) {
    |s| >= 1 && forall i :: 0 <= i < |s| ==> IsLicenseChar(s[i])
  }

  /** `z.string().min(1).regex(/^[A-Za-z0-9-]+$/).trim()` */
  function ParseLicenseId(raw: string): (r: Parsed<string>)
    ensures r.Ok? <==> raw != [] && forall i :: 0 <= i < |raw| ==> IsLicenseChar(raw[i])
    ensures r.Ok? ==> r.value == raw
    ensures r.Err? ==> r.error != []
    ensures raw == [] ==> r == Err([Message(LicenseIdRequired), Message(LicenseIdCharset)])
    ensures raw != [] && r.Err? ==> r.error == [Message(LicenseIdCharset)]
  {
    var issues := Check(Utf16Length(raw) >= 1, LicenseIdRequired)
                + Check(MatchesLicensePattern(raw), LicenseIdCharset);
    if issues == [] then
      TrimOfTrimmed(raw);
      Ok(Trim(raw))
    else
      assert raw == [] ==> issues == [Message(LicenseIdRequired), Message(LicenseIdCharset)];
      Err(issues)
  }

  // ----------------------------------------------------------- contact number

  /** A `7` followed by eight digits: a mobile number without its prefix. */
  predicate IsMobileBody(s: string) {
    |s| == 9 && s[0] == '7' && forall i :: 1 <= i < 9 ==> IsDigit(s[i])
  }

  /** `/^(\+94|0)?[7][0-9]{8}$/`: an optional "+94" or "0", then the body. */
  predicate MatchesPhonePattern(s: string) {
    || IsMobileBody(s)
    || (StartsWith(s, "0") && IsMobileBody(s[1..]))
    || (StartsWith(s, "+94") && IsMobileBody(s[3..]))
  }

  /** The subscriber part of a number the pattern accepts. */
  function MobileBody(s: string): (b: string)
    requires MatchesPhonePattern(s)
    ensures IsMobileBody(b)
  {
    s[|s| - 9..]
  }

  /** The `transform` of the contact-number rule. */
  function NormaliseContactNumber(val: string): (r: string)
    ensures StartsWith(r, "+94")
    ensures |r| <= |val| + 3
  {
    if StartsWith(val, "0") then "+94" + val[1..]
    else if !StartsWith(val, "+94") then "+94" + val
    else val
  }

  /** `z.string().min(1).regex(...).transform(NormaliseContactNumber)` */
  function ParseContactNumber(raw: string): (r: Parsed<string>)
    ensures r.Ok? <==> MatchesPhonePattern(raw)
    ensures r.Ok? ==> r.value == "+94" + MobileBody(raw)
    ensures r.Err? ==> r.error != []
    ensures raw == [] ==> r == Err([Message(ContactNumberRequired), Message(ContactNumberInvalid)])
    ensures raw != [] && r.Err? ==> r.error == [Message(ContactNumberInvalid)]
  {
    var issues := Check(Utf16Length(raw) >= 1, ContactNumberRequired)
                + Check(MatchesPhonePattern(raw), ContactNumberInvalid);
    if issues == [] then
      NormalisedForm(raw);
      Ok(NormaliseContactNumber(raw))
    else
      assert raw == [] ==> issues == [Message(ContactNumberRequired), Message(ContactNumberInvalid)];
      Err(issues)
  }

  /** Every accepted number normalises to "+94", a 7 and eight digits: twelve
      characters that the pattern itself accepts. */
  lemma NormalisedForm(s: string)
    requires MatchesPhonePattern(s)
    ensures NormaliseContactNumber(s) == "+94" + MobileBody(s)
    ensures |NormaliseContactNumber(s)| == 12
    ensures MatchesPhonePattern(NormaliseContactNumber(s))
  {
    var r := NormaliseContactNumber(s);
    if StartsWith(s, "0") {
      assert |s| == 10;
    } else if !StartsWith(s, "+94") {
      assert |s| == 9;
    } else {
      assert |s| == 12;
      assert s == s[..3] + s[3..];
    }
    assert r[3..] == MobileBody(s);
  }

  /** Normalising is idempotent, for every string. */
  lemma NormaliseIdempotent(s: string)
    ensures NormaliseContactNumber(NormaliseContactNumber(s)) == NormaliseContactNumber(s)
  {
    var r := NormaliseContactNumber(s);
    assert r[..1] == "+";
  }

  /** Two accepted numbers normalise alike exactly when they name the same subscriber,
      whichever prefix each was written with. */
  lemma NormaliseCanonical(a: string, b: string)
    requires MatchesPhonePattern(a) && MatchesPhonePattern(b)
    ensures NormaliseContactNumber(a) == NormaliseContactNumber(b) <==> MobileBody(a) == MobileBody(b)
  {
    NormalisedForm(a);
    NormalisedForm(b);
    if NormaliseContactNumber(a) == NormaliseContactNumber(b) {
      assert MobileBody(a) == NormaliseContactNumber(a)[3..];
    }
  }

  /** Parsing the parsed value again returns it unchanged. */
  lemma ContactNumberParseIdempotent(raw: string)
    requires ParseContactNumber(raw).Ok?
    ensures ParseContactNumber(ParseContactNumber(raw).value) == ParseContactNumber(raw)
  {
    var v := ParseContactNumber(raw).value;
    NormalisedForm(raw);
    NormalisedForm(v);
    NormaliseIdempotent(raw);
    assert MobileBody(v) == v[3..];
  }

  // -------------------------------------------------------------------- email

  /** Lower-casing neither creates nor removes white space at the ends. */
  lemma LowerKeepsNoOuterSpace(s: string)
    requires NoOuterSpace(s)
    ensures NoOuterSpace(ToLower(s))
  {
  }

  /** `z.string().min(1).email().trim().toLowerCase()`; zod's address syntax check
      is the parameter `isEmail`, applied, like `min`, to the raw string. */
  function ParseEmail(raw: string, isEmail: string -> bool): (r: Parsed<string>)
    ensures r.Ok? <==> raw != [] && isEmail(raw)
    ensures r.Ok? ==> r.value == ToLower(Trim(raw))
    ensures r.Ok? ==> NoOuterSpace(r.value)
    ensures r.Ok? ==> forall i :: 0 <= i < |r.value| ==> !IsAsciiUpper(r.value[i])
    ensures r.Ok? ==> |r.value| <= |raw|
    ensures r.Err? ==> r.error != []
    ensures raw == [] ==> r.Err? && r.error[0] == Message(EmailRequired)
    ensures raw == [] && !isEmail(raw) ==> r == Err([Message(EmailRequired), Message(EmailInvalid)])
    ensures raw != [] && r.Err? ==> r.error == [Message(EmailInvalid)]
  {
    var issues := Check(Utf16Length(raw) >= 1, EmailRequired) + Check(isEmail(raw), EmailInvalid);
    assert raw == [] && !isEmail(raw) ==> issues == [Message(EmailRequired), Message(EmailInvalid)];
    if issues == [] then
      LowerKeepsNoOuterSpace(Trim(raw));
      Ok(ToLower(Trim(raw)))
    else Err(issues)
  }

  // ------------------------------------------------------ specialty, clinic

  /** `z.string().trim().optional().or(z.literal(""))`: always accepted; a present
      value is trimmed, and "" stays "" rather than becoming absent. */
  function ParseOptionalText(raw: Option<string>): (r: Parsed<Option<string>>)
    ensures r.Ok?
    ensures r.value == (if raw.Some? then Some(Trim(raw.value)) else None)
    ensures r.value.Some? <==> raw.Some?
    ensures r.value.Some? ==> NoOuterSpace(r.value.value) && |r.value.value| <= |raw.value|
  {
    match raw
    case None => Ok(None)
    case Some(s) => Ok(Some(Trim(s)))
  }

  function ParseSpecialty(raw: Option<string>): Parsed<Option<string>> {
    ParseOptionalText(raw)
  }

  function ParseClinicName(raw: Option<string>): Parsed<Option<string>> {
    ParseOptionalText(raw)
  }

  lemma EmptyTextStaysPresent()
    ensures ParseSpecialty(Some("")) == Ok(Some(""))
    ensures ParseClinicName(Some(" ")) == Ok(Some(""))
  {
    assert SkipSpaceForward(" ", 0) == SkipSpaceForward(" ", 1) == 1;
  }

  // ----------------------------------------------------- experience, duration

  /** `z.coerce.number().int().min(lo).max(hi).optional()` over integers: an absent
      value passes, a present one must lie in [lo, hi] and is kept as it is. */
  function ParseBoundedInt(raw: Option<int>, lo: int, hi: int, tooLow: string, tooHigh: string)
    : (r: Parsed<Option<int>>)
    ensures r.Ok? <==> (raw.Some? ==> lo <= raw.value <= hi)
    ensures r.Ok? ==> r.value == raw
    ensures r.Err? ==> forall i :: 0 <= i < |r.error| ==> r.error[i] in {Message(tooLow), Message(tooHigh)}
    ensures raw.Some? && raw.value < lo <= hi ==> r == Err([Message(tooLow)])
    ensures raw.Some? && lo <= hi < raw.value ==> r == Err([Message(tooHigh)])
  {
    match raw
    case None => Ok(None)
    case Some(n) =>
      var issues := Check(n >= lo, tooLow) + Check(n <= hi, tooHigh);
      assert n < lo <= hi ==> issues == [Message(tooLow)];
      assert lo <= hi < n ==> issues == [Message(tooHigh)];
      if issues == [] then Ok(Some(n)) else Err(issues)
  }

  function ParseYearsOfExperience(raw: Option<int>): (r: Parsed<Option<int>>)
    ensures r.Ok? <==> (raw.Some? ==> 0 <= raw.value <= 70)
    ensures raw.Some? && raw.value < 0 ==> r == Err([Message(ExperienceTooLow)])
    ensures raw.Some? && raw.value > 70 ==> r == Err([Message(ExperienceTooHigh)])
  {
    ParseBoundedInt(raw, 0, 70, ExperienceTooLow, ExperienceTooHigh)
  }

  function ParseAppointmentDuration(raw: Option<int>): (r: Parsed<Option<int>>)
    ensures r.Ok? <==> (raw.Some? ==> 5 <= raw.value <= 180)
    ensures raw.Some? && raw.value < 5 ==> r == Err([Message(DurationTooLow)])
    ensures raw.Some? && raw.value > 180 ==> r == Err([Message(DurationTooHigh)])
  {
    ParseBoundedInt(raw, 5, 180, DurationTooLow, DurationTooHigh)
  }

  // -------------------------------------------------------- consultation type

  function ConsultationTypeName(t: ConsultationType): string {
    match t
    case InPerson => "In-Person"
    case Telemedicine => "Telemedicine"
    case Both => "Both"
  }

  /** `z.enum(["In-Person", "Telemedicine", "Both"]).optional()` */
  function ParseConsultationType(raw: Option<string>): (r: Parsed<Option<ConsultationType>>)
    ensures r.Ok? <==> (raw.Some? ==> raw.value in {"In-Person", "Telemedicine", "Both"})
    ensures r.Ok? ==> (r.value.Some? <==> raw.Some?)
    ensures r.Ok? && r.value.Some? ==> ConsultationTypeName(r.value.value) == raw.value
    ensures r.Err? ==> r.error == [InvalidEnumValue(raw.value)]
  {
    match raw
    case None => Ok(None)
    case Some(s) =>
      if s == "In-Person" then Ok(Some(InPerson))
      else if s == "Telemedicine" then Ok(Some(Telemedicine))
      else if s == "Both" then Ok(Some(Both))
      else Err([InvalidEnumValue(s)])
  }

  /** Every consultation type survives the trip through its name. */
  lemma ConsultationTypeRoundTrip(t: ConsultationType)
    ensures ParseConsultationType(Some(ConsultationTypeName(t))) == Ok(Some(t))
  {
  }
}
