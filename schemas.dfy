/** `createDoctorSchema` (src/features/doctors/validation/schemas.ts): a zod object
    of four field rules. The object parses each of its keys in declaration order,
    gathers every field's issues under the field's key, and drops keys it does not
    declare. */
module Schemas {
  import opened Common
  import opened JsString
  import opened ValidationRules

  /** A value of the submitted object: a string, or a JSON value of another type. */
  datatype RawValue = Str(s: string) | NonString

  /** The record the schema produces. */
  datatype CreateDoctorValues =
    CreateDoctorValues(fullName: string, licenseId: string, contactNumber: string, email: string)

  /** An issue and the key it was raised for. */
  datatype FieldIssue = FieldIssue(path: string, issue: Issue)

  /** The keys the schema declares, in declaration order. */
  const CreateDoctorKeys: seq<string> := ["fullName", "licenseId", "contactNumber", "email"]

  /** One key of the object: absent is `Required`, a non-string is `InvalidType`,
      a string goes through the field's rule. */
  function ParseField(input: map<string, RawValue>, key: string, rule: string -> Parsed<string>)
    : (r: Parsed<string>)
    ensures key in input && input[key].Str? ==> r == rule(input[key].s)
    ensures key !in input ==> r == Err([Required])
    ensures key in input && input[key].NonString? ==> r == Err([InvalidType])
    ensures r.Ok? ==> key in input && input[key].Str?
  {
    if key !in input then Err([Required])
    else match input[key]
      case NonString => Err([InvalidType])
      case Str(s) => rule(s)
  }

  /** A field's issues, each tagged with its key. */
  function Located(key: string, r: Parsed<string>): (issues: seq<FieldIssue>)
    ensures r.Ok? ==> issues == []
    ensures r.Err? ==> |issues| == |r.error|
                       && forall i :: 0 <= i < |issues| ==> issues[i] == FieldIssue(key, r.error[i])
  {
    if r.Ok? then [] else seq(|r.error|, i requires 0 <= i < |r.error| => FieldIssue(key, r.error[i]))
  }

  function FullNameField(input: map<string, RawValue>): (r: Parsed<string>)
    ensures r.Err? ==> r.error != []
  {
    ParseField(input, "fullName", ParseFullName)
  }

  function LicenseIdField(input: map<string, RawValue>): (r: Parsed<string>)
    ensures r.Err? ==> r.error != []
  {
    ParseField(input, "licenseId", ParseLicenseId)
  }

  function ContactNumberField(input: map<string, RawValue>): (r: Parsed<string>)
    ensures r.Err? ==> r.error != []
  {
    ParseField(input, "contactNumber", ParseContactNumber)
  }

  function EmailField(input: map<string, RawValue>, isEmail: string -> bool): (r: Parsed<string>)
    ensures r.Err? ==> r.error != []
  {
    ParseField(input, "email", s => ParseEmail(s, isEmail))
  }

  /** `createDoctorSchema.safeParse(input)`. */
  function ParseCreateDoctor(input: map<string, RawValue>, isEmail: string -> bool)
    : (r: Result<CreateDoctorValues, seq<FieldIssue>>)
    ensures r.Ok? <==> && FullNameField(input).Ok? && LicenseIdField(input).Ok?
                       && ContactNumberField(input).Ok? && EmailField(input, isEmail).Ok?
    ensures r.Ok? ==> && "contactNumber" in input && input["contactNumber"].Str?
                      && MatchesPhonePattern(input["contactNumber"].s)
                      && r.value.contactNumber == "+94" + MobileBody(input["contactNumber"].s)
                      && |r.value.contactNumber| == 12
    ensures r.Ok? ==> && "licenseId" in input && input["licenseId"].Str?
                      && r.value.licenseId == input["licenseId"].s
    ensures r.Ok? ==> r.value == CreateDoctorValues(FullNameField(input).value, LicenseIdField(input).value,
                                                    ContactNumberField(input).value, EmailField(input, isEmail).value)
    ensures r.Err? ==> r.error == Located("fullName", FullNameField(input)) + Located("licenseId", LicenseIdField(input))
                                  + Located("contactNumber", ContactNumberField(input))
                                  + Located("email", EmailField(input, isEmail))
    ensures r.Err? ==> r.error != []
    ensures r.Err? ==> forall i :: 0 <= i < |r.error| ==> r.error[i].path in CreateDoctorKeys
  {
    var name := FullNameField(input);
    var license := LicenseIdField(input);
    var contact := ContactNumberField(input);
    var email := EmailField(input, isEmail);
    if name.Ok? && license.Ok? && contact.Ok? && email.Ok? then
      NormalisedForm(input["contactNumber"].s);
      Ok(CreateDoctorValues(name.value, license.value, contact.value, email.value))
    else
      Err(Located("fullName", name) + Located("licenseId", license)
          + Located("contactNumber", contact) + Located("email", email))
  }

  /** Keys the schema does not declare (specialty, clinic name, experience,
      duration, consultation type, working hours, ...) play no part: adding or
      changing one never changes the outcome. */
  lemma UndeclaredKeysIgnored(input: map<string, RawValue>, key: string, v: RawValue, isEmail: string -> bool)
    requires key !in CreateDoctorKeys
    ensures ParseCreateDoctor(input[key := v], isEmail) == ParseCreateDoctor(input, isEmail)
  {
    var input' := input[key := v];
    assert FullNameField(input') == FullNameField(input);
    assert LicenseIdField(input') == LicenseIdField(input);
    assert ContactNumberField(input') == ContactNumberField(input);
    assert EmailField(input', isEmail) == EmailField(input, isEmail);
  }

  /** The parsed record's contact number is already canonical: feeding it to the
      contact-number rule again returns it unchanged. */
  lemma ParsedContactNumberIsCanonical(input: map<string, RawValue>, isEmail: string -> bool)
    requires ParseCreateDoctor(input, isEmail).Ok?
    ensures ParseContactNumber(ParseCreateDoctor(input, isEmail).value.contactNumber)
            == Ok(ParseCreateDoctor(input, isEmail).value.contactNumber)
  {
    var raw := input["contactNumber"].s;
    ContactNumberParseIdempotent(raw);
  }
}
