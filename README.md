# aumedix-admin doctor portal: a Dafny model of its logic

This project models the parts of the aumedix-admin portal that carry rules of
their own, and proves what those rules promise:

- the zod field rules and the create-doctor schema, in `validation_rules.dfy` and
  `schemas.dfy`. Checks run in order on the raw string, the trim comes after, and
  the contact number is rewritten to a "+94" form.
- the working-hours editor's list operations, in `working_hours.dfy`. Days stay
  distinct and there are never more than seven rows.
- the registration-number verification hook, in `slmc_hook.dfy`. It is a class
  whose methods are the hook's events: a keystroke, the debounce timer firing, a
  request coming back, a reset and unmounting.
- the medical-council registry lookup endpoint, in `slmc_route.dfy`. Its
  qualification clean-up lives in `qualifications.dfy`.
- the display rules of the registration-number field, in `slmc_field.dfy`.
- the doctor table's "Verified / All" filter, in `doctor_table.dfy`.
- the avatar initials, in `user_menu.dfy`.
- the error-code messages, in `constants.dfy`.
- the status badge colours, in `status_badge.dfy`.
- the generic form field's id and accessibility attributes, in `form_field.dfy`.

`js_string.dfy` gives the JavaScript string built-ins the code relies on:

- `trim` and `\s`, over the ECMAScript white-space and line-terminator characters;
- `split` on one character;
- ASCII case mapping;
- UTF-16 length.

`doctor_types.dfy` holds the records. `common.dfy` holds `Option` and `Result`.

Where the code and its design description differ, the model follows the code:

- The full-name length bounds (2 to 100) are checked before the trim. So " a"
  and "   " are accepted and become "a" and "".
- A specialty or clinic name of "" is kept as "" and is not dropped.
- The hook records a number as "last verified" when the lookup starts, not when
  it succeeds.
- The endpoint answers with the first exact match in category order. It does not
  check that the match is unique. "Multiple registrations match" means "entries
  came back, but none matched exactly".

## Model

| member | source | states |
|---|---|---|
| ValidationRules.ParseFullName | src/features/doctors/validation/rules.ts:6-10 | accepted iff the raw string is 2 to 100 UTF-16 units long; the accepted value is the trim of the raw string, at most 100 characters; a rejection carries one issue: "at least 2 characters" below 2 units, "must not exceed 100 characters" above 100 |
| ValidationRules.FullNameBoundsPrecedeTrim | src/features/doctors/validation/rules.ts:6-10 | " a" is accepted as "a" and "   " as "": the bounds are checked before the trim |
| ValidationRules.ParseLicenseId | src/features/doctors/validation/rules.ts:12-19 | accepted iff non-empty and every character is a letter, digit or '-'; the accepted value is the raw string (the trim changes nothing); "" raises both issues in order; a rejected non-empty id carries only the character-set message |
| ValidationRules.MobileBody | src/features/doctors/validation/rules.ts:3 | a matching number ends in a 7 followed by eight digits |
| ValidationRules.NormaliseContactNumber | src/features/doctors/validation/rules.ts:28-32 | the result always starts with "+94" and grows by at most three characters |
| ValidationRules.ParseContactNumber | src/features/doctors/validation/rules.ts:21-32 | accepted iff the string is an optional "+94" or "0", then 7 and eight digits; the value is "+94" followed by the 7-and-eight-digit body; "" raises both issues; a rejected non-empty number carries only the Sri Lankan number message |
| ValidationRules.NormalisedForm | src/features/doctors/validation/rules.ts:28-32 | an accepted number normalises to "+94" plus its body: 12 characters that the pattern accepts again |
| ValidationRules.NormaliseIdempotent | src/features/doctors/validation/rules.ts:28-32 | normalising twice equals normalising once, for every string |
| ValidationRules.NormaliseCanonical | src/features/doctors/validation/rules.ts:28-32 | two accepted numbers normalise alike iff they have the same subscriber body, whatever prefix each had |
| ValidationRules.ContactNumberParseIdempotent | src/features/doctors/validation/rules.ts:21-32 | parsing an accepted number's value gives the same value back |
| ValidationRules.LowerKeepsNoOuterSpace | src/features/doctors/validation/rules.ts:38-39 | lower-casing a trimmed string leaves it trimmed |
| ValidationRules.ParseEmail | src/features/doctors/validation/rules.ts:34-39 | accepted iff non-empty and the address check passes on the raw string; the accepted value is the lower-cased trim of the raw string, so it has no outer white space and no upper-case letter; "" is rejected with "Email is required" first, followed by the address message when the check fails; a rejected non-empty address carries only the address message |
| ValidationRules.ParseOptionalText | src/features/doctors/validation/rules.ts:41-43 | always accepted; an absent value stays absent and a given value becomes its trim |
| ValidationRules.EmptyTextStaysPresent | src/features/doctors/validation/rules.ts:41-43 | "" and " " give a present "" rather than an absent value |
| ValidationRules.ParseBoundedInt | src/features/doctors/validation/rules.ts:45-57 | accepted iff absent or within [lo, hi]; the accepted value is the input; every issue is one of the two range messages; a value below the range gets only the too-low message and one above it only the too-high message |
| ValidationRules.ParseYearsOfExperience | src/features/doctors/validation/rules.ts:45-50 | accepted iff absent or in [0, 70]; below 0 gives "Years of experience must be 0 or more", above 70 "Please enter a valid number" |
| ValidationRules.ParseAppointmentDuration | src/features/doctors/validation/rules.ts:52-57 | accepted iff absent or in [5, 180]; below 5 gives "Minimum 5 minutes", above 180 "Maximum 180 minutes" |
| ValidationRules.ParseConsultationType | src/features/doctors/validation/rules.ts:59-61 | accepted iff absent or one of "In-Person", "Telemedicine", "Both"; the type's name is the input; otherwise the single enum issue names the received value |
| ValidationRules.ConsultationTypeRoundTrip | src/features/doctors/validation/rules.ts:59-61 | each consultation type parses back from its name |
| Schemas.ParseField | src/features/doctors/validation/schemas.ts:4-9 | a present string key gives exactly the rule's result on that string; a missing key gives the single required issue; a non-string gives the single invalid-type issue |
| Schemas.Located | src/features/doctors/validation/schemas.ts:4-9 | every issue of a field is reported under that field's key, in order |
| Schemas.ParseCreateDoctor | src/features/doctors/validation/schemas.ts:4-9 | the record is accepted iff all four fields pass, and then holds the four fields' parsed values; the contact number is the 12-character "+94" form and the license id is kept as given; a rejection lists the issues of full name, license id, contact number and email in that order, each under its own key, and is never empty |
| Schemas.UndeclaredKeysIgnored | src/features/doctors/validation/schemas.ts:4-9 | adding or changing any key other than the four never changes the outcome |
| Schemas.ParsedContactNumberIsCanonical | src/features/doctors/validation/schemas.ts:7 | the parsed contact number passes its own rule unchanged |
| WorkingHoursField.DayIndex | src/features/doctors/types/index.ts:26-33 | each day has its position in the MON..SUN order |
| WorkingHoursField.FindUnused | src/features/doctors/components/working-hours-field.tsx:25-28 | no result iff every day is used; otherwise the result is an unused day and every earlier day is used |
| WorkingHoursField.NextAvailableDay | src/features/doctors/components/working-hours-field.tsx:25-28 | the first day in MON..SUN order that no row uses, or MON when all seven are used |
| WorkingHoursField.UsedDaysBound | src/features/doctors/components/working-hours-field.tsx:25-28 | rows use at most as many days as there are rows, and exactly that many when the days are distinct |
| WorkingHoursField.FreeDayExists | src/features/doctors/components/working-hours-field.tsx:25-40 | with fewer than seven rows the next available day is unused, even if rows repeat days |
| WorkingHoursField.DistinctAtMostSeven | src/features/doctors/components/working-hours-field.tsx:36 | rows with distinct days number at most seven |
| WorkingHoursField.AddRow | src/features/doctors/components/working-hours-field.tsx:35-41 | a no-op at seven rows or more; otherwise the old rows in order plus one row on the next available day, which no row uses, from 09:00 to 17:00 |
| WorkingHoursField.RemoveRow | src/features/doctors/components/working-hours-field.tsx:43-48 | drops exactly the row at the index and keeps the rest in order; an out-of-range index changes nothing |
| WorkingHoursField.ApplyPatch | src/features/doctors/components/working-hours-field.tsx:52 | each field present in the patch overwrites the row's field; the others are kept |
| WorkingHoursField.UpdateRow | src/features/doctors/components/working-hours-field.tsx:50-55 | same length; the row at the index is patched; every other row is unchanged |
| WorkingHoursField.OptionEnabledIffFree | src/features/doctors/components/working-hours-field.tsx:93 | with distinct days, the select of a row leaves a day enabled iff no other row uses it |
| WorkingHoursField.AddDayShownIffAddChanges | src/features/doctors/components/working-hours-field.tsx:145 | "Add Day" is shown iff pressing it changes the list |
| WorkingHoursField.AddRowKeepsDistinct | src/features/doctors/components/working-hours-field.tsx:35-41 | adding a row keeps the days distinct |
| WorkingHoursField.RemoveRowKeepsDistinct | src/features/doctors/components/working-hours-field.tsx:43-48 | removing a row keeps the days distinct |
| WorkingHoursField.UpdateRowKeepsDistinct | src/features/doctors/components/working-hours-field.tsx:79-96 | a day picked among the options the select leaves enabled keeps the days distinct |
| WorkingHoursField.EditorKeepsDaysDistinct | src/features/doctors/components/working-hours-field.tsx:35-96 | any sequence of edits offered by the editor keeps the days distinct and the rows at most seven |
| JsString.Trim | src/features/doctors/hooks/use-slmc-verification.ts:43 | the result has no white space at either end and is no longer than the input |
| JsString.TrimIsSlice | src/app/api/slmc/verify/route.ts:56 | the trimmed string is a slice of the input, and only white space is cut off each end |
| JsString.TrimIdempotent | src/features/doctors/hooks/use-slmc-verification.ts:43 | trimming twice equals trimming once |
| JsString.TrimEmptyIffAllSpace | src/app/api/slmc/verify/route.ts:49 | the trim is empty iff the string is all white space |
| Qualifications.ReplaceTags | src/app/api/slmc/verify/route.ts:78 | after replacing every `<...>` by ", " no tag is left, and a `>` in the result was in the input |
| Qualifications.ReplaceTagsKeepsTagFree | src/app/api/slmc/verify/route.ts:78 | text without a tag is unchanged |
| Qualifications.CollapseOnePass | src/app/api/slmc/verify/route.ts:79 | the single pass never lengthens the text and adds no `>` |
| Qualifications.OnePassKeepsNoTag | src/app/api/slmc/verify/route.ts:78-79 | the single pass does not create a tag |
| Qualifications.OnePassKeepsClean | src/app/api/slmc/verify/route.ts:79 | text without an empty item passes the single pass unchanged |
| Qualifications.OnePassThenCollapse | src/app/api/slmc/verify/route.ts:79 | collapsing fully after the single pass gives what collapsing fully gives alone |
| Qualifications.CollapseEmptyItems | src/app/api/slmc/verify/route.ts:79 | the collapse to a fixed point never lengthens the text and adds no `>` |
| Qualifications.CollapseLeavesNoEmptyItem | src/app/api/slmc/verify/route.ts:79 | collapsing to a fixed point leaves no `,\s*,` |
| Qualifications.CollapseKeepsClean | src/app/api/slmc/verify/route.ts:79 | text without an empty item is unchanged |
| Qualifications.CollapseKeepsNoTag | src/app/api/slmc/verify/route.ts:78-79 | collapsing does not create a tag |
| Qualifications.DropLeadingSeparators | src/app/api/slmc/verify/route.ts:80 | the result is a suffix of the input, everything cut from the front is a comma or white space, and the result does not start with one |
| Qualifications.DropTrailingSeparators | src/app/api/slmc/verify/route.ts:80 | the result is a prefix of the input, everything cut from the back is a comma or white space, and the result does not end with one |
| Qualifications.TrimSeparators | src/app/api/slmc/verify/route.ts:80 | the result is a slice of the input with only commas and white space outside it, and it neither starts nor ends with one |
| Qualifications.TrimSeparatorsUnique | src/app/api/slmc/verify/route.ts:80 | any slice that cuts only commas and white space from the ends and neither starts nor ends with one is the trimmed text: nothing between the ends is lost |
| Qualifications.TrimSeparatorsKeepsNoTag | src/app/api/slmc/verify/route.ts:80 | cutting the ends keeps the text free of tags |
| Qualifications.TrimSeparatorsKeeps | src/app/api/slmc/verify/route.ts:80 | cutting the ends keeps the text free of tags and empty items |
| Qualifications.SanitizeQualifications | src/app/api/slmc/verify/route.ts:77-80 | the result is the fully collapsed, tag-replaced text with only the outer runs of commas and white space cut; it has no tag, no empty item, and no comma or white space at either end |
| Qualifications.SanitizeAsWritten | src/app/api/slmc/verify/route.ts:77-80 | the chain as written gives the single-pass, tag-replaced text with only the outer runs of commas and white space cut; it has no tag and no comma or white space at either end |
| Qualifications.TrailingLineBreakDropped | src/app/api/slmc/verify/route.ts:77-80 | plain text followed by one `<br>` comes back as the plain text alone, in both chains |
| Qualifications.AsWrittenAgreesWhenOnePassSuffices | src/app/api/slmc/verify/route.ts:77-80 | when the single pass leaves no empty item, the chain as written and the corrected chain give the same text |
| Qualifications.SanitizeIdempotent | src/app/api/slmc/verify/route.ts:77-80 | sanitising twice equals sanitising once |
| Qualifications.AsWrittenLeavesEmptyItem | src/app/api/slmc/verify/route.ts:78-80 | for plain items a and b joined by three tags, the single pass leaves "a, , b", which has an empty item; collapsing to a fixed point gives "a, b" |
| Qualifications.MbbsMdExample | src/app/api/slmc/verify/route.ts:78-80 | "MBBS<br><br><br>MD" becomes "MBBS, , MD" as written and "MBBS, MD" when collapsed fully |
| SlmcVerifyRoute.Gather | src/app/api/slmc/verify/route.ts:59-63 | the rows of the first category come first; no rows iff every category gave none |
| SlmcVerifyRoute.GatherAppend | src/app/api/slmc/verify/route.ts:59-63 | gathering distributes over concatenation of the category list, so each category's rows follow those of the categories before it |
| SlmcVerifyRoute.GatherSingle | src/app/api/slmc/verify/route.ts:59-63 | one category contributes exactly its own rows |
| SlmcVerifyRoute.GatherDependsOnlyOnNumber | src/app/api/slmc/verify/route.ts:59-63 | the concatenated rows depend on the registry only at the number asked |
| SlmcVerifyRoute.FindFrom | src/app/api/slmc/verify/route.ts:64 | a match or a null is found at the first element that is not a passing record; no result iff every element is a passing record |
| SlmcVerifyRoute.FindExactStopsAtFirst | src/app/api/slmc/verify/route.ts:64 | the search stops at the first element that is not a passing record |
| SlmcVerifyRoute.FullName | src/app/api/slmc/verify/route.ts:74-76 | the other names and the last name, joined by one space only when both are non-empty; empty iff both are empty |
| SlmcVerifyRoute.Practitioner | src/app/api/slmc/verify/route.ts:66-82 | the number, registration date, last name and other names are copied; the full name joins the other names and the last name; the qualifications are present iff the entry has them, and are then the tag-replaced, fully collapsed text with only the outer commas and white space cut, free of tags and empty items |
| SlmcVerifyRoute.Handle | src/app/api/slmc/verify/route.ts:42-106 | the status is one of 200, 400, 401 and 502; 401 iff no session; with a session, 400 iff the number is missing or blank; the bodies of 400, 401 and 502; a verified body's number trims to the asked number; a 200 failure is "no registration" or "multiple" |
| SlmcVerifyRoute.LookupSeesTrimmedNumber | src/app/api/slmc/verify/route.ts:56 | white space around the parameter changes nothing |
| SlmcVerifyRoute.RegistryAskedOnlyForTrimmedNumber | src/app/api/slmc/verify/route.ts:56-61 | registries that agree on the six categories at the trimmed number give the same answer |
| SlmcVerifyRoute.SessionCheckedFirst | src/app/api/slmc/verify/route.ts:43-46 | without a session the answer is the same 401 whatever the request or the registry |
| SlmcVerifyRoute.SearchOutcomes | src/app/api/slmc/verify/route.ts:64 | the search finds a match iff one is reached before any null, and a null iff one is reached before any match |
| SlmcVerifyRoute.Outcomes | src/app/api/slmc/verify/route.ts:63-104 | verified iff a match is reached; 502 iff a null is reached first; "no registration" iff no rows came back; "multiple" iff rows came back and none matches |
| SlmcVerifyRoute.FirstExactMatchWins | src/app/api/slmc/verify/route.ts:63-66 | with several exact matches, the first in category order is the answer |
| SlmcVerificationHook.Shown | src/features/doctors/hooks/use-slmc-verification.ts:64-77 | valid iff the body is verified, and then the practitioner shows with no error; otherwise invalid with no practitioner; the error is the body's text for an unverified body, exactly "Unable to verify SLMC registration. Please try again." for a failed request, and none for a 401 body |
| SlmcVerificationHook.SlmcVerification.constructor | src/features/doctors/hooks/use-slmc-verification.ts:25-31 | starts idle with nothing shown, nothing verified, no timer and no request |
| SlmcVerificationHook.SlmcVerification.Reset | src/features/doctors/hooks/use-slmc-verification.ts:33-40 | aborts the current request, cancels the timer, goes idle with nothing shown and forgets the last verified number |
| SlmcVerificationHook.SlmcVerification.Verify | src/features/doctors/hooks/use-slmc-verification.ts:42-53 | nothing changes for a blank number or the last verified one; otherwise a request for the trimmed number is sent, it becomes the last verified number, and the status is loading with nothing shown |
| SlmcVerificationHook.SlmcVerification.SetInputValue | src/features/doctors/hooks/use-slmc-verification.ts:80-107 | records the value; a blank value resets; the last verified number keeps the result and leaves no timer; any other value clears the result and arms one timer for the trimmed value; no request is sent |
| SlmcVerificationHook.SlmcVerification.TimerFires | src/features/doctors/hooks/use-slmc-verification.ts:102-104 | a pending timer sends its value, becomes the last verified number and goes loading with nothing shown; with no timer nothing changes; the input and mounted flag are kept and no timer is left |
| SlmcVerificationHook.SlmcVerification.Settle | src/features/doctors/hooks/use-slmc-verification.ts:55-77 | only the newest request, not aborted, changes what is shown, and then to what its outcome shows; nothing else changes |
| SlmcVerificationHook.SlmcVerification.Dispose | src/features/doctors/hooks/use-slmc-verification.ts:109-114 | aborts the current request and cancels the timer; the shown result is kept |
| SlmcVerificationHook.TypingSendsOneLookup | src/features/doctors/hooks/use-slmc-verification.ts:80-104 | three keystrokes before the timer fires send one lookup, for the last trimmed value |
| SlmcVerificationHook.AnswerAfterEditStillApplies | src/features/doctors/hooks/use-slmc-verification.ts:93-104 | an answer arriving after the number was edited, with the new timer still pending, is still shown |
| SlmcVerificationHook.RetypedNumberStaysCleared | src/features/doctors/hooks/use-slmc-verification.ts:93-100 | editing a verified number and typing it back leaves the result cleared and sends nothing more |
| SlmcVerificationField.HandleChange | src/features/doctors/components/slmc-verification-field.tsx:31-39 | an edit always forwards the value first, and calls the reset iff the status is not idle |
| SlmcVerificationField.DisplayError | src/features/doctors/components/slmc-verification-field.tsx:41-42 | a present form error wins, even ""; otherwise the verification error when invalid; otherwise none |
| SlmcVerificationField.StatusIcon | src/features/doctors/components/slmc-verification-field.tsx:44-52 | no icon iff idle; a spinner, a check or a cross iff loading, valid or invalid |
| SlmcVerificationField.StatusIconInjective | src/features/doctors/components/slmc-verification-field.tsx:44-52 | different statuses show different icons |
| SlmcVerificationField.AriaDescribedBy | src/features/doctors/components/slmc-verification-field.tsx:82-88 | "slmc-error" iff an error shows; "slmc-verified" iff none shows and the status is valid; otherwise "slmc-helper" |
| SlmcVerificationField.RenderedIds | src/features/doctors/components/slmc-verification-field.tsx:117-151 | the error, the verified panel and the helper are rendered exactly under their own conditions |
| SlmcVerificationField.DescribedByResolves | src/features/doctors/components/slmc-verification-field.tsx:82-151 | the described-by id names a rendered element iff an error shows, the status is valid with a practitioner, or the status is idle |
| SlmcVerificationField.InputAttributesAgree | src/features/doctors/components/slmc-verification-field.tsx:80-88 | disabled iff the spinner and the loading line show; aria-invalid iff the error paragraph is rendered and named |
| SlmcVerificationField.MessagesExclusive | src/features/doctors/components/slmc-verification-field.tsx:117-151 | the helper never shows with an error, the panel or the loading line; an error shows beside the panel only as a form error |
| SlmcVerificationField.EmptyFormErrorHidesVerificationError | src/features/doctors/components/slmc-verification-field.tsx:41-42 | a form error of "" hides the verification error yet shows nothing and does not mark the input invalid |
| SlmcVerificationField.BorderTone | src/features/doctors/components/slmc-verification-field.tsx:95-99 | the success border iff valid; the error border iff not valid and an error shows |
| SlmcVerificationField.PanelLines | src/features/doctors/components/slmc-verification-field.tsx:131-141 | the panel shows "Verified: " and the full name, then "Reg #" and the number followed by " · Registered " and the date iff the date is non-empty, plus the qualifications iff present and non-empty |
| DoctorTable.VerifiedDoctors | src/features/doctors/components/doctor-table.tsx:136-138 | exactly the verified doctors; all of them iff every doctor is verified; none iff no doctor is |
| DoctorTable.VerifiedDoctorsAppend | src/features/doctors/components/doctor-table.tsx:136-138 | the filter keeps the original order: it distributes over concatenation |
| DoctorTable.FilteredDoctors | src/features/doctors/components/doctor-table.tsx:135-140 | "all" passes the list through; "verified" gives the verified doctors |
| DoctorTable.CountVerifiedAppend | src/features/doctors/components/doctor-table.tsx:154 | counting verified doctors distributes over concatenation |
| DoctorTable.VerifiedLengthIsCount | src/features/doctors/components/doctor-table.tsx:154 | the verified list is as long as the number of verified doctors |
| DoctorTable.VerifiedCount | src/features/doctors/components/doctor-table.tsx:154 | the "Verified" count is the number of verified doctors, and the number of rows the verified view shows |
| DoctorTable.CountsAgree | src/features/doctors/components/doctor-table.tsx:175-185 | the "All" count is the number of rows of the full view; the "Verified" count is at most it, and equal iff every doctor is verified |
| DoctorTable.VerifyActionOnlyForUnverified | src/features/doctors/components/doctor-table.tsx:117 | no verified row offers the Verify action; in the full view exactly the unverified doctors offer it |
| DoctorTable.EmptyMessage | src/features/doctors/components/doctor-table.tsx:234-236 | "No verified doctors found." iff the verified view; "No doctors found." otherwise |
| UserMenu.FirstChars | src/components/layout/user-menu.tsx:18-19 | at most one character per part |
| UserMenu.TakeTwo | src/components/layout/user-menu.tsx:21 | the first two characters, or the whole string when shorter |
| UserMenu.Initials | src/components/layout/user-menu.tsx:15-22 | at most two characters; "AD" for an absent or empty name |
| UserMenu.FirstCharsOfSplit | src/components/layout/user-menu.tsx:17-19 | the first characters of the space-separated parts are exactly the word starts, in order |
| UserMenu.InitialsAreWordStarts | src/components/layout/user-menu.tsx:15-22 | the initials of a non-empty name are its first two word starts, upper-cased |
| UserMenu.SpacesOnlyGiveNoInitials | src/components/layout/user-menu.tsx:15-22 | a non-empty name of spaces only gives "", not "AD" |
| Constants.GetErrorMessage | src/lib/constants.ts:11-15 | never empty; a known code gives its message; any other code gives the generic text |
| Constants.FallbackOnlyForUnknownCodes | src/lib/constants.ts:1-15 | the generic text is given iff the code is not in the table |
| Constants.MessagesIdentifyCode | src/lib/constants.ts:1-9 | different known codes give different messages |
| Constants.SevenKnownCodes | src/lib/constants.ts:1-9 | the table holds exactly the seven listed codes |
| Constants.LowerCaseCodeIsUnknown | src/lib/constants.ts:13 | the lookup is case-sensitive: "unauthorized" gets the generic text |
| StatusBadge.StatusVariant | src/components/shared/status-badge.tsx:5-20 | success iff "active" or "approved"; warning iff "pending"; error iff "suspended" or "rejected"; default for everything else |
| StatusBadge.UnknownLooksInactive | src/components/shared/status-badge.tsx:20 | an unknown status looks like "inactive"; "Active" is unknown |
| FormField.Hyphenate | src/components/ui/form-field.tsx:16 | the result has no white space, is no longer than the input, and is empty iff the input is |
| FormField.HyphenatePlainPrefix | src/components/ui/form-field.tsx:16 | text before the first white space is copied through |
| FormField.HyphenateLeadingRun | src/components/ui/form-field.tsx:16 | a leading run of white space becomes one hyphen |
| FormField.HyphenateRun | src/components/ui/form-field.tsx:16 | a word, a run of white space, and a rest not starting with white space give the word, one hyphen and the rest hyphenated |
| FormField.HyphenateKeepsSpaceFree | src/components/ui/form-field.tsx:16 | text without white space is unchanged |
| FormField.HyphenateIdempotent | src/components/ui/form-field.tsx:16 | hyphenating twice equals hyphenating once |
| FormField.InputId | src/components/ui/form-field.tsx:16 | a given id is used as it is, even ""; otherwise the id has no white space and is empty iff the label is |
| FormField.SpaceFreeLabelId | src/components/ui/form-field.tsx:16 | a label without white space gives its lower-case form |
| FormField.TwoWordLabelId | src/components/ui/form-field.tsx:16 | two words separated by white space give the lower-case words joined by one hyphen |
| FormField.FullNameLabelId | src/components/ui/form-field.tsx:16 | the label "Full Name" gives the id "full-name" |
| FormField.AriaDescribedBy | src/components/ui/form-field.tsx:47-53 | "<id>-error" iff there is an error; unset iff there is neither an error nor helper text |
| FormField.RenderedIds | src/components/ui/form-field.tsx:57-74 | the error paragraph iff there is an error; the helper paragraph iff there is helper text and no error; never both |
| FormField.DescribedByResolves | src/components/ui/form-field.tsx:46-74 | aria-describedby always names the one paragraph rendered and is unset iff none is; aria-invalid iff the error shows |
| FormField.EmptyErrorShowsHelper | src/components/ui/form-field.tsx:46-74 | an error of "" counts as none: the helper shows and the input is not invalid |

## Left out

- Authentication, the real `fetch` calls, the 10-second request timeout and the
  concurrency of the six category requests are out. The session is a boolean.
  The registry is a function from (category, number) to what one request
  returned.
- The hook's clock is out. The 800 ms delay is a constant only; the timer firing
  and a request coming back are method calls. React's render cycle is out, so the
  `status` read inside `setInputValue` is always the current one. A callback
  created in an earlier render could read an older one.
- The wiring between the registration field and the hook is not part of this
  model. That page is not shown, so each is modelled on its own.
- The form field's `{...props}` spread can override `aria-invalid` and
  `aria-describedby`. The model assumes it does not.
- ValidationRules.ParseEmail: zod's address syntax check is a parameter
  (`isEmail`), not a definition of e-mail syntax.
- ValidationRules.ParseBoundedInt: `z.coerce.number().int()` is modelled over
  integers only. String coercion, fractions, NaN and the non-integer message are
  out.
- Case mapping is ASCII only, in e-mail lower-casing, initials and the form-field
  id.
- Strings are sequences of code points. UTF-16 matters in two places:
  - the full-name length bounds, which are counted through `Utf16Length`;
  - `n[0]` in the initials, which would take half of a surrogate pair.
- UserMenu.Initials: the model takes a character outside the Basic Multilingual
  Plane whole.
- The lookups in `ERROR_MESSAGES` and `statusVariantMap` are modelled over data
  keys only. Inherited object keys such as "toString" are out.
- `String(p.reg_no)` is modelled for string numbers only. A numeric `reg_no` in a
  registry row is out.
- Registry fields are taken to be strings or absent. A `qualifications` that is present
  but not a string would make
  `.replace` throw, which the catch turns into the 502; a missing `other_names` or
  `last_name` would be dropped by the name join. Neither case is modelled.
- A JSON array element that is not an object is out. Only `null` elements, which
  make `find` throw and give the 502, are modelled.
- Searching, sorting and paging of the doctor table belong to the table library
  and are out.
- The status badge's text is the status string itself. It has no member of its
  own.
- Dispose leaves the shown result as it was. Nothing reads it after unmounting.
- SlmcVerifyRoute.Practitioner: the qualifications are cleaned up by the corrected
  chain (`SanitizeQualifications`), not by the single pass of
  src/app/api/slmc/verify/route.ts:79. The two
  agree whenever the single pass leaves no empty item
  (`AsWrittenAgreesWhenOnePassSuffices`); otherwise the route as written serves an
  empty item, as the finding below shows.

## Findings

| source | as written | input that shows it | evidently intended | confidence | as-written member | corrected member |
|---|---|---|---|---|---|---|
| src/app/api/slmc/verify/route.ts:79 | a single left-to-right pass of `/,\s*,/g` consumes the second comma of each match, so three tags in a row leave one empty item | qualifications "MBBS<br><br><br>MD" give "MBBS, , MD" | "MBBS, MD": no empty item in the list | not executed | Qualifications.AsWrittenLeavesEmptyItem | Qualifications.SanitizeQualifications |

The endpoint model uses the corrected clean-up, which collapses empty items until
none is left. `Qualifications.SanitizeAsWritten` is the chain as written.

Two behaviours of the hook follow from the code and may surprise a reader. They
are shown by scenario methods and are not claimed as defects:

- An edit does not abort the request in flight, so its answer is still shown
  after the edit (`AnswerAfterEditStillApplies`).
- The last verified number is recorded when the lookup starts. Editing a
  verified number and typing it back leaves the result cleared, and no new
  lookup is sent (`RetypedNumberStaysCleared`).
