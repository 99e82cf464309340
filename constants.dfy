/** The user-facing text for an API error code (src/lib/constants.ts). */
module Constants {
  const ErrorMessages: map<string, string> := map[
    "UNAUTHORIZED" := "Your session has expired. Please sign in again.",
    "FORBIDDEN" := "You don't have permission to perform this action.",
    "NOT_FOUND" := "The requested resource was not found.",
    "CONFLICT" := "This record already exists.",
    "VALIDATION_ERROR" := "Please check the form and fix the errors.",
    "RATE_LIMITED" := "Too many requests. Please wait and try again.",
    "SERVER_ERROR" := "Something went wrong on our end. Please try again later."
  ]

  /** The text for any code the table does not know. */
  const UnexpectedError: string := "An unexpected error occurred. Please try again."

  /** The known code's text, else the generic one. Codes are matched exactly. */
  function GetErrorMessage(code: string): (r: string)
    ensures r != []
    ensures code in ErrorMessages ==> r == ErrorMessages[code]
    ensures code !in ErrorMessages ==> r == UnexpectedError
  {
    if code in ErrorMessages then ErrorMessages[code] else UnexpectedError
  }

  /** The generic text is given exactly for the codes outside the table: no known
      code is mapped to it. */
  lemma FallbackOnlyForUnknownCodes(code: string)
    ensures GetErrorMessage(code) == UnexpectedError <==> code !in ErrorMessages
  {
  }

  /** Different known codes give different texts, so the text identifies the code. */
  lemma MessagesIdentifyCode(a: string, b: string)
    requires a in ErrorMessages && b in ErrorMessages
    requires GetErrorMessage(a) == GetErrorMessage(b)
    ensures a == b
  {
  }

  /** The table holds exactly seven codes. */
  lemma SevenKnownCodes()
    ensures ErrorMessages.Keys ==
      {"UNAUTHORIZED", "FORBIDDEN", "NOT_FOUND", "CONFLICT", "VALIDATION_ERROR", "RATE_LIMITED", "SERVER_ERROR"}
    ensures |ErrorMessages| == 7
  {
  }

  /** The lookup is case-sensitive: a lower-case code gets the generic text. */
  lemma LowerCaseCodeIsUnknown()
    ensures GetErrorMessage("unauthorized") == UnexpectedError
  {
  }
}
