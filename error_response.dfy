/** `UserErrorResponse`: the body of every error response, and the rendering
    of request-validation errors into one message. */
module ErrorResponses {
  import opened Text
  import opened Http
  import opened Clock

  /** One entry of Spring's `BindingResult.getFieldErrors()`. */
  datatype FieldError = FieldError(field: string, defaultMessage: string)

  datatype UserErrorResponse = UserErrorResponse(message: string, timestamp: Timestamp, status: HttpStatus)

  /** The constructor: the message and status as given, stamped with the current time. */
  function NewUserErrorResponse(message: string, status: HttpStatus, now: Timestamp): (r: UserErrorResponse)
    ensures r.message == message && r.status == status && r.timestamp == now
  {
    UserErrorResponse(message, now, status)
  }

  /** How one field error is shown: the field name, a dash, the message. */
  function Render(e: FieldError): string {
    e.field + " - " + e.defaultMessage
  }

  function RenderAll(errors: seq<FieldError>): (parts: seq<string>)
    ensures |parts| == |errors|
    ensures forall i :: 0 <= i < |errors| ==> parts[i] == Render(errors[i])
  {
    seq(|errors|, i requires 0 <= i < |errors| => Render(errors[i]))
  }

  /** `getErrorMessage`: every field error rendered, in order, joined by `Separator`. */
  function GetErrorMessage(errors: seq<FieldError>): (r: string)
    ensures |errors| == 0 ==> r == ""
    ensures |errors| == 1 ==> r == errors[0].field + " - " + errors[0].defaultMessage
  {
    Join(RenderAll(errors), Separator)
  }

  /** No rendered field error contains the separator itself. */
  /** A field error whose field and message hold no `;` renders without a separator. */
  lemma RenderSeparatorFree(e: FieldError)
    requires ';' !in e.field && ';' !in e.defaultMessage
    ensures !ContainsSeparator(Render(e))
  {
    assert ';' !in Render(e);
    NoSemicolonNoSeparator(Render(e));
  }

  predicate SeparatorFree(errors: seq<FieldError>) {
    forall i :: 0 <= i < |errors| ==> !ContainsSeparator(Render(errors[i]))
  }

  /** The message can be cut back into the rendered errors, in the order given. */
  lemma ErrorMessageSplitsIntoErrors(errors: seq<FieldError>)
    requires 1 <= |errors| && SeparatorFree(errors)
    ensures |Split(GetErrorMessage(errors))| == |errors|
    ensures forall i :: 0 <= i < |errors| ==> Split(GetErrorMessage(errors))[i] == Render(errors[i])
  {
    SplitJoin(RenderAll(errors));
  }

  /** n >= 1 field errors give a message with exactly n - 1 separators. */
  lemma ErrorMessageSeparatorCount(errors: seq<FieldError>)
    requires 1 <= |errors| && SeparatorFree(errors)
    ensures CountSeparators(GetErrorMessage(errors)) == |errors| - 1
  {
    JoinSeparatorCount(RenderAll(errors));
  }
}
