/** The failures the service raises and their translation into an HTTP status and message. */
module Exceptions {

  /** One rejected request field with its constraint's default message. */
  datatype FieldError = FieldError(field: string, defaultMessage: string)

  /** The kinds of exception the global handler distinguishes. */
  datatype Error =
    | ArgumentNotValid(fieldErrors: seq<FieldError>) // request validation failed
    | BusinessRule(message: string)                  // a business rule was broken
    | NotFound(message: string)                      // a looked-up user does not exist
    | Internal(message: string)                      // any other exception

  /** The error document (`mensaje`) with the status it is sent under. */
  datatype ErrorResponse = ErrorResponse(status: int, mensaje: string)

  const BAD_REQUEST: int := 400
  const NOT_FOUND: int := 404
  const CONFLICT: int := 409
  const INTERNAL_SERVER_ERROR: int := 500

  const INTERNAL_MESSAGE: string := "Error interno del servidor"
  const FIELD_SEPARATOR: string := ", "

  /**
   * The parts in order with `sep` between neighbours, as a joining collector builds them: nothing for
   * no parts, the part itself for one, and otherwise the first part, then `sep`, then the rest joined.
   */
  function Join(parts: seq<string>, sep: string): (s: string)
    ensures |parts| == 0 ==> s == ""
    ensures |parts| == 1 ==> s == parts[0]
    ensures |parts| >= 2 ==> parts[0] + sep <= s
  {
    if |parts| == 0 then ""
    else if |parts| == 1 then parts[0]
    else parts[0] + sep + Join(parts[1..], sep)
  }

  /** Joining two non-empty lists is joining their joins. */
  lemma {:induction false} JoinAppend(a: seq<string>, b: seq<string>, sep: string)
    requires a != [] && b != []
    ensures Join(a + b, sep) == Join(a, sep) + sep + Join(b, sep)
  {
    var ab := a + b;
    assert ab[0] == a[0];
    if |a| == 1 {
      assert ab[1..] == b;
    } else {
      assert ab[1..] == a[1..] + b;
      JoinAppend(a[1..], b, sep);
      var rest, tail := Join(a[1..], sep), Join(b, sep);
      assert Join(ab, sep) == a[0] + sep + (rest + sep + tail);
      assert Join(a, sep) == a[0] + sep + rest;
    }
  }

  /** A field error as "field: message". */
  function RenderFieldError(e: FieldError): (s: string)
    ensures |s| == |e.field| + 2 + |e.defaultMessage|
    ensures s[..|e.field|] == e.field && s[|e.field|..|e.field| + 2] == ": "
    ensures s[|e.field| + 2..] == e.defaultMessage
  {
    e.field + ": " + e.defaultMessage
  }

  /** Every field error rendered, in the original order. */
  function RenderFieldErrors(errors: seq<FieldError>): (parts: seq<string>)
    ensures |parts| == |errors|
    ensures forall i | 0 <= i < |errors| :: parts[i] == RenderFieldError(errors[i])
  {
    if errors == [] then [] else [RenderFieldError(errors[0])] + RenderFieldErrors(errors[1..])
  }

  /**
   * The validation message: the rendered field errors joined by ", ". It is empty without errors,
   * one error's rendering alone, and otherwise starts with the first error's rendering and ", ".
   */
  function ValidationMessage(errors: seq<FieldError>): (m: string)
    ensures errors == [] ==> m == ""
    ensures |errors| == 1 ==> m == RenderFieldError(errors[0])
    ensures |errors| >= 2 ==> RenderFieldError(errors[0]) + ", " <= m
  {
    Join(RenderFieldErrors(errors), FIELD_SEPARATOR)
  }

  /** Each further field error is appended after ", ", so the message keeps the errors' order. */
  lemma ValidationMessageSnoc(errors: seq<FieldError>, e: FieldError)
    requires errors != []
    ensures ValidationMessage(errors + [e]) == ValidationMessage(errors) + ", " + RenderFieldError(e)
  {
    var parts := RenderFieldErrors(errors + [e]);
    assert parts == RenderFieldErrors(errors) + [RenderFieldError(e)];
    JoinAppend(RenderFieldErrors(errors), [RenderFieldError(e)], FIELD_SEPARATOR);
  }

  /** The global handler: one response per exception kind. */
  function Handle(e: Error): (r: ErrorResponse)
    ensures e.ArgumentNotValid? ==> r.status == BAD_REQUEST && r.mensaje == ValidationMessage(e.fieldErrors)
    ensures e.BusinessRule? ==> r.status == CONFLICT && r.mensaje == e.message
    ensures e.NotFound? ==> r.status == NOT_FOUND && r.mensaje == e.message
    ensures e.Internal? ==> r.status == INTERNAL_SERVER_ERROR && r.mensaje == INTERNAL_MESSAGE
  {
    match e
    case ArgumentNotValid(errors) => ErrorResponse(BAD_REQUEST, ValidationMessage(errors))
    case BusinessRule(message) => ErrorResponse(CONFLICT, message)
    case NotFound(message) => ErrorResponse(NOT_FOUND, message)
    case Internal(_) => ErrorResponse(INTERNAL_SERVER_ERROR, INTERNAL_MESSAGE)
  }

  /** The status alone tells which kind of exception was handled, and it is one of the four. */
  lemma StatusIdentifiesKind(e: Error)
    ensures Handle(e).status in {BAD_REQUEST, NOT_FOUND, CONFLICT, INTERNAL_SERVER_ERROR}
    ensures Handle(e).status == BAD_REQUEST <==> e.ArgumentNotValid?
    ensures Handle(e).status == CONFLICT <==> e.BusinessRule?
    ensures Handle(e).status == NOT_FOUND <==> e.NotFound?
    ensures Handle(e).status == INTERNAL_SERVER_ERROR <==> e.Internal?
  {
  }

  /** An unexpected exception's own text never reaches the client. */
  lemma InternalMessageHidden(m1: string, m2: string)
    ensures Handle(Internal(m1)) == Handle(Internal(m2))
  {
  }
}
