/** The second backend's `GlobalExceptionHandler`: each kind of exception a
    request can raise becomes an HTTP status and an `ErrorResponse` with a
    code, a message and a list of (field, issue) details. */
module ExceptionHandler {
  import opened Common

  datatype ErrorCode = ValidationError | NotFound | Conflict | InternalError

  /** A (field, issue) detail: the source's `ValidationError` record. */
  datatype Detail = Detail(field: string, issue: string)

  datatype ErrorResponse = ErrorResponse(status: nat, code: ErrorCode, message: string, details: seq<Detail>)

  /** The exceptions the handler knows, with the parts of them it reads. */
  datatype Raised =
    | FieldErrors(errors: seq<Detail>)
    | JsonMapping(jsonMessage: Option<string>)
    | PetNotFound
    | ActiveWalkExists(message: string)
    | WalkNotFound
    | WalkFinished(message: string)
    | ConstraintViolation
    | TypeMismatch(name: string)
    | MissingParameter(name: string)
    | Pagination(message: string)
    | Other

  /** The status every response with a given code carries. */
  function StatusOf(code: ErrorCode): nat
  {
    match code
    case ValidationError => 400
    case NotFound => 404
    case Conflict => 409
    case InternalError => 500
  }

  /** `String.contains` */
  predicate Contains(s: string, sub: string)
    decreases |s|
  {
    if |sub| > |s| then false
    else s[..|sub|] == sub || (s != [] && Contains(s[1..], sub))
  }

  lemma {:induction false} ContainsAt(s: string, sub: string, i: nat)
    requires i + |sub| <= |s| && s[i..i + |sub|] == sub
    ensures Contains(s, sub)
    decreases i
  {
    if i > 0 {
      assert s[1..][i - 1..i - 1 + |sub|] == sub;
      ContainsAt(s[1..], sub, i - 1);
    }
  }

  /** A string never contains a text whose first character it lacks. */
  lemma {:induction false} NotContainsFirstCharAbsent(s: string, sub: string)
    requires sub != [] && sub[0] !in s
    ensures !Contains(s, sub)
    decreases |s|
  {
    if |sub| <= |s| {
      assert s[..|sub|][0] == s[0];
      if s != [] {
        NotContainsFirstCharAbsent(s[1..], sub);
      }
    }
  }

  const PageHint: string := "Page must be"
  const SizeHint: string := "Size must be"

  /** The detail of a pagination error, chosen by the words of its message. */
  function PaginationDetail(message: string): (d: Detail)
    ensures Contains(message, PageHint) ==> d == Detail("page", "must be >= 0")
    ensures !Contains(message, PageHint) && Contains(message, SizeHint) ==> d == Detail("size", "must be between 1 and 100")
    ensures !Contains(message, PageHint) && !Contains(message, SizeHint) ==> d == Detail("pagination", "invalid parameters")
  {
    if Contains(message, PageHint) then Detail("page", "must be >= 0")
    else if Contains(message, SizeHint) then Detail("size", "must be between 1 and 100")
    else Detail("pagination", "invalid parameters")
  }

  /** A pagination message that names only the size gives the size detail. */
  lemma SizeDetail(message: string)
    requires !Contains(message, PageHint) && Contains(message, SizeHint)
    ensures Handle(Pagination(message)).details == [Detail("size", "must be between 1 and 100")]
  {
  }

  function Respond(code: ErrorCode, message: string, details: seq<Detail>): (r: ErrorResponse)
    ensures r.status == StatusOf(code) && r.code == code && r.message == message && r.details == details
  {
    ErrorResponse(StatusOf(code), code, message, details)
  }

  /** The handler chosen for the exception, and the response it builds. */
  function Handle(e: Raised): (r: ErrorResponse)
    ensures r.status == StatusOf(r.code)
    ensures r.code == NotFound <==> e.PetNotFound? || e.WalkNotFound?
    ensures r.code == Conflict <==> e.ActiveWalkExists? || e.WalkFinished?
    ensures r.code == InternalError <==> e.Other?
    ensures r.details == [] <==>
      (e.ActiveWalkExists? || e.WalkFinished? || e.ConstraintViolation? || e.Other? || (e.FieldErrors? && e.errors == []))
    ensures r.code == Conflict ==> r.message == e.message
    ensures e.FieldErrors? ==> r.details == e.errors
    ensures !e.FieldErrors? ==> |r.details| <= 1
    ensures e.FieldErrors? || e.JsonMapping? ==> r.message == "One or more validation errors occurred."
    ensures e.JsonMapping? ==> r.details == [Detail("species", "Invalid species value. Must be either CACHORRO or GATO")]
    ensures e.PetNotFound? ==> r.message == "pet not found" && r.details == [Detail("petId", "unknown")]
    ensures e.WalkNotFound? ==> r.message == "walk not found" && r.details == [Detail("id", "unknown")]
    ensures e.ConstraintViolation? ==> r.code == ValidationError && r.message == "Payload must have 1..5000 points."
    ensures e.TypeMismatch? ==> r.message == "Invalid query parameter." && r.details == [Detail(e.name, "required numeric id")]
    ensures e.MissingParameter? ==> r.message == "Missing required parameter." && r.details == [Detail(e.name, "required")]
    ensures e.Pagination? ==> r.message == "Invalid pagination parameters." && r.details == [PaginationDetail(e.message)]
    ensures e.Other? ==> r.message == "An unexpected error occurred."
  {
    match e
    case FieldErrors(errors) => Respond(ValidationError, "One or more validation errors occurred.", errors)
    case JsonMapping(_) =>
      Respond(ValidationError, "One or more validation errors occurred.",
              [Detail("species", "Invalid species value. Must be either CACHORRO or GATO")])
    case PetNotFound => Respond(NotFound, "pet not found", [Detail("petId", "unknown")])
    case ActiveWalkExists(message) => Respond(Conflict, message, [])
    case WalkNotFound => Respond(NotFound, "walk not found", [Detail("id", "unknown")])
    case WalkFinished(message) => Respond(Conflict, message, [])
    case ConstraintViolation => Respond(ValidationError, "Payload must have 1..5000 points.", [])
    case TypeMismatch(name) => Respond(ValidationError, "Invalid query parameter.", [Detail(name, "required numeric id")])
    case MissingParameter(name) => Respond(ValidationError, "Missing required parameter.", [Detail(name, "required")])
    case Pagination(message) => Respond(ValidationError, "Invalid pagination parameters.", [PaginationDetail(message)])
    case Other => Respond(InternalError, "An unexpected error occurred.", [])
  }
}
