/**
 * What a route handler receives and returns: the parsed JSON body of the
 * request, and a status code with a JSON value, a JSON error object
 * `{ error, details? }` or a plain-text body.
 */
module Http {
  import opened Options
  import opened JsValue
  import opened JsString
  import opened Db

  /** `await request.json()`: a JSON object, or the `SyntaxError` thrown
      for a body that is not JSON. */
  datatype Request = Malformed(message: string) | Body(fields: map<string, Value>)

  /** `json.f`: a property the object lacks reads as `undefined`. */
  function Field(fields: map<string, Value>, f: string): (v: Value)
    ensures f !in fields ==> v == Undefined
  {
    if f in fields then fields[f] else Undefined
  }

  datatype Payload<+T> = Json(value: T) | ErrorJson(error: string, details: Option<string>) | Text(text: string)

  datatype Response<+T> = Response(status: int, payload: Payload<T>)

  /** `NextResponse.json(value)` */
  function Success<T>(value: T): Response<T> {
    Response(200, Json(value))
  }

  /** `NextResponse.json({ error }, { status })` */
  function Fail<T>(status: int, error: string): Response<T> {
    Response(status, ErrorJson(error, None))
  }

  /** `new NextResponse(text, { status })` */
  function PlainText<T>(status: int, text: string): Response<T> {
    Response(status, Text(text))
  }

  /** A handler's result together with the store it leaves behind. */
  datatype Outcome<+T> = Outcome(response: Response<T>, after: Tables)

  /** The `catch` block of the illam and gothram create handlers: a unique
      violation is a conflict, anything else an internal error that passes
      the error's message on as `details`. */
  function CatchCreate<T>(f: Failure, conflict: string, generic: string): Response<T> {
    if f.code == UniqueViolation then Fail(409, conflict)
    else Response(500, ErrorJson(generic, Some(f.message)))
  }

  /** The message of the illam and gothram handlers for missing fields. */
  function MissingMessage(missing: seq<string>): string {
    "Missing required fields: " + Join(missing, ", ")
  }

  const MaxNameLength := 200
  const LengthMessage := "Name length cannot exceed 200 characters"

  /** `json.nameEn.length > 200 || json.nameMl.length > 200`: measured on
      the names as received, before trimming. */
  predicate TooLong(json: map<string, Value>) {
    LongerThan(Field(json, "nameEn"), MaxNameLength) || LongerThan(Field(json, "nameMl"), MaxNameLength)
  }

  /** The `TypeError` thrown by calling `trim` on a value that is not a
      string. */
  function TrimIsNotAFunction(f: string): Failure {
    Failure("", "json." + f + ".trim is not a function")
  }

  /** `json.f.trim()` */
  function TrimField(fields: map<string, Value>, f: string): Result<string, Failure> {
    match Field(fields, f)
    case Str(s) => Ok(Trim(s))
    case _ => Err(TrimIsNotAFunction(f))
  }

  /** `json.f?.trim() || null`: `undefined` and `null` stop the chain, a
      string that trims to `""` is falsy, and `NULL` is stored for both. */
  function TrimOptionalField(fields: map<string, Value>, f: string): Result<Option<string>, Failure> {
    match Field(fields, f)
    case Undefined => Ok(None)
    case Null => Ok(None)
    case Str(s) => Ok(if Trim(s) == "" then None else Some(Trim(s)))
    case _ => Err(TrimIsNotAFunction(f))
  }
}
