/**
 * The error taxonomy: `AppError`, its subclass `ValidationError` and that
 * class's subclass `InvalidFieldError`, plus the errors of every other class
 * that operations can throw.
 */
module Errors {
  import opened Wrappers

  /** A value held in an error's context object. The source types contexts as
      plain objects; these are the shapes the order core puts into one. */
  datatype Value =
    | Text(text: string)
    | Key(id: nat)                                  // a record identifier
    | TextList(texts: seq<string>)                  // `formErrors`
    | FieldMessages(fields: map<string, seq<string>>) // `fieldErrors`

  type Context = map<string, Value>

  /** The class an error was constructed with; its name is what the error
      handler reports as the error's `type`. */
  datatype ErrorClass = AppErrorClass | ValidationErrorClass | InvalidFieldErrorClass

  function ClassName(c: ErrorClass): string {
    match c
    case AppErrorClass => "AppError"
    case ValidationErrorClass => "ValidationError"
    case InvalidFieldErrorClass => "InvalidFieldError"
  }

  /** An instance of `AppError` or of one of its subclasses. Its fields are
      read-only once constructed. */
  datatype AppError = AppError(cls: ErrorClass, message: string, statusCode: int, context: Context)

  /** Anything an operation can throw: an `AppError` (of any subclass), or an
      error of a class outside the taxonomy (a `TypeError`, a database error). */
  datatype Thrown = Raised(app: AppError) | Other(className: string, message: string)

  const DefaultAppStatus: int := 500
  const DefaultValidationStatus: int := 422
  const DefaultValidationMessage: string := "Invalid data"

  /** `new AppError(message, statusCode?, context?)`: an omitted status code
      is 500 and an omitted context is the empty object. */
  function NewAppError(message: string, statusCode: Option<int>, context: Option<Context>): (e: AppError)
    ensures e.cls == AppErrorClass && e.message == message
    ensures statusCode.None? ==> e.statusCode == DefaultAppStatus
    ensures statusCode.Some? ==> e.statusCode == statusCode.value
    ensures context.None? ==> e.context == map[]
    ensures context.Some? ==> e.context == context.value
  {
    AppError(AppErrorClass, message, statusCode.GetOr(DefaultAppStatus), context.GetOr(map[]))
  }

  /** The context a `ValidationError` is constructed with: both keys optional. */
  datatype ValidationContext = ValidationContext(
    formErrors: Option<seq<string>>,
    fieldErrors: Option<map<string, seq<string>>>)

  /** The empty object `{}`. */
  const NoDetails: ValidationContext := ValidationContext(None, None)

  /** The `formErrors` list of a context; empty when the key is absent or holds
      something else. */
  function FormErrorsOf(ctx: Context): seq<string> {
    if "formErrors" in ctx && ctx["formErrors"].TextList? then ctx["formErrors"].texts else []
  }

  /** The `fieldErrors` record of a context; empty when the key is absent or
      holds something else. */
  function FieldErrorsOf(ctx: Context): map<string, seq<string>> {
    if "fieldErrors" in ctx && ctx["fieldErrors"].FieldMessages? then ctx["fieldErrors"].fields else map[]
  }

  /** `{ formErrors: [], fieldErrors: {}, ...context }`: the defaults, each
      overridden by the supplied key when there is one. Reading the two keys
      back gives what was supplied, or the default. */
  function MergeValidationContext(c: ValidationContext): (ctx: Context)
    ensures ctx.Keys == {"formErrors", "fieldErrors"}
    ensures FormErrorsOf(ctx) == (if c.formErrors.Some? then c.formErrors.value else [])
    ensures FieldErrorsOf(ctx) == (if c.fieldErrors.Some? then c.fieldErrors.value else map[])
  {
    map["formErrors" := TextList(c.formErrors.GetOr([])),
        "fieldErrors" := FieldMessages(c.fieldErrors.GetOr(map[]))]
  }

  /** The `ValidationError` constructor run on behalf of class `cls` (the
      class named by `new`). */
  function BuildValidationError(cls: ErrorClass, context: Option<ValidationContext>,
                                statusCode: Option<int>, message: Option<string>): AppError
  {
    AppError(cls, message.GetOr(DefaultValidationMessage), statusCode.GetOr(DefaultValidationStatus),
             MergeValidationContext(context.GetOr(NoDetails)))
  }

  /** `new ValidationError(context?, statusCode?, message?)`: defaults 422 and
      "Invalid data"; the context always carries `formErrors` and
      `fieldErrors`, each the supplied one or the empty default. */
  function NewValidationError(context: Option<ValidationContext>, statusCode: Option<int>,
                              message: Option<string>): (e: AppError)
    ensures e.cls == ValidationErrorClass
    ensures e.statusCode == (if statusCode.Some? then statusCode.value else 422)
    ensures e.message == (if message.Some? then message.value else "Invalid data")
    ensures e.context.Keys == {"formErrors", "fieldErrors"}
    ensures context.None? ==> FormErrorsOf(e.context) == [] && FieldErrorsOf(e.context) == map[]
    ensures context.Some? && context.value.formErrors.Some? ==> FormErrorsOf(e.context) == context.value.formErrors.value
    ensures context.Some? && context.value.formErrors.None? ==> FormErrorsOf(e.context) == []
    ensures context.Some? && context.value.fieldErrors.Some? ==> FieldErrorsOf(e.context) == context.value.fieldErrors.value
    ensures context.Some? && context.value.fieldErrors.None? ==> FieldErrorsOf(e.context) == map[]
  {
    BuildValidationError(ValidationErrorClass, context, statusCode, message)
  }

  /** A validation error carrying one message for one field. */
  function FieldError(field: string, message: string): (e: AppError)
    ensures e.cls == ValidationErrorClass && e.statusCode == 422 && e.message == "Invalid data"
    ensures FormErrorsOf(e.context) == []
    ensures FieldErrorsOf(e.context) == map[field := [message]]
  {
    NewValidationError(Some(ValidationContext(None, Some(map[field := [message]]))), None, None)
  }

  /** `new InvalidFieldError(field, message, statusCode = 422)`: the field
      message goes into `fieldErrors` under `field` alone, while the error's
      own message stays "Invalid data". */
  function NewInvalidFieldError(field: string, message: string, statusCode: Option<int>): (e: AppError)
    ensures e.cls == InvalidFieldErrorClass
    ensures e.statusCode == (if statusCode.Some? then statusCode.value else 422)
    ensures e.message == "Invalid data"
    ensures FieldErrorsOf(e.context).Keys == {field}
    ensures FieldErrorsOf(e.context)[field] == [message]
    ensures FormErrorsOf(e.context) == []
  {
    BuildValidationError(InvalidFieldErrorClass,
                         Some(ValidationContext(None, Some(map[field := [message]]))),
                         Some(statusCode.GetOr(DefaultValidationStatus)), None)
  }
}
