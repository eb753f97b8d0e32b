/**
 * The error middleware: the mapping from anything thrown to the HTTP status
 * and JSON body sent back, and the reply to a request no route matched.
 */
module ErrorHandler {
  import opened Wrappers
  import opened Errors

  /** The JSON body `{ statusCode, type, message, context? }`. */
  datatype ErrorBody = ErrorBody(statusCode: int, typeName: string, message: string, context: Option<Context>)

  /** The HTTP status sent together with the body. */
  datatype Reply = Reply(status: int, body: ErrorBody)

  const InternalErrorMessage: string := "Internal Server Error"

  /** `error.constructor.name`. */
  function TypeName(e: Thrown): string {
    match e
    case Raised(a) => ClassName(a.cls)
    case Other(c, _) => c
  }

  /** `errorHandler`: an `AppError` is reported with its own status code,
      message and context; any other error becomes a 500 with a fixed message
      and no context, so nothing of its own message reaches the client. The
      context key is present exactly when the error is an `AppError` (an
      empty context object is still truthy). */
  function HandleError(e: Thrown): (r: Reply)
    ensures r.status == r.body.statusCode
    ensures r.body.typeName == TypeName(e)
    ensures r.body.context.Some? <==> e.Raised?
    ensures e.Raised? ==> r.body.statusCode == e.app.statusCode
                          && r.body.message == e.app.message
                          && r.body.context == Some(e.app.context)
    ensures e.Other? ==> r.body.statusCode == 500 && r.body.message == InternalErrorMessage
  {
    var statusCode := if e.Raised? then e.app.statusCode else 500;
    var message := if e.Raised? then e.app.message else InternalErrorMessage;
    var context := if e.Raised? then Some(e.app.context) else None;
    Reply(statusCode, ErrorBody(statusCode, TypeName(e), message, context))
  }

  /** Two errors of a class outside the taxonomy get the same reply whatever
      their messages: internal detail does not leak. */
  lemma OtherErrorsDoNotLeak(className: string, m1: string, m2: string)
    ensures HandleError(Other(className, m1)) == HandleError(Other(className, m2))
  {
  }

  function NotFoundMessage(verb: string, path: string): string {
    "Route " + verb + " " + path + " not found"
  }

  /** `notFoundHandler`: a 404 whose type is "NotFoundError" and whose
      message names the request's method and path. */
  function NotFound(verb: string, path: string): (r: Reply)
    ensures r.status == 404 && r.body.statusCode == 404
    ensures r.body.typeName == "NotFoundError"
    ensures r.body.message == NotFoundMessage(verb, path)
    ensures r.body.context.None?
  {
    Reply(404, ErrorBody(404, "NotFoundError", NotFoundMessage(verb, path), None))
  }

  /** For a given method, the not-found message determines the path. */
  lemma NotFoundMessageNamesPath(verb: string, p1: string, p2: string)
    requires NotFoundMessage(verb, p1) == NotFoundMessage(verb, p2)
    ensures p1 == p2
  {
    var prefix := "Route " + verb + " ";
    var suffix := " not found";
    var m1, m2 := NotFoundMessage(verb, p1), NotFoundMessage(verb, p2);
    assert m1 == prefix + p1 + suffix;
    assert m2 == prefix + p2 + suffix;
    assert |p1| == |p2|;
    forall i | 0 <= i < |p1| ensures p1[i] == p2[i] {
      assert m1[|prefix| + i] == p1[i];
      assert m2[|prefix| + i] == p2[i];
    }
  }
}
