/** The error-handling middleware (errorHandler.ts): the `ApiError` class, the
    status and body `errorHandler` answers with, and `notFoundHandler`.
    `NODE_ENV` and the error's stack trace are parameters. */
module ErrorHandling {
  import opened Wrappers
  import opened Http
  import opened Strings

  const GenericMessage := "An unexpected error occurred. Please try again later."

  /** An error reaching the handler: an `ApiError`, or any other `Error`. */
  datatype Failure =
    | ApiError(statusCode: int, message: string, isOperational: bool, stack: Option<string>)
    | PlainError(message: string, stack: Option<string>)

  /** `new ApiError(statusCode, message, isOperational?)`; an omitted third
      argument means operational. */
  function NewApiError(statusCode: int, message: string, isOperational: Option<bool>, stack: Option<string>): (e: Failure)
    ensures e.ApiError? && e.statusCode == statusCode && e.message == message && e.stack == stack
    ensures e.isOperational <==> isOperational.None? || isOperational.value
  {
    ApiError(statusCode, message, if isOperational.Some? then isOperational.value else true, stack)
  }

  predicate IsProduction(nodeEnv: Option<string>) {
    nodeEnv == Some("production")
  }

  predicate Operational(err: Failure) {
    err.ApiError? && err.isOperational
  }

  /** `errorHandler`: an operational `ApiError` answers with its own status and
      message; anything else answers 500, generic in production and with the
      message and stack otherwise. */
  function HandleError(err: Failure, nodeEnv: Option<string>): (r: Response)
    ensures Operational(err) ==> r == Response(err.statusCode, ErrorBody(err.message))
    ensures !Operational(err) && IsProduction(nodeEnv) ==> r == Response(500, ErrorBody(GenericMessage))
    ensures !Operational(err) && !IsProduction(nodeEnv) ==> r == Response(500, DebugBody(err.message, err.stack))
  {
    if Operational(err) then Response(err.statusCode, ErrorBody(err.message))
    else if IsProduction(nodeEnv) then Response(500, ErrorBody(GenericMessage))
    else Response(500, DebugBody(err.message, err.stack))
  }

  /** In production no stack is ever sent, and the only message sent besides
      the generic one is an operational error's own. */
  lemma ProductionHidesInternals(err: Failure, nodeEnv: Option<string>)
    requires IsProduction(nodeEnv)
    ensures HandleError(err, nodeEnv).body.ErrorBody?
    ensures HandleError(err, nodeEnv).body.error != GenericMessage ==>
              Operational(err) && HandleError(err, nodeEnv).body.error == err.message
    ensures HandleError(err, nodeEnv).status != 500 ==> Operational(err)
  {
  }

  /** An `ApiError` built with two arguments is answered with its own status and message. */
  lemma DefaultApiErrorAnswered(statusCode: int, message: string, stack: Option<string>, nodeEnv: Option<string>)
    ensures HandleError(NewApiError(statusCode, message, None, stack), nodeEnv) ==
            Response(statusCode, ErrorBody(message))
  {
  }

  /** `notFoundHandler`: 404 with "Route <METHOD> <PATH> not found". */
  function NotFound(verb: string, path: string): (r: Response)
    ensures r.status == 404 && r.body.ErrorBody?
    ensures r.body.error == "Route " + verb + " " + path + " not found"
  {
    Response(404, ErrorBody("Route " + verb + " " + path + " not found"))
  }

  /** The 404 message names the route: for HTTP methods (which hold no space)
      different requests give different messages. */
  lemma NotFoundNamesRoute(verb1: string, path1: string, verb2: string, path2: string)
    requires ' ' !in verb1 && ' ' !in verb2
    requires NotFound(verb1, path1) == NotFound(verb2, path2)
    ensures verb1 == verb2 && path1 == path2
  {
    var m1, m2 := verb1 + " " + path1, verb2 + " " + path2;
    RouteInMessage(verb1, path1);
    RouteInMessage(verb2, path2);
    assert m1 == m2;
    RouteParts(verb1, path1);
    RouteParts(verb2, path2);
  }

  /** The route sits between "Route " and " not found". */
  lemma RouteInMessage(verb: string, path: string)
    ensures var e := NotFound(verb, path).body.error;
            |e| == |verb| + |path| + 17 && e[6..|e| - 10] == verb + " " + path
  {
    var e := NotFound(verb, path).body.error;
    assert e == "Route " + (verb + " " + path) + " not found";
  }

  /** "<METHOD> <PATH>" splits back into its method and path. */
  lemma RouteParts(verb: string, path: string)
    requires ' ' !in verb
    ensures TakeUntil(verb + " " + path, ' ') == verb
    ensures (verb + " " + path)[|verb| + 1..] == path
  {
    var m := verb + " " + path;
    assert m[|verb|] == ' ' && m[..|verb|] == verb;
  }
}
