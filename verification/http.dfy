/** What the Express handlers and middleware see and produce: the request object
    that middleware updates in place, the response a handler writes, and whether a
    middleware hands the request on to `next()`. */
module Http {
  import opened Wrappers

  /** One entry of the `details` list of a validation failure. */
  datatype FieldError = FieldError(field: string, message: string)

  /** The JSON bodies the core's error paths write. */
  datatype Body =
    | ErrorBody(error: string)                                  // { error }
    | ValidationBody(error: string, details: seq<FieldError>)   // { error, details }
    | DebugBody(error: string, stack: Option<string>)           // { error, stack }

  datatype Response = Response(status: int, body: Body)

  /** A middleware either calls `next()` and writes nothing, or writes a response
      and does not call `next()`. */
  datatype Step = Next | Respond(response: Response)

  /** A JSON value, as carried in `req.body`, `req.query` and `req.params`. */
  datatype Json =
    | JNull
    | JBool(b: bool)
    | JNumber(n: real)
    | JString(s: string)
    | JArray(items: seq<Json>)
    | JObject(fields: map<string, Json>)

  /** The user attached to a request by the authentication middleware. */
  datatype AuthUser = AuthUser(id: string, email: Option<string>, role: Option<string>)

  /** The part of an Express request that the core middleware reads and writes. */
  class Request {
    var authorization: Option<string>   // req.headers.authorization
    var user: Option<AuthUser>           // req.user
    var body: Json                       // req.body
    var query: Json                      // req.query
    var params: Json                     // req.params

    constructor (authorization: Option<string>, body: Json, query: Json, params: Json)
      ensures this.authorization == authorization && this.user == None
      ensures this.body == body && this.query == query && this.params == params
    {
      this.authorization := authorization;
      this.user := None;
      this.body := body;
      this.query := query;
      this.params := params;
    }
  }
}
