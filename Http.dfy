/** What the Express handlers answer with: status codes, the error messages
    (one constant per distinct message text) and express-validator's error
    entries. */
module Http {
  import opened JsBuiltins
  import opened Identity

  const OK := 200
  const Created := 201
  const BadRequest := 400
  const Unauthorized := 401
  const Forbidden := 403
  const NotFound := 404
  const ServerError := 500

  /** The `message` of an error response. Two responses carry the same text
      exactly when they carry the same constant. */
  datatype Message =
    | TokenMissing        // auth: no token in the Authorization header
    | TokenInvalid        // auth: token rejected, or it names no user
    | AdminOnly           // adminAuth
    | PostNotFound        // post controller
    | EmailInUse          // register
    | InvalidCredentials  // login
    | InternalError       // a catch block, or Express's default error handler

  /** The request fields the validators look at. */
  datatype Field = Title | Content | Name | Email | Password

  /** One entry of express-validator's errors.array(), identified by the field
      it is about. */
  datatype FieldError = FieldError(field: Field)

  /** The JSON request body, as far as the handlers read it. None is a field
      that is absent (undefined). */
  datatype Body = Body(
    title: Option<string>,
    content: Option<string>,
    tags: Option<seq<string>>,
    featuredImage: Option<string>,
    published: Option<bool>,
    name: Option<string>,
    email: Option<string>,
    password: Option<string>)

  const EmptyBody := Body(None, None, None, None, None, None, None, None)

  /** What a handler sends: a success payload with its status, an error
      message with its status, or express-validator's errors with 400. */
  datatype Reply<T> =
    | Success(status: int, value: T)
    | Failure(status: int, message: Message)
    | Rejected(errors: seq<FieldError>)
  {
    function Status(): int {
      if Rejected? then BadRequest else status
    }
  }

  /** What a middleware does with the request: answer it, or call next(). */
  datatype Outcome = Respond(status: int, message: Message) | Next

  /** The parts of an Express request the pipeline reads and writes. */
  class Request {
    const authorization: Option<string>
    const body: Body
    var user: Option<User>
    /** The errors express-validator has recorded on the request so far. */
    var errors: seq<FieldError>

    constructor (authorization: Option<string>, body: Body)
      ensures this.authorization == authorization && this.body == body
      ensures user == None && errors == []
    {
      this.authorization := authorization;
      this.body := body;
      user := None;
      errors := [];
    }
  }
}
