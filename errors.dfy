/** The API error handling of lib/error-handler.ts: the error classes, the
    mapping of a thrown value to a JSON error response, the Prisma error-code
    table, and request-body validation. */
module ErrorHandler {
  import opened Util

  /** The `details` payloads an error response can carry. The payloads the
      source passes through unexamined (`unknown`) are opaque here. */
  datatype Detail =
    | MissingFields(missingFields: seq<string>)  // `{ missingFields }`
    | Opaque(id: nat)                            // a value supplied by the thrower
    | PrismaErrorValue(code: string)             // the Prisma error object itself

  /** What a handler can throw: the error classes the handler tells apart,
      a plain `Error`, or a value that is no `Error` at all. */
  datatype Thrown =
    | PrismaKnownRequestError(code: string, message: string, meta: Option<Detail>)
    | ValidationError(message: string, details: Option<Detail>)
    | AuthenticationError(message: string)
    | AuthorizationError(message: string)
    | NotFoundError(message: string)
    | PlainError(message: string)
    | NotAnError

  /** The constructors' default messages, used when the message argument is
      omitted (`None`). */
  const AuthenticationDefault: string := "Authentication required"
  const AuthorizationDefault: string := "Insufficient permissions"
  const NotFoundDefault: string := "Resource not found"
  const UnexpectedDefault: string := "An unexpected error occurred"

  function NewAuthenticationError(message: Option<string>): (e: Thrown)
    ensures e.AuthenticationError?
    ensures e.message == if message.Some? then message.value else AuthenticationDefault
  {
    AuthenticationError(if message.Some? then message.value else AuthenticationDefault)
  }

  function NewAuthorizationError(message: Option<string>): (e: Thrown)
    ensures e.AuthorizationError?
    ensures e.message == if message.Some? then message.value else AuthorizationDefault
  {
    AuthorizationError(if message.Some? then message.value else AuthorizationDefault)
  }

  function NewNotFoundError(message: Option<string>): (e: Thrown)
    ensures e.NotFoundError?
    ensures e.message == if message.Some? then message.value else NotFoundDefault
  {
    NotFoundError(if message.Some? then message.value else NotFoundDefault)
  }

  /** The `ApiError` body; an absent `details` is `None`. */
  datatype ApiError = ApiError(error: string, message: string, statusCode: int, details: Option<Detail>)

  /** A JSON response: its HTTP status and its body. */
  datatype Response = Response(status: int, body: ApiError)

  function Json(error: string, message: string, status: int, details: Option<Detail>): (r: Response)
    ensures r.status == r.body.statusCode == status
  {
    Response(status, ApiError(error, message, status, details))
  }

  /** `handlePrismaError`: the response for a known Prisma request error, by
      its code. `production` stands for `NODE_ENV === "production"`. */
  function HandlePrismaError(code: string, meta: Option<Detail>, production: bool): (r: Response)
    ensures r.status == r.body.statusCode
    ensures r.status == 409 <==> code == "P2002"
    ensures r.status == 404 <==> code == "P2025"
    ensures r.status == 400 <==> code == "P2003"
    ensures r.status == 500 <==> code !in {"P2002", "P2025", "P2003"}
    ensures code == "P2002" ==> r.body.details == meta
    ensures r.status == 500 ==> r.body.details == if production then None else Some(PrismaErrorValue(code))
    ensures r.status == 404 || r.status == 400 ==> r.body.details == None
    ensures r.status == 500 ==> r.body.message == "A database error occurred"
    // the title and the fixed message of each known code
    ensures code == "P2002" ==>
      r.body.error == "Duplicate Entry" && r.body.message == "A record with this value already exists"
    ensures code == "P2025" ==>
      r.body.error == "Not Found" && r.body.message == "The requested record was not found"
    ensures code == "P2003" ==>
      r.body.error == "Foreign Key Constraint" && r.body.message == "The operation violates a foreign key constraint"
    ensures r.status == 500 ==> r.body.error == "Database Error"
  {
    match code
    case "P2002" => Json("Duplicate Entry", "A record with this value already exists", 409, meta)
    case "P2025" => Json("Not Found", "The requested record was not found", 404, None)
    case "P2003" => Json("Foreign Key Constraint", "The operation violates a foreign key constraint", 400, None)
    case _ => Json("Database Error", "A database error occurred", 500,
                   if production then None else Some(PrismaErrorValue(code)))
  }

  /** `createErrorResponse`: the first class the thrown value belongs to, in
      the order Prisma, validation, authentication, authorization, not found,
      any `Error`, anything else, chooses the response. */
  function CreateErrorResponse(error: Thrown, defaultMessage: Option<string>, production: bool): (r: Response)
    ensures r.status == r.body.statusCode
    ensures r.status in {400, 401, 403, 404, 409, 500}
    ensures error.ValidationError? ==> r.status == 400 && r.body.details == error.details
    ensures error.AuthenticationError? <==> r.status == 401
    ensures error.AuthorizationError? <==> r.status == 403
    ensures error.NotFoundError? ==> r.status == 404
    ensures r.status == 409 ==> error.PrismaKnownRequestError?
    // the client errors pass the thrown message through
    ensures (error.ValidationError? || error.AuthenticationError? || error.AuthorizationError? || error.NotFoundError?) ==>
      r.body.message == error.message
    // a non-Prisma 500 says only the default message, except a plain Error outside production
    ensures r.status == 500 && !error.PrismaKnownRequestError? ==>
      r.body.message == (if error.PlainError? && !production then error.message
                         else if defaultMessage.Some? then defaultMessage.value else UnexpectedDefault)
    ensures r.status == 500 ==> error.PrismaKnownRequestError? || error.PlainError? || error.NotAnError?
    // the title of each class; a Prisma error gets its code's response
    ensures error.PrismaKnownRequestError? ==> r == HandlePrismaError(error.code, error.meta, production)
    ensures error.ValidationError? ==> r.body.error == "Validation Error"
    ensures error.AuthenticationError? ==> r.body.error == "Authentication Error"
    ensures error.AuthorizationError? ==> r.body.error == "Authorization Error"
    ensures error.NotFoundError? ==> r.body.error == "Not Found"
    ensures error.PlainError? || error.NotAnError? ==> r.status == 500 && r.body.error == "Internal Server Error"
  {
    var fallback := if defaultMessage.Some? then defaultMessage.value else UnexpectedDefault;
    match error
    case PrismaKnownRequestError(code, _, meta) => HandlePrismaError(code, meta, production)
    case ValidationError(message, details) => Json("Validation Error", message, 400, details)
    case AuthenticationError(message) => Json("Authentication Error", message, 401, None)
    case AuthorizationError(message) => Json("Authorization Error", message, 403, None)
    case NotFoundError(message) => Json("Not Found", message, 404, None)
    case PlainError(message) => Json("Internal Server Error", if production then fallback else message, 500, None)
    case NotAnError => Json("Internal Server Error", fallback, 500, None)
  }

  /** In production no internal detail reaches the client: a 500 response
      carries neither the thrown message nor the Prisma error object. */
  lemma ProductionHidesInternals(error: Thrown, defaultMessage: Option<string>)
    ensures var r := CreateErrorResponse(error, defaultMessage, true);
      r.status == 500 ==>
        && r.body.details == None
        && (r.body.message == "A database error occurred"
            || r.body.message == (if defaultMessage.Some? then defaultMessage.value else UnexpectedDefault))
  {
  }

  /** A thrown authentication, authorization or not-found error built without
      a message answers with its class's default message. */
  lemma DefaultMessages(defaultMessage: Option<string>, production: bool)
    ensures CreateErrorResponse(NewAuthenticationError(None), defaultMessage, production)
      == Json("Authentication Error", AuthenticationDefault, 401, None)
    ensures CreateErrorResponse(NewAuthorizationError(None), defaultMessage, production)
      == Json("Authorization Error", AuthorizationDefault, 403, None)
    ensures CreateErrorResponse(NewNotFoundError(None), defaultMessage, production)
      == Json("Not Found", NotFoundDefault, 404, None)
  {
  }

  // ---------------------------------------------------------------------------
  // Request-body validation
  // ---------------------------------------------------------------------------

  /** A JavaScript value as far as validation looks at it; an object (arrays
      included) is known by the property names the `in` operator finds on it,
      inherited ones included. */
  datatype JsValue =
    | Null
    | Undefined
    | Bool(b: bool)
    | Num(n: real)
    | NaN
    | Str(s: string)
    | Obj(keys: set<string>)
    | Func

  /** JavaScript truthiness. */
  predicate Truthy(v: JsValue) {
    match v
    case Null => false
    case Undefined => false
    case Bool(b) => b
    case Num(n) => n != 0.0
    case NaN => false
    case Str(s) => s != ""
    case Obj(_) => true
    case Func => true
  }

  /** `typeof v === "object"` (which holds for `null` too). */
  predicate TypeofObject(v: JsValue) {
    v.Null? || v.Obj?
  }

  /** The required fields absent from the keys, in the order they are required. */
  function MissingOf(keys: set<string>, requiredFields: seq<string>): (r: seq<string>)
    ensures forall f :: f in r <==> f in requiredFields && f !in keys
    ensures |r| <= |requiredFields|
  {
    if requiredFields == [] then []
    else
      var rest := MissingOf(keys, requiredFields[1..]);
      assert forall f :: f in requiredFields <==> f == requiredFields[0] || f in requiredFields[1..];
      if requiredFields[0] in keys then rest else [requiredFields[0]] + rest
  }

  /** One field gives itself when it is missing and nothing otherwise. */
  lemma MissingOfSingle(keys: set<string>, f: string)
    ensures MissingOf(keys, [f]) == if f in keys then [] else [f]
  {
    assert [f][1..] == [];
  }

  /** `MissingOf` keeps the order of `requiredFields` and lists each missing
      occurrence once: it distributes over concatenation. */
  lemma {:induction false} MissingOfAppend(keys: set<string>, a: seq<string>, b: seq<string>)
    ensures MissingOf(keys, a + b) == MissingOf(keys, a) + MissingOf(keys, b)
  {
    if a == [] {
      assert a + b == b;
    } else {
      assert (a + b)[0] == a[0] && (a + b)[1..] == a[1..] + b;
      MissingOfAppend(keys, a[1..], b);
    }
  }

  datatype Validated = Valid(body: JsValue) | Invalid(error: Thrown)

  const BodyRequired: string := "Request body is required"
  const MissingPrefix: string := "Missing required fields: "

  /** `validateRequestBody`: the body must be a non-null object and have every
      required field; otherwise a validation error is thrown. */
  function ValidateRequestBody(body: JsValue, requiredFields: seq<string>): (r: Validated)
    ensures r.Valid? <==> body.Obj? && forall f :: f in requiredFields ==> f in body.keys
    ensures r.Valid? ==> r.body == body
    ensures !body.Obj? ==> r == Invalid(ValidationError(BodyRequired, None))
    ensures body.Obj? && r.Invalid? ==>
      var missing := MissingOf(body.keys, requiredFields);
      missing != [] && r.error == ValidationError(MissingPrefix + Join(missing, ", "), Some(MissingFields(missing)))
  {
    if !Truthy(body) || !TypeofObject(body) then Invalid(ValidationError(BodyRequired, None))
    else
      var missing := MissingOf(body.keys, requiredFields);
      assert |missing| > 0 ==> missing[0] in missing;
      if |missing| > 0 then Invalid(ValidationError(MissingPrefix + Join(missing, ", "), Some(MissingFields(missing))))
      else Valid(body)
  }

  /** A body that fails validation, handed to the error handler, answers 400
      "Validation Error" with the validation message, listing the missing
      fields in `details` when the body was an object. */
  lemma RejectedBodyIs400(body: JsValue, requiredFields: seq<string>, defaultMessage: Option<string>, production: bool)
    requires ValidateRequestBody(body, requiredFields).Invalid?
    ensures var r := CreateErrorResponse(ValidateRequestBody(body, requiredFields).error, defaultMessage, production);
      && r.status == 400
      && r.body.error == "Validation Error"
      && (body.Obj? ==> r.body.details == Some(MissingFields(MissingOf(body.keys, requiredFields))))
      && (!body.Obj? ==> r.body.message == BodyRequired && r.body.details == None)
  {
  }
}
