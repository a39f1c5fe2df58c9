/**
 * The HTTP vocabulary every handler shares: optional values, the parts of an
 * inbound request that the routers and controllers read, and the replies
 * they send back.
 */
module Http {

  datatype Option<+T> = None | Some(value: T)

  /** Where a validator reads its field: the JSON body or the route's path parameters. */
  datatype Location = InBody | InParams

  /** A JSON body, or the path parameters: each value as the text the validators see. */
  type Fields = map<string, string>

  /**
   * An inbound request: the `Authorization` header (absent, or its text),
   * the path parameters (`:id`) and the JSON body.
   */
  datatype Request = Request(authorization: Option<string>, params: Fields, body: Fields)

  function Field(req: Request, loc: Location, name: string): Option<string>
  {
    var fields := if loc == InBody then req.body else req.params;
    if name in fields then Some(fields[name]) else None
  }

  /** One entry of a 400 reply's `errors` array: the field whose check failed. */
  datatype FieldError = FieldError(location: Location, field: string)

  /** The replies the handlers send; `Status` is the HTTP status code of each. */
  datatype Reply<+T> =
    | Ok(value: T)
    | Created(value: T)
    | NoContent
    | Invalid(errors: seq<FieldError>)
    | Rejected(message: string)
    | Unauthorized(message: string)
    | NotFound(message: string)
    | Conflict(message: string)
    | Internal
  {
    function Status(): int
    {
      match this
      case Ok(_) => 200
      case Created(_) => 201
      case NoContent => 204
      case Invalid(_) => 400
      case Rejected(_) => 400
      case Unauthorized(_) => 401
      case NotFound(_) => 404
      case Conflict(_) => 409
      case Internal => 500
    }
  }

  /** A stored record with its primary key, as the JSON replies render it. */
  datatype Row<+T> = Row(id: int, value: T)
}
