/** Types shared by every resource of the service. */
module Common {

  /** Record identifiers (UUIDs), kept as their canonical text. */
  type Uuid = string

  /** The value of `datetime.utcnow()` at the moment a record is built. */
  type Timestamp = nat

  datatype Option<+T> = None | Some(value: T)

  /** One field of a partial-update payload: either left out of the request
      (`Unset`, dropped by `exclude_unset`) or given explicitly (`Set`). */
  datatype Patch<+T> = Unset | Set(value: T) {
    /** The value after merging this field onto `current`. */
    function Or(current: T): T {
      match this
      case Unset => current
      case Set(v) => v
    }

    /** The field as an optional value: `update.field` reads None when unset. */
    function Given(): Option<T> {
      match this
      case Unset => None
      case Set(v) => Some(v)
    }
  }

  /** What a handler answers: a value (HTTP 200/201), an `HTTPException`
      with status 404 or 400 and its detail text, or `Invalid` when the web
      framework rejects a query parameter before the handler runs (HTTP 422). */
  datatype Outcome<+T> =
    | Ok(value: T)
    | NotFound(detail: string)
    | Conflict(detail: string)
    | Invalid
  {
    /** The HTTP status code the framework sends for this outcome. */
    function Status(success: int): int {
      match this
      case Ok(_) => success
      case NotFound(_) => 404
      case Conflict(_) => 400
      case Invalid => 422
    }
  }

  /** A value read off a record by attribute name (`getattr`). */
  datatype FieldValue =
    | UuidValue(uuid: Uuid)
    | TextValue(text: string)
    | NullValue
    | NumberValue(number: real)
    | TimeValue(time: Timestamp)

  function OptionalText(s: Option<string>): FieldValue {
    match s
    case None => NullValue
    case Some(t) => TextValue(t)
  }
}
