/** Shared vocabulary of the backend model: optional values, record ids,
    schema violations and the HTTP reply envelope every handler produces. */
module Common {

  datatype Option<+T> = None | Some(value: T)

  /** A document id (a MongoDB ObjectId, abstracted to a number). */
  type Id = nat

  /** The schema rule a value broke; Mongoose reports, per path, the first
      failing rule, with `required` always checked first. */
  datatype Rule =
    | Required
    | MaxLength(max: nat)
    | MinLength(min: nat)
    | AtLeast(bound: int)
    | NotInEnum
    | NoMatch

  datatype Violation = Violation(path: string, rule: Rule)

  datatype Result<+T> = Ok(value: T) | Invalid(violations: set<Violation>)

  /** Why a handler answered with an error. */
  datatype Failure =
    | ValidationFailed(violations: set<Violation>)
    | DuplicateKey
    | AlreadyFavorited
    | BadQuery
    | NotOwner
    | NotFound
  {
    /** The status code the handler's `res.status(...)` sends. */
    function Status(): nat {
      match this
      case NotOwner => 403
      case NotFound => 404
      case _ => 400
    }
  }

  /** The `{ success, data | message }` envelope and its status code. */
  datatype Reply<+T> = Success(status: nat, data: T) | Error(failure: Failure) {
    function Status(): nat {
      if Success? then status else failure.Status()
    }
  }

  function Min(a: int, b: int): int { if a <= b then a else b }

  function Max(a: int, b: int): int { if a <= b then b else a }

  function Abs(a: int): nat { if a < 0 then -a else a }
}
