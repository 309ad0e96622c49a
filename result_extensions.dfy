/**
 * How the administrative controllers turn a result into an HTTP response:
 * a value becomes 200, a value-less success 204, an error a problem response
 * whose status depends on the error type.
 */
module ResultExtensions {
  import opened Wrappers
  import opened Errors
  import opened Results

  /** The three kinds of action result the controllers produce. */
  datatype ActionResult<T> =
    | OkObject(value: T)
    | NoContent
    | Problem(detail: string, instance: Option<string>, statusCode: int)
  {
    function StatusCode(): int {
      match this
      case OkObject(_) => 200
      case NoContent => 204
      case Problem(_, _, s) => s
    }
  }

  /** The status of a problem response, per error type. */
  function ProblemStatus(t: ErrorType): (s: int)
    ensures s in {404, 422, 409, 500}
    ensures s == 404 <==> t == NotFound
    ensures s == 422 <==> t == Validation
    ensures s == 409 <==> t == Conflict
    ensures s == 500 <==> t == ErrorType.Failure
  {
    match t
    case NotFound => 404
    case Validation => 422
    case Conflict => 409
    case _ => 500
  }

  /** The problem response for an error: its message as detail, the instance passed through. */
  function GetErrorActionResult<T>(e: Error, instance: Option<string>): (a: ActionResult<T>)
    ensures a.Problem? && a.detail == e.message && a.instance == instance
    ensures a.StatusCode() == ProblemStatus(e.errorType)
    ensures 400 <= a.StatusCode() < 600
  {
    Problem(e.message, instance, ProblemStatus(e.errorType))
  }

  /** `ToActionResult` on a result with a value. */
  function ToActionResult<T>(r: ValueResult<T>, instance: Option<string>): (a: ActionResult<T>)
    ensures r.IsSuccess() ==> a == OkObject(r.GetValue()) && a.StatusCode() == 200
    ensures r.IsFailure() ==> a == GetErrorActionResult(r.GetError(), instance)
    ensures a.StatusCode() < 300 <==> r.IsSuccess()
  {
    if r.IsSuccess() then OkObject(r.value) else GetErrorActionResult(r.error, instance)
  }

  /** `ToActionResult` on a result without a value. */
  function ToActionResultNoValue<T>(r: Result, instance: Option<string>): (a: ActionResult<T>)
    ensures r.IsSuccess() ==> a == NoContent && a.StatusCode() == 204
    ensures r.IsFailure() ==> a == GetErrorActionResult(r.GetError(), instance)
    ensures a.StatusCode() < 300 <==> r.IsSuccess()
  {
    if r.IsSuccess() then NoContent else GetErrorActionResult(r.err, instance)
  }

  /** The status determines the error type back: no two types share a status. */
  lemma ProblemStatusInjective(t1: ErrorType, t2: ErrorType)
    ensures ProblemStatus(t1) == ProblemStatus(t2) ==> t1 == t2
  {
  }
}
