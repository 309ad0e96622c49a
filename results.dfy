/**
 * The two result types: `Result` carries no value (an operation that
 * succeeds or fails), `ValueResult<T>` carries a value on success.
 */
module Results {
  import opened Errors

  /** Success or failure of an operation without a return value. */
  datatype Result = Success | Failure(err: Error) {

    predicate IsSuccess() {
      Success?
    }

    /** Always the negation of `IsSuccess`. */
    predicate IsFailure() {
      !IsSuccess()
    }

    /** The error of a failed result; reading it on a success is invalid. */
    function GetError(): (e: Error)
      requires IsFailure()
      ensures Result.Failure(e) == this
    {
      err
    }

    /** Runs `onSuccess` on a success, otherwise `onFailure` on the error. */
    function Match<R>(onSuccess: () -> R, onFailure: Error -> R): (r: R)
      ensures IsSuccess() ==> r == onSuccess()
      ensures IsFailure() ==> r == onFailure(GetError())
    {
      if IsSuccess() then onSuccess() else onFailure(err)
    }
  }

  /** The implicit conversion from an error to a failed result. */
  function FromError(e: Error): (r: Result)
    ensures r.IsFailure() && r.GetError() == e
  {
    Result.Failure(e)
  }

  lemma ResultLaws(e: Error)
    ensures Success.IsSuccess() && !Success.IsFailure()
    ensures Result.Failure(e).IsFailure() && Result.Failure(e).GetError() == e
    ensures forall r: Result :: r.IsFailure() == !r.IsSuccess()
  {
  }

  /** Success with a value, or failure with an error. */
  datatype ValueResult<T> = Ok(value: T) | Err(error: Error) {

    predicate IsSuccess() {
      Ok?
    }

    predicate IsFailure() {
      !IsSuccess()
    }

    /** The value of a success; reading it on a failure is invalid. */
    function GetValue(): (v: T)
      requires IsSuccess()
      ensures Ok(v) == this
    {
      value
    }

    /** The error of a failure; reading it on a success is invalid. */
    function GetError(): (e: Error)
      requires IsFailure()
      ensures Err(e) == this
    {
      error
    }
  }
}
