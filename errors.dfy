/**
 * The error record with its four typed factories, and the domain errors the
 * route table and the request recorder return.
 */
module Errors {
  import opened Text

  /** The category of an error; `Failure` is the catch-all. */
  datatype ErrorType = Failure | Validation | NotFound | Conflict

  /** An immutable record: two errors are equal exactly when all three fields are. */
  datatype Error = Error(code: string, message: string, errorType: ErrorType)

  function ConflictError(code: string, message: string): (e: Error)
    ensures e.errorType == Conflict && e.code == code && e.message == message
  {
    Error(code, message, Conflict)
  }

  function FailureError(code: string, message: string): (e: Error)
    ensures e.errorType == Failure && e.code == code && e.message == message
  {
    Error(code, message, Failure)
  }

  function NotFoundError(code: string, message: string): (e: Error)
    ensures e.errorType == NotFound && e.code == code && e.message == message
  {
    Error(code, message, NotFound)
  }

  function ValidationError(code: string, message: string): (e: Error)
    ensures e.errorType == Validation && e.code == code && e.message == message
  {
    Error(code, message, Validation)
  }

  /** Record equality: structural over code, message and type. */
  lemma ErrorEquality(a: Error, b: Error)
    ensures a == b <==> (a.code == b.code && a.message == b.message && a.errorType == b.errorType)
  {
  }

  // ---- Domain errors ----

  function RouteNotFound(httpMethod: string, pathPattern: string): (e: Error)
    ensures e.errorType == NotFound && e.code == "Route.NotFound"
  {
    NotFoundError("Route.NotFound", "No route configured for " + httpMethod + " " + pathPattern)
  }

  function InvalidMethod(httpMethod: string): (e: Error)
    ensures e.errorType == Validation && e.code == "Route.InvalidMethod"
  {
    ValidationError(
      "Route.InvalidMethod",
      "HTTP method must be one of: GET, POST, PUT, PATCH, DELETE, HEAD, OPTIONS. Received: " + httpMethod)
  }

  function InvalidStatusCode(statusCode: int): (e: Error)
    ensures e.errorType == Validation && e.code == "Route.InvalidStatusCode"
  {
    ValidationError(
      "Route.InvalidStatusCode",
      "Response statusCode must be between 100 and 599. Received: " + IntToDecimal(statusCode))
  }

  function MissingResponse(): (e: Error)
    ensures e.errorType == Validation && e.code == "Route.MissingResponse"
  {
    ValidationError("Route.MissingResponse", "Response configuration is required")
  }

  function ConcurrentModification(httpMethod: string, pathPattern: string): (e: Error)
    ensures e.errorType == Conflict && e.code == "Route.ConcurrentModification"
  {
    ConflictError(
      "Route.ConcurrentModification",
      "The route " + httpMethod + " " + pathPattern + " was modified by another request")
  }

  function RequestNotFound(id: string): (e: Error)
    ensures e.errorType == NotFound && e.code == "Request.NotFound"
  {
    NotFoundError("Request.NotFound", "No request found with ID " + id)
  }

  function PersistenceFailed(id: string, reason: string): (e: Error)
    ensures e.errorType == Failure && e.code == "Request.PersistenceFailed"
  {
    FailureError("Request.PersistenceFailed", "Failed to persist request " + id + ": " + reason)
  }

  function LoadFailed(path: string, reason: string): (e: Error)
    ensures e.errorType == Failure && e.code == "Persistence.LoadFailed"
  {
    FailureError("Persistence.LoadFailed", "Failed to load data from " + path + ": " + reason)
  }

  function SaveFailed(path: string, reason: string): (e: Error)
    ensures e.errorType == Failure && e.code == "Persistence.SaveFailed"
  {
    FailureError("Persistence.SaveFailed", "Failed to save data to " + path + ": " + reason)
  }

  /** The codes of the nine domain factories, in declaration order. */
  function DomainCodes(): (codes: seq<string>)
    ensures |codes| == 9
  {
    [ RouteNotFound("", "").code, InvalidMethod("").code, InvalidStatusCode(0).code,
      MissingResponse().code, ConcurrentModification("", "").code, RequestNotFound("").code,
      PersistenceFailed("", "").code, LoadFailed("", "").code, SaveFailed("", "").code ]
  }

  /** Each domain factory uses its own error code, whatever its arguments. */
  lemma DomainCodesDistinct()
    ensures forall i, j :: 0 <= i < j < |DomainCodes()| ==> DomainCodes()[i] != DomainCodes()[j]
  {
  }
}
