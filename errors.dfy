/** The user record, the two domain errors of the service and the error
    mapper that turns each of them into a structured error response. */
module Errors {

  /** A registered user: the username is the store's key. */
  datatype User = User(username: string, email: string)

  /** The two domain error kinds. `UserNotFound` carries the requested
      username (the source annotates it as an integer but always passes the
      username string), `InvalidUserData` carries a free-form message. */
  datatype DomainError =
    | UserNotFound(userId: string)
    | InvalidUserData(message: string)

  /** The structured body produced for a domain error. */
  datatype ErrorResponse = ErrorResponse(statusCode: int, message: string, errorCode: string)

  /** What a handler returns instead of raising a domain error. */
  datatype Result<T> = Ok(value: T) | Err(error: DomainError)

  const NotFoundStatus := 404
  const InvalidDataStatus := 400
  const NotFoundCode := "USER_NOT_FOUND"
  const InvalidDataCode := "INVALID_USER_DATA"
  const NotFoundPrefix := "User with ID "
  const NotFoundSuffix := " not found."

  /** The message of the not-found response for username `u`. */
  function NotFoundMessage(u: string): (m: string)
    ensures |m| == |NotFoundPrefix| + |u| + |NotFoundSuffix|
    ensures m[..|NotFoundPrefix|] == NotFoundPrefix
    ensures m[|NotFoundPrefix|..|NotFoundPrefix| + |u|] == u
    ensures m[|NotFoundPrefix| + |u|..] == NotFoundSuffix
  {
    NotFoundPrefix + u + NotFoundSuffix
  }

  /** The two exception handlers as one total mapping: each error kind has
      its own status code and error code, and the invalid-data message
      passes through unchanged. */
  function MapError(e: DomainError): (r: ErrorResponse)
    ensures r.statusCode == NotFoundStatus <==> e.UserNotFound?
    ensures r.statusCode == InvalidDataStatus <==> e.InvalidUserData?
    ensures r.errorCode == NotFoundCode <==> e.UserNotFound?
    ensures r.errorCode == InvalidDataCode <==> e.InvalidUserData?
    ensures e.InvalidUserData? ==> r.message == e.message
    ensures e.UserNotFound? ==> r.message == NotFoundMessage(e.userId)
  {
    match e
    case UserNotFound(u) => ErrorResponse(NotFoundStatus, NotFoundMessage(u), NotFoundCode)
    case InvalidUserData(m) => ErrorResponse(InvalidDataStatus, m, InvalidDataCode)
  }

  /** The two rows of the mapping table, written out in full. */
  lemma MapErrorTable(u: string, m: string)
    ensures MapError(UserNotFound(u)) ==
            ErrorResponse(404, "User with ID " + u + " not found.", "USER_NOT_FOUND")
    ensures MapError(InvalidUserData(m)) == ErrorResponse(400, m, "INVALID_USER_DATA")
  {
  }

  /** No information is lost by the mapper: distinct domain errors give
      distinct responses. */
  lemma MapErrorInjective(e1: DomainError, e2: DomainError)
    requires MapError(e1) == MapError(e2)
    ensures e1 == e2
  {
  }
}
