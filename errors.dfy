/** Failures of the authorization guard: the AuthError record, the other Python
    exceptions that can escape the guard, and a failure-compatible Result. */
module Errors {

  /** The dict carried by an AuthError: {'success': ..., 'message': ..., 'error': ...}. */
  datatype ErrorBody = ErrorBody(success: bool, message: string, error: int)

  /** `AuthError(error, status_code)`: both fields are set once, in `__init__`. */
  datatype AuthError = AuthError(error: ErrorBody, statusCode: int)

  const JwtNotFound := "JWT not found"
  const PermissionNotFound := "Permission not found in JWT"
  const AuthorizationMalformed := "Authorization malformed"
  const TokenExpired := "Token expired"
  const CheckAudienceIssuer := "Please, check the audience and issuer"
  const UnableToParse := "Unable to parse authentication token"
  const NoAppropriateKey := "Unable to find the appropriate key"

  /** Every message the auth module ever puts into an AuthError. */
  const Messages: set<string> :=
    {JwtNotFound, PermissionNotFound, AuthorizationMalformed, TokenExpired,
     CheckAudienceIssuer, UnableToParse, NoAppropriateKey}

  /** The one shape in which the module raises AuthError:
      `AuthError({'success': False, 'message': m, 'error': 401}, 401)`. */
  function Unauthorized(message: string): (e: AuthError)
    ensures e.error.message == message
    ensures message in Messages ==> IsUnauthorized(e)
  {
    AuthError(ErrorBody(false, message, 401), 401)
  }

  /** An AuthError as the module's error handler renders it: status 401, a body
      with success False and error 401, and one of the fixed messages. */
  predicate IsUnauthorized(e: AuthError) {
    && e.statusCode == 401
    && !e.error.success
    && e.error.error == 401
    && e.error.message in Messages
  }

  /** The exceptions that can leave the guard. */
  datatype Exception =
    | Auth(authError: AuthError)  // AuthError, raised on purpose
    | IndexError                  // a list index out of range
    | KeyError(key: string)       // a dict lookup of a missing key
    | TypeError                   // `in` applied to a value that is not a container
    | JoseError                   // raised by the JOSE library outside any `try`

  /** Either the value a Python call returns or the exception it raises. */
  datatype Result<+T> = Ok(value: T) | Raise(exception: Exception) {
    predicate IsFailure() {
      Raise?
    }

    function PropagateFailure<U>(): Result<U>
      requires Raise?
    {
      Raise(exception)
    }

    function Extract(): T
      requires Ok?
    {
      value
    }
  }

  /** The failure is an AuthError in the module's 401 shape. */
  predicate RaisesUnauthorized<T>(r: Result<T>) {
    r.Raise? && r.exception.Auth? && IsUnauthorized(r.exception.authError)
  }
}
