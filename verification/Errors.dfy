/** The error answers of the mock server. */
module Errors {
  datatype ApiError =
    | MethodNotAllowed
    | UnsupportedMediaType
    | PayloadTooLarge
    | InvalidRequest
    | InvalidClient
    | InvalidClientCredentials
    | UnsupportedGrant
    | InvalidGrantError
    | Internal
}
