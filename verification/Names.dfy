/** The parameter names and fixed values of the two OAuth endpoints. */
module Names {
  import opened Bytes

  const CLIENT_ID: Text := "client_id"
  const CLIENT_SECRET: Text := "client_secret"
  const REDIRECT_URI: Text := "redirect_uri"
  const RESPONSE_TYPE: Text := "response_type"
  const CODE: Text := "code"
  const CODE_CHALLENGE: Text := "code_challenge"
  const CODE_CHALLENGE_METHOD: Text := "code_challenge_method"
  const S256: Text := "S256"
  const STATE: Text := "state"
  const ERROR: Text := "error"
  const GRANT_TYPE: Text := "grant_type"
  const CODE_VERIFIER: Text := "code_verifier"
  const REFRESH_TOKEN: Text := "refresh_token"
  const AUTHORIZATION_CODE: Text := "authorization_code"
  const CLIENT_CREDENTIALS: Text := "client_credentials"
  const FORM_MEDIA_TYPE: Text := "application/x-www-form-urlencoded"

  const INVALID_REQUEST: Text := "invalid_request"
  const UNSUPPORTED_RESPONSE_TYPE: Text := "unsupported_response_type"
  const ACCESS_DENIED: Text := "access_denied"
}
