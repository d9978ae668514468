/** The failures the services report. Each stands for an exception the
    source throws or lets propagate. */
module Errors {
  import opened Jwt

  datatype ServiceError =
    | AuthenticationFailed     // the authentication manager rejects the credentials
    | UserNotFound             // UserNotFoundException
    | RoleNotFound             // RoleNotFoundException
    | EmailTaken               // the user store's unique email constraint
    | DuplicateToken           // the ledger's unique token-string constraint
    | InvalidJwt(cause: JwtError) // an exception of the token parser
}
