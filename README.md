# Token lifecycle of JWT-Auth-Spring-Boot-3, modelled in Dafny

This project models the token lifecycle of the `io.bytecloud.auth` Spring Boot
service:

- minting and reading HS256-signed JSON Web Tokens (`JwtAuthenticationService`);
- the ledger of issued access tokens (`Token`, `TokenService`);
- the user and role lookups the services depend on (`UserService`, `RoleService`);
- the flows that change the ledger: sign-up, sign-in, refresh (`AuthenticationService`) and logout (`LogoutHandlerImpl`).

The wall clock is a `now` parameter in milliseconds. The signing key and the
HMAC-SHA-256 primitive are fields of a `JwtSettings` value. Token building
and reading are therefore pure functions.

The ledger is a `TokenLedger` class holding the `Token` entity objects, as one
persistence context holds them:

- a lookup returns the stored object;
- `setExpired`/`setRevoked` change that object in place;
- saving an object the ledger already holds flushes it;
- saving a new object inserts it, unless its token string is taken (the column is unique).

Every method that changes the ledger is proved against a function on the
ledger's rows:

| method | rows function |
|---|---|
| sign-in | `SignInOutcome` |
| refresh | `RefreshOutcome` |
| logout | `LogoutRows` |
| revocation of a user's tokens | `RevokeAll` |
| recording a new token | `Record` |

The lifecycle properties are lemmas about those functions:

- after a successful sign-in or refresh, the new access token is the user's only valid token;
- revocation is soft;
- token strings stay unique;
- logout is idempotent;
- a header without a bearer token changes nothing.

Where the code and its design description disagree, the model follows the
code:

- **Refresh with a bad token.** A refresh whose token does not parse (bad signature, malformed, expired) is not a silent no-op. The parser's exception propagates out of `extractUsername`, and the model returns `Failure(InvalidJwt(..))` with the ledger unchanged. An unknown subject or a missing role is an error too, not a no-op (`RefreshDecisionCases`, `RefreshFailureKeepsRows`, `RefreshWithForeignToken`, `RefreshWithBuiltToken`).
- **Tokens with a zero lifetime.** Such a token is not always rejected at once. Issue time and expiration are stored in whole seconds (truncated), and expiry is the strict test `exp < now`. So a zero-lifetime token built on an exact second is still accepted at that instant (`ZeroLifetime`).
- **Duplicate tokens.** A duplicate token string is reachable. Two tokens for the same user, minted in the same second with a lifetime of whole seconds, are the same string. So a second sign-in in the same second, or a refresh in the same second as the sign-in, revokes the user's valid token and then fails to record its own. The user is left with no valid token (`SignInTwiceInOneSecond`, `RefreshRightAfterSignIn`).
- **Users without a role.** Authentication loads the user's authorities (`ApplicationConfig.userDetailsService`). A user whose role is missing therefore cannot sign in.
- **The validity check in refresh.** After a successful parse at the same instant, the validity check in refresh never answers "no". The subject was read from the token itself, and an expired token does not parse. A refresh that does nothing had no bearer token or a token without a subject (`RefreshNeverDeclines`).

## Model

Source paths are relative to the repository root.

| member | source | states |
|---|---|---|
| Jwt.Put | src/main/java/io/bytecloud/auth/security/JwtAuthenticationService.java:101-104 | putting a claim makes it readable with the new value and keeps every other claim; an existing name is replaced at its first position, a new name is appended at the end |
| Jwt.Seconds | src/main/java/io/bytecloud/auth/security/JwtAuthenticationService.java:103-104 | a millisecond instant truncated to whole seconds toward zero, as the NumericDate claims store it |
| Jwt.BuildClaims | src/main/java/io/bytecloud/auth/security/JwtAuthenticationService.java:100-104 | sub, iat and exp are set after the extra claims and override any of those names; every other extra claim is kept |
| Jwt.ParseClaimsJws | src/main/java/io/bytecloud/auth/security/JwtAuthenticationService.java:148-155 | claims are returned only from a token of three segments whose signature is the configured key's MAC of the first two; the claims are the decoded payload, with a numeric expiration not before now |
| Jwt.BuildToken | src/main/java/io/bytecloud/auth/security/JwtAuthenticationService.java:95-107 | the compact form of BuildClaims with iat = now and exp = now + lifetime in seconds, signed with the configured key; BuiltTokenReadBack and BuiltTokenValidity state what parsing it gives |
| Jwt.GenerateAccessTokenWithClaims | src/main/java/io/bytecloud/auth/security/JwtAuthenticationService.java:70-75 | BuildToken with the given extra claims and the access lifetime |
| Jwt.GenerateAccessToken | src/main/java/io/bytecloud/auth/security/JwtAuthenticationService.java:58-60 | BuildToken with no extra claims and the access lifetime; GeneratedAccessTokenClaims states its claims |
| Jwt.GenerateRefreshToken | src/main/java/io/bytecloud/auth/security/JwtAuthenticationService.java:83-85 | BuildToken with no extra claims and the refresh lifetime; GeneratedRefreshTokenClaims states its claims |
| Jwt.ExtractUsername | src/main/java/io/bytecloud/auth/security/JwtAuthenticationService.java:35-37 | the subject of the parsed claims, or the parse failure; BuiltTokenReadBack states it for built tokens |
| Jwt.IsTokenExpired | src/main/java/io/bytecloud/auth/security/JwtAuthenticationService.java:128-140 | parser failures propagate; an absent expiration is a null dereference; otherwise the parsed token is not expired |
| Jwt.IsTokenValid | src/main/java/io/bytecloud/auth/security/JwtAuthenticationService.java:116-120 | true exactly when the token parses under the key, its subject equals the username, and it has an expiration not before now; false only on a subject mismatch |
| Jwt.ParseCompact | src/main/java/io/bytecloud/auth/security/JwtAuthenticationService.java:148-155 | a claims set signed with the configured key parses back to itself unless expired |
| Jwt.ParseUnderOtherKey | src/main/java/io/bytecloud/auth/security/JwtAuthenticationService.java:148-165 | a token signed under a key whose signature differs yields SignatureMismatch and no claims |
| Jwt.BuiltTokenReadBack | src/main/java/io/bytecloud/auth/security/JwtAuthenticationService.java:35-37 | a built token reads back its username as subject, whatever the extra claims, and its expiration as issue time plus lifetime, until that expiration has passed |
| Jwt.BuildWithoutExtraClaims | src/main/java/io/bytecloud/auth/security/JwtAuthenticationService.java:58-60 | with an empty extra-claims map the claims are exactly sub, iat, exp in that order |
| Jwt.PlainTokenClaims | src/main/java/io/bytecloud/auth/security/JwtAuthenticationService.java:95-107 | a token built without extra claims parses to exactly sub, iat and exp = iat + ttl (in seconds) unless expired |
| Jwt.GeneratedAccessTokenClaims | src/main/java/io/bytecloud/auth/security/JwtAuthenticationService.java:70-75 | the access token's expiration is accessExpiration after its issue time |
| Jwt.GeneratedRefreshTokenClaims | src/main/java/io/bytecloud/auth/security/JwtAuthenticationService.java:83-85 | the refresh token's expiration is refreshExpiration after its issue time |
| Jwt.ExpiryIsStrict | src/main/java/io/bytecloud/auth/security/JwtAuthenticationService.java:128-130 | an expiration equal to now is not expired; one before now is rejected |
| Jwt.ZeroLifetime | src/main/java/io/bytecloud/auth/security/JwtAuthenticationService.java:103-104 | a zero-lifetime token is rejected at once unless it was built on a whole second |
| Jwt.BuiltTokenValidity | src/main/java/io/bytecloud/auth/security/JwtAuthenticationService.java:116-120 | a built token is valid for its own user until its expiration has passed, then rejected as expired |
| Jwt.FreshTokenIsValid | src/main/java/io/bytecloud/auth/security/JwtAuthenticationService.java:116-120 | with a lifetime of at least a second a freshly built token is valid for its user |
| Jwt.SameSecondSameExpiry | src/main/java/io/bytecloud/auth/security/JwtAuthenticationService.java:103-104 | two instants in the same second give the same iat and exp for a whole-second lifetime |
| Jwt.SameSecondSameAccessToken | src/main/java/io/bytecloud/auth/security/JwtAuthenticationService.java:58-60 | with an access lifetime of whole seconds, access tokens for one user minted in the same second are the same string |
| Headers.BearerToken | src/main/java/io/bytecloud/auth/service/AuthenticationService.java:96-99 | a credential exactly when the header is present and starts with "Bearer ", and then it is the rest of the header |
| Headers.BearerRoundTrip | src/main/java/io/bytecloud/auth/security/LogoutHandlerImpl.java:36-41 | the credential of "Bearer " + token is the token |
| Users.FindUser | src/main/java/io/bytecloud/auth/service/UserService.java:21-24 | a stored user with that email, or UserNotFound exactly when no user has it |
| Users.FindUserUnique | src/main/java/io/bytecloud/auth/service/UserService.java:21-24 | with unique emails, the lookup of a stored user's email finds that user |
| Users.FindUserById | src/main/java/io/bytecloud/auth/service/RoleService.java:39-40 | the stored user with that id, or none exactly when no user has it |
| Users.UserStore.GetUserByEmail | src/main/java/io/bytecloud/auth/service/UserService.java:21-24 | a stored user with that email, or UserNotFound exactly when no user has it |
| Users.UserStore.SaveUser | src/main/java/io/bytecloud/auth/service/UserService.java:32-34 | a new user with a fresh id is appended and then found by its email; a taken email is refused and nothing changes |
| Roles.FindRole | src/main/java/io/bytecloud/auth/service/RoleService.java:26-29 | the stored role with that name, or RoleNotFound exactly when none has it |
| Roles.RoleOfUser | src/main/java/io/bytecloud/auth/service/RoleService.java:39-40 | the user's stored role, found exactly when the user exists, has a role, and the role is stored; RoleNotFound otherwise |
| Roles.RoleStore.GetRole | src/main/java/io/bytecloud/auth/service/RoleService.java:26-29 | the stored role with that name, or RoleNotFound exactly when none has it |
| Roles.RoleStore.GetAuthorities | src/main/java/io/bytecloud/auth/service/RoleService.java:38-49 | RoleNotFound when the user's role is not found, otherwise the authority list of the role |
| Roles.AuthoritiesShape | src/main/java/io/bytecloud/auth/service/RoleService.java:42-46 | one authority per permission plus one; the leading ones are the permission names in order, the last is "ROLE_" + role name |
| Roles.PermissionNamesShape | src/main/java/io/bytecloud/auth/service/RoleService.java:42-45 | the mapped list has one name per permission, position by position |
| Tokens.Token.constructor | src/main/java/io/bytecloud/auth/model/Token.java:15-35 | a token with the given string, type, flags and owner |
| Tokens.Token.SetExpired | src/main/java/io/bytecloud/auth/model/Token.java:30-31 | only the expired flag changes |
| Tokens.Token.SetRevoked | src/main/java/io/bytecloud/auth/model/Token.java:27-28 | only the revoked flag changes |
| Tokens.Rows | src/main/java/io/bytecloud/auth/model/Token.java:11 | the column values of each stored token, position by position, with the id left out as the entity's equality leaves it out |
| Tokens.UniqueTokensRows | src/main/java/io/bytecloud/auth/model/Token.java:20-21 | unique token strings among the objects are unique strings among their rows |
| Tokens.FindToken | src/main/java/io/bytecloud/auth/service/TokenService.java:22-24 | a stored token with that string, or empty exactly when none has it |
| Tokens.FindStoredToken | src/main/java/io/bytecloud/auth/service/TokenService.java:22-24 | with unique strings, the lookup of a stored token's string returns that very token |
| Tokens.ValidRows | src/main/java/io/bytecloud/auth/service/TokenService.java:32-34 | a row is listed exactly when it is stored, owned by the user, and neither revoked nor expired |
| Tokens.ValidTokens | src/main/java/io/bytecloud/auth/service/TokenService.java:32-34 | the listed tokens are exactly the stored valid tokens of the user, no other user's, and their rows are the user's valid rows |
| Tokens.ValidTokensMembership | src/main/java/io/bytecloud/auth/service/TokenService.java:32-34 | a stored token is listed exactly when its row is the user's and valid |
| Tokens.RevokeEach | src/main/java/io/bytecloud/auth/service/AuthenticationService.java:149-152 | every token of the list has both flags set in place, and nothing else of it changes |
| Tokens.Save | src/main/java/io/bytecloud/auth/service/TokenService.java:41-43 | fails with DuplicateToken exactly when the token is new and its string is taken; otherwise the token is stored afterwards, nothing is removed, and at most one token is added |
| Tokens.SaveAll | src/main/java/io/bytecloud/auth/service/TokenService.java:50-52 | fails only with DuplicateToken; otherwise every token of the batch is stored afterwards and nothing is removed |
| Tokens.SaveProperties | src/main/java/io/bytecloud/auth/service/TokenService.java:41-43 | a save keeps strings unique, removes nothing, and afterwards the string looks up the saved object itself |
| Tokens.SaveAllStored | src/main/java/io/bytecloud/auth/service/TokenService.java:50-52 | saving a batch of already stored tokens inserts nothing |
| Tokens.SaveAllProperties | src/main/java/io/bytecloud/auth/service/TokenService.java:50-52 | a batch save keeps strings unique and removes nothing |
| Tokens.Record | src/main/java/io/bytecloud/auth/model/Token.java:20-21 | a new row is refused with DuplicateToken exactly when its string is taken, otherwise appended |
| Tokens.SaveNewRecords | src/main/java/io/bytecloud/auth/service/TokenService.java:41-43 | saving a new token object is, on rows, recording its row |
| Tokens.TokenLedger.SaveToken | src/main/java/io/bytecloud/auth/service/TokenService.java:41-43 | the ledger becomes the effect of one save, or stays as it was when the string is taken; strings stay unique |
| Tokens.TokenLedger.SaveAllTokens | src/main/java/io/bytecloud/auth/service/TokenService.java:50-52 | the ledger becomes the effect of saving each token in turn, or stays as it was when one save fails |
| Tokens.TokenLedger.GetToken | src/main/java/io/bytecloud/auth/service/TokenService.java:22-24 | a stored token with that string, or empty exactly when none has it |
| Tokens.TokenLedger.GetAllValidTokens | src/main/java/io/bytecloud/auth/service/TokenService.java:32-34 | exactly the stored tokens of the user that are neither revoked nor expired, and their rows are the user's valid rows |
| Authentication.RevokeAll | src/main/java/io/bytecloud/auth/service/AuthenticationService.java:144-155 | every valid row of the user gets both flags; every other row, and every row's string and owner, is unchanged |
| Authentication.RevokeAllValidRows | src/main/java/io/bytecloud/auth/service/AuthenticationService.java:144-155 | afterwards the user has no valid row and every other user keeps exactly their valid rows |
| Authentication.ValidRowsAppend | src/main/java/io/bytecloud/auth/service/AuthenticationService.java:127-137 | appending a row adds it to its owner's valid rows exactly when it is valid |
| Authentication.RevokedContents | src/main/java/io/bytecloud/auth/service/AuthenticationService.java:145-152 | setting the flags on the listed objects in place turns the ledger's rows into RevokeAll of them |
| Authentication.Supersede | src/main/java/io/bytecloud/auth/service/AuthenticationService.java:73-74 | revocation of the user's valid rows, then recording the new row; SupersedeSingleValid, SupersedeIsSoft and SupersedeKeepsUnique state its effect |
| Authentication.SupersedeSingleValid | src/main/java/io/bytecloud/auth/service/AuthenticationService.java:73-74 | after a supersession that records its token, that token is the user's only valid row and other users keep theirs |
| Authentication.SupersedeIsSoft | src/main/java/io/bytecloud/auth/service/AuthenticationService.java:144-155 | no row is deleted, strings and owners are kept, and no flag is ever cleared |
| Authentication.SupersedeKeepsUnique | src/main/java/io/bytecloud/auth/model/Token.java:20-21 | supersession keeps token strings unique |
| Authentication.SupersedeKeepsFlagsAgree | src/main/java/io/bytecloud/auth/service/AuthenticationService.java:149-152 | rows whose two flags agree keep agreeing |
| Authentication.FlagsAgreeValidity | src/main/java/io/bytecloud/auth/service/TokenService.java:32-34 | when the flags agree, "not revoked or not expired" and "neither" select the same tokens |
| Authentication.SameTokenTwice | src/main/java/io/bytecloud/auth/service/AuthenticationService.java:73-74 | superseding twice with one string: the second revokes the first's token, fails with DuplicateToken, and leaves the user no valid row |
| Authentication.Authenticate | src/main/java/io/bytecloud/auth/config/ApplicationConfig.java:35-43 | success exactly when a user with that email is stored, the user's role is found and the password matches, and then it is that user; every failure is AuthenticationFailed |
| Authentication.RefreshDecision | src/main/java/io/bytecloud/auth/service/AuthenticationService.java:94-108 | no bearer header means do nothing; every failure is a token error, UserNotFound or RoleNotFound; a decision to supersede names a stored user whose email is the token's subject and for whom the token is valid |
| Authentication.RefreshWithForeignToken | src/main/java/io/bytecloud/auth/service/AuthenticationService.java:99 | a token signed under another key fails with a signature error |
| Authentication.RefreshWithBuiltToken | src/main/java/io/bytecloud/auth/service/AuthenticationService.java:99-108 | any token built for a stored user with a role is accepted until its expiration, then fails as expired |
| Authentication.RefreshWithRefreshToken | src/main/java/io/bytecloud/auth/service/AuthenticationService.java:99-108 | the refresh token issued at sign-in refreshes until it expires |
| Authentication.RefreshWithAccessToken | src/main/java/io/bytecloud/auth/service/AuthenticationService.java:99-108 | an unexpired access token is accepted as a refresh token too |
| Authentication.Reissued | src/main/java/io/bytecloud/auth/service/AuthenticationService.java:70-74 | a new access token for the user, the user's tokens superseded with it, and the pair with the given refresh token, or the recording failure |
| Authentication.SignInOutcome | src/main/java/io/bytecloud/auth/service/AuthenticationService.java:57-77 | sign-in on the rows: an authentication failure changes nothing, otherwise Reissued with a new refresh token; SignInLeavesOneValidToken and SignInFailure state its effect |
| Authentication.RefreshOutcome | src/main/java/io/bytecloud/auth/service/AuthenticationService.java:88-119 | refresh on the rows: RefreshDecision, then Reissued with the presented token; RefreshLeavesOneValidToken and RefreshFailureKeepsRows state its effect |
| Authentication.SignInLeavesOneValidToken | src/main/java/io/bytecloud/auth/service/AuthenticationService.java:57-77 | a successful sign-in answers with the access and refresh tokens of its instant, the access token is the user's only valid token, and other users keep theirs |
| Authentication.SignInFailure | src/main/java/io/bytecloud/auth/service/AuthenticationService.java:57-77 | a failed sign-in either failed authentication and changed nothing, or failed with DuplicateToken after revoking the user's tokens |
| Authentication.SignInTwiceInOneSecond | src/main/java/io/bytecloud/auth/service/AuthenticationService.java:70-74 | a second sign-in in the same second fails with DuplicateToken and leaves the user no valid token |
| Authentication.RefreshRightAfterSignIn | src/main/java/io/bytecloud/auth/service/AuthenticationService.java:109-112 | a refresh in the same second as the sign-in fails with DuplicateToken and leaves the user no valid token |
| Authentication.RefreshLeavesOneValidToken | src/main/java/io/bytecloud/auth/service/AuthenticationService.java:108-116 | a successful refresh answers with a new access token and the presented token unchanged, the new access token is the user's only valid token, and other users keep theirs |
| Authentication.RefreshNeverDeclines | src/main/java/io/bytecloud/auth/service/AuthenticationService.java:101-108 | a refresh that does nothing had no bearer token or a token without subject: the validity check never answers no |
| Authentication.RefreshDecisionCases | src/main/java/io/bytecloud/auth/service/AuthenticationService.java:96-108 | with a bearer token: a parse failure is InvalidJwt of that failure; no subject does nothing; a subject naming no stored user is UserNotFound; a user without a role is RoleNotFound; otherwise the user's tokens are superseded, or NullClaim when the token has no expiration |
| Authentication.RefreshFailureKeepsRows | src/main/java/io/bytecloud/auth/service/AuthenticationService.java:88-119 | a refresh that does nothing, or fails with any error but DuplicateToken, leaves the rows unchanged and reports the decision's error; DuplicateToken comes only after a decision to supersede and leaves the user's tokens revoked |
| Authentication.AuthenticationService.constructor | src/main/java/io/bytecloud/auth/service/AuthenticationService.java:25-34 | the service over a token ledger and user store whose invariants hold, with the role store joined to that user store; the service invariant holds |
| Authentication.AuthenticationService.SignUp | src/main/java/io/bytecloud/auth/service/AuthenticationService.java:41-49 | a missing USER role fails with RoleNotFound; a taken email fails with EmailTaken; otherwise the user with the encoded password and the USER role is appended; no token is issued |
| Authentication.AuthenticationService.SaveUserToken | src/main/java/io/bytecloud/auth/service/AuthenticationService.java:127-137 | the ledger's rows become Record of a bearer row with both flags clear owned by the user, or stay when the string is taken; no row is removed |
| Authentication.AuthenticationService.RevokeAllUserTokens | src/main/java/io/bytecloud/auth/service/AuthenticationService.java:144-155 | the ledger's rows become RevokeAll of the old rows; the set of stored objects is unchanged |
| Authentication.AuthenticationService.SupersedeTokens | src/main/java/io/bytecloud/auth/service/AuthenticationService.java:73-74 | the ledger's rows and the result are Supersede of the old rows |
| Authentication.AuthenticationService.AuthenticateUser | src/main/java/io/bytecloud/auth/service/AuthenticationService.java:58-63 | the result is the verdict Authenticate gives on the stores |
| Authentication.AuthenticationService.Reissue | src/main/java/io/bytecloud/auth/service/AuthenticationService.java:109-116 | the ledger's rows and the answer are Reissued of the old rows |
| Authentication.AuthenticationService.SignIn | src/main/java/io/bytecloud/auth/service/AuthenticationService.java:57-77 | the ledger's rows and the answer are SignInOutcome of the old rows and stores |
| Authentication.AuthenticationService.DecideRefresh | src/main/java/io/bytecloud/auth/service/AuthenticationService.java:94-108 | the checks before any write give RefreshDecision and change nothing |
| Authentication.AuthenticationService.RefreshToken | src/main/java/io/bytecloud/auth/service/AuthenticationService.java:88-119 | the ledger's rows and the answer are RefreshOutcome of the old rows and stores |
| Logout.RevokeToken | src/main/java/io/bytecloud/auth/security/LogoutHandlerImpl.java:48-54 | the row with the presented string gets both flags; no other row changes |
| Logout.LogoutRows | src/main/java/io/bytecloud/auth/security/LogoutHandlerImpl.java:27-59 | logout on the rows: nothing without a bearer token, otherwise RevokeToken of the presented string; LogoutValidity and LogoutIdempotent state its effect |
| Logout.LogoutValidity | src/main/java/io/bytecloud/auth/security/LogoutHandlerImpl.java:36-54 | strings and owners are kept; a row is valid afterwards exactly when it was and does not carry the presented token; no bearer header, or an unknown token, changes nothing |
| Logout.LogoutIdempotent | src/main/java/io/bytecloud/auth/security/LogoutHandlerImpl.java:50-54 | two logouts with the same header leave the ledger as one does |
| Logout.LogoutKeepsInvariants | src/main/java/io/bytecloud/auth/security/LogoutHandlerImpl.java:50-54 | logout keeps token strings unique and the two flags in agreement |
| Logout.LogoutSoleValidToken | src/main/java/io/bytecloud/auth/security/LogoutHandlerImpl.java:44-54 | logging out with a user's only valid token leaves the user none and other users what they had |
| Logout.LogoutAfterSignIn | src/main/java/io/bytecloud/auth/security/LogoutHandlerImpl.java:44-54 | logging out with the access token a sign-in returned leaves the user no valid token and other users what they had before the sign-in |
| Logout.ValidRowsDropToken | src/main/java/io/bytecloud/auth/security/LogoutHandlerImpl.java:50-51 | after revoking one string, a user's valid rows are the earlier ones without that string |
| Logout.RevokedStoredToken | src/main/java/io/bytecloud/auth/security/LogoutHandlerImpl.java:44-51 | setting both flags on the looked-up object turns the ledger's rows into RevokeToken of them |
| Logout.LogoutHandler.Logout | src/main/java/io/bytecloud/auth/security/LogoutHandlerImpl.java:27-59 | the ledger's rows become LogoutRows of the old rows; no object is added or removed |

## Left out

- HMAC-SHA-256 and base64 key decoding (`getSignInKey`): the signature is an arbitrary keyed function `hs256` in `JwtSettings`, and the key is the decoded bytes.
- Base64url-encoded JSON in the compact form: replaced by an injective text encoding with the same three-segment, '.'-separated structure. Token strings are therefore not byte-identical to the library's.
- Algorithms other than HS256 and the library's other parse failures: a header naming another algorithm is one `UnsupportedJwt` error.
- BCrypt: sign-up takes the already encoded password, and sign-in takes the password check `passwordMatches` as a parameter.
- Spring Security's authentication manager and provider: reduced to loading the user by email, loading the user's authorities, and checking the password. Any failure is `AuthenticationFailed`.
- `UserDetailsImpl`: its username is the user's email, which is what it is constructed with. The authorities it carries are loaded and discarded, since no claim uses them.
- Clock reads: each request sees a single `now`. The source reads the clock separately for iat, exp and the expiry test, a few milliseconds apart.
- Java `long` overflow of `now + expiration`: integers are unbounded.
- The generated `id` of `Token`: rows leave it out, as the entity's equality does.
- The `TokenRepository` query behind `getAllValidTokens`: its text is not part of this model. A token is taken as valid when neither flag is set. `FlagsAgreeValidity` shows that "not revoked or not expired" selects the same tokens whenever the flags agree, and every write of the service keeps them agreeing.
- `RoleType`: role names are strings, and the sign-up role is "USER".
- The repository's transaction handling: `saveAllTokens` is all-or-nothing on the stored objects. A failed batch does not undo the flag changes already made to the objects in memory.
- Concurrency between requests: the model is sequential.
- HTTP, servlet objects, `ObjectMapper` output and `IOException`: a refresh returns an optional token pair instead of writing a body.
- `SecurityContextHolder.clearContext()` in logout: global framework state.
- The controller and Spring bean wiring.
- Users.UserStore.SaveUser: models saving a new user only. Saving an existing entity again, which JPA would merge, is never done by the core.
