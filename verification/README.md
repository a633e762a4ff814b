# Session credentials of the Veridian backend, in Dafny

This project models the part of the Veridian Go backend that issues and checks
user credentials, and proves properties of the model:

- **Password** (`password.go`): the strength policy, the
  `$argon2id$v=19$m=…,t=…,p=…$salt$key` digest format and its parser, and
  password verification. Argon2id is a function-valued parameter.
- **Jwt** (`jwt.go`): the access and refresh tokens as signed claim sets, the
  JSON reading of `JWTClaims`, and the library's time checks. The HMAC
  signature is a symbolic constructor over the secret.
- **Gate** (`middleware/auth.go`): the `Authorization` header check, the
  request context the middleware fills, and `RequireAuth`.
- **Store** (user and refresh-token tables): the queries the handlers call,
  over a sequence of users and a map from token hash to session record.
- **Handlers** (`handlers/auth_handler.go`): register, login, refresh, logout,
  profile and change-password. Each is a function from the store and the
  request to the new store and the response (status and body).
- **Lifecycle**: properties that span several requests.
- **NetAddr**: `parseIPToNetip`.
- **Text, Base64, Uuid, Base**: the pieces of Go's `strings`, `fmt.Sscanf`,
  `encoding/base64` (raw standard alphabet) and `google/uuid` the core relies on.

Everything a request takes from outside is an explicit parameter (`Handlers.Env`):

- the clock (unix seconds);
- the random salt;
- new user ids and JWT ids;
- the record id the database assigns;
- the client's user agent and address;
- which store calls fail (the duplicate-e-mail read and the writes).

Token issuance goes through `Handlers.Issuer`. `Handlers.StandardIssuer` is
the manager's own `GenerateAccessToken`/`GenerateRefreshToken`, and the lemmas
about real tokens require it.

Two places in the code differ from its evident intent, in the handlers'
reach. `Handlers.Variant` selects either behaviour:

- a stored digest whose costs make argon2 panic;
- a refresh token whose record was revoked.

`AsWritten` is the code; `Corrected` is the evident intent.

## Model

| member | source | states |
|---|---|---|
| Password.ValidatePasswordStrength | backend/internal/auth/password.go:108-154 | Byte length under 8 gives the too-short error and over 128 the too-long error. Otherwise the first missing class, in the order upper, lower, number, special, is the error. The password is accepted iff the length is 8..128 and all four classes occur. |
| Password.StrengthMessage | backend/internal/auth/password.go:110-150 | Each rule's error text, word for word as the code returns it; every one starts with "password must ". |
| Password.ScanClasses | backend/internal/auth/password.go:117-135 | Each flag is raised iff some rune of the password lies in that class's ASCII ranges. |
| Password.LengthCountsBytes | backend/internal/auth/password.go:109-115 | A six-character password with two 3-byte runes passes the length rule, because Go's `len` counts bytes. |
| Password.HashPassword | backend/internal/auth/password.go:35-53 | A failed salt read gives an error. Otherwise the digest is the six-field text of the manager's costs, the salt and the KDF output. |
| Password.ParseHash | backend/internal/auth/password.go:71-105 | A text without exactly five `$` fails with the format error. Success implies the algorithm field is `argon2id` and the version is 19. |
| Password.ParseFields | backend/internal/auth/password.go:72-88 | Other than six fields is the format error. Success needs `argon2id` and version 19. |
| Text.ScanInt | backend/internal/auth/password.go:82 | `%d` into an `int`: success gives a value within the 64-bit range, consumes at least one rune, and leaves a suffix of the input that does not start with a digit. |
| Text.ScanUint | backend/internal/auth/password.go:90 | `%d` into an unsigned field: success gives a value no larger than the field's maximum, consumes at least one rune, and leaves a suffix that does not start with a digit. |
| Base64.Decode | backend/internal/auth/password.go:94-102 | Raw standard base64 decodes iff, with line breaks dropped, every rune is in the alphabet and the length is not 1 modulo 4; the result has three bytes for every four runes. |
| Password.ParseEncodeDigest | backend/internal/auth/password.go:51-52 | Parsing a printed digest gives back exactly its memory, passes, lanes, salt bytes and key bytes. |
| Password.LeadingFieldIgnored | backend/internal/auth/password.go:72-79 | Text before the first `$` is never checked: any `$`-free prefix still parses. |
| Password.DistinctSaltsDistinctDigests | backend/internal/auth/password.go:37-52 | Two different salts give two different digests of the same password. |
| Password.VerifyPasswordAsWritten | backend/internal/auth/password.go:56-68 | A parse error is returned as an error, never as acceptance. Argon2 panics iff the digest parses with zero passes or zero lanes. Otherwise the answer is whether the recomputed key equals the stored key. |
| Password.VerifyPassword | backend/internal/auth/password.go:56-68 | The same verification, but it never panics, and it agrees with the as-written one wherever that does not panic. |
| Password.VerifyHashedPassword | backend/internal/auth/password.go:35-68 | A digest the manager printed for a password verifies that password. |
| Password.VerifyOtherPassword | backend/internal/auth/password.go:64-67 | A password whose derived key differs from the stored key is refused with `Ok(false)`. |
| Password.ZeroPassDigestPanics | backend/internal/auth/password.go:90-92 | A well-formed digest with `t=0` parses, and as written verifying against it panics. |
| Password.DefaultCostsUsable | backend/internal/auth/password.go:24-32 | The default manager's costs (3 passes, 4 lanes) never make the KDF panic. |
| Jwt.Promote | backend/internal/auth/jwt.go:11-22 | JSON of a struct with an embedded struct: the outer fields win, and embedded fields appear only under keys the outer struct lacks. |
| Jwt.EncodeAccessIsOuter | backend/internal/auth/jwt.go:11-22 | The JSON of `JWTClaims` is exactly its own eight fields; the embedded registered claims never reach it. |
| Jwt.AccessRegisteredAlwaysEmpty | backend/internal/auth/jwt.go:11-22 | Decoding any payload into `JWTClaims` leaves the embedded registered claims empty. |
| Jwt.CheckTimes | backend/internal/auth/jwt.go:104-113 | The library time check passes iff a present exp is after now and a present nbf is not after now. iat is not checked. |
| Jwt.ParseWithClaims | backend/internal/auth/jwt.go:104-117 | Success implies an HMAC algorithm, a signature under the secret, a payload that decodes, and passing time checks. |
| Jwt.ValidateAccessTokenAsWritten | backend/internal/auth/jwt.go:103-134 | Success implies the HMAC signature under the secret and the manager's audience and issuer. |
| Jwt.ValidateAccessToken | backend/internal/auth/jwt.go:103-134 | Success also implies nbf <= now < exp. It accepts exactly the tokens the as-written validation accepts, with the expiry enforced. |
| Jwt.ValidateRefreshToken | backend/internal/auth/jwt.go:137-168 | Success implies the HMAC signature under the secret, a non-empty audience whose first entry is the manager's, its issuer, and passing time checks. |
| Jwt.GenerateAccessToken | backend/internal/auth/jwt.go:45-76 | The reported expiry is the issue time plus the access lifetime, and the token is HS256-signed under the manager's secret. |
| Jwt.GenerateRefreshToken | backend/internal/auth/jwt.go:79-100 | The reported expiry is the issue time plus the refresh lifetime, and the token is HS256-signed under the manager's secret. |
| Jwt.ExtractUserIdFromRefreshToken | backend/internal/auth/jwt.go:171-183 | A validation error is passed on. Success returns the subject parsed as a UUID. Like `uuid.Parse`, which picks the format by byte length, it refuses a subject that is not ASCII text. |
| Uuid.NonAsciiRefused | backend/internal/auth/jwt.go:177-180 | A rendered identifier behind a two-byte rune is 39 bytes long, so the subject parse refuses it, though it is 38 runes long. |
| Uuid.Parse | backend/internal/auth/jwt.go:177 | `uuid.Parse`: only ASCII text is accepted, with a byte length of 32, 36, 38 or 45. |
| Jwt.NonHmacRejected | backend/internal/auth/jwt.go:104-109 | A token with a non-HMAC algorithm is refused by all three validations. |
| Jwt.OtherSecretRejected | backend/internal/auth/jwt.go:104-113 | A token one manager accepts is refused by a manager with a different secret. |
| Jwt.DecodeEncodeRegistered | backend/internal/auth/jwt.go:83-91 | Registered claims survive JSON encoding and decoding unchanged. |
| Jwt.DecodeEncodeAccess | backend/internal/auth/jwt.go:49-67 | Access claims with `int64` times survive encoding and decoding, except the embedded part, which comes back empty. |
| Jwt.IssueValidateAccess | backend/internal/auth/jwt.go:45-134 | A fresh access token expires at now + TTL. Within its lifetime it validates to the same user id, e-mail, issuer and audience, with iat = nbf = issue time. |
| Jwt.AccessNeverExpiresAsWritten | backend/internal/auth/jwt.go:11-22 | As written, a fresh access token validates at every later instant. |
| Jwt.AccessExpires | backend/internal/auth/jwt.go:47-53 | With expiry enforced, an access token is refused once now + TTL is reached. |
| Jwt.IssueExtractRefresh | backend/internal/auth/jwt.go:79-183 | A fresh refresh token expires at now + TTL. Within its lifetime, extracting the user gives back exactly that user. |
| Jwt.RefreshExpires | backend/internal/auth/jwt.go:80-86 | A refresh token is refused as expired from now + TTL on. |
| Jwt.RefreshTokenNotAccess | backend/internal/auth/jwt.go:103-122 | A refresh token never passes access validation: its list-valued audience does not decode into `JWTClaims`. |
| Jwt.AccessTokenPassesRefreshValidation | backend/internal/auth/jwt.go:137-183 | An access token passes refresh validation within its lifetime and yields its user. The string `aud` decodes as a one-element list and `sub` is shared. |
| Gate.JwtAuth | backend/internal/middleware/auth.go:13-54 | An empty header gives the "required" 401. A malformed header gives the format 401. A validator error gives "Invalid or expired token". Every abort leaves the context unchanged. The request passes iff the header is well-formed and the trimmed token validates; the context is then the old one with user_id, user_email and jwt_id set from the claims. |
| Gate.BearerToken | backend/internal/middleware/auth.go:26-35 | A token is found only after a leading "Bearer ", is never empty and has no white space at either end; a "Bearer " header without one has only white space after the prefix. |
| Text.SplitN2 | backend/internal/middleware/auth.go:26 | `strings.SplitN(s, sep, 2)`: without the separator, the text itself; otherwise two parts around the first separator. |
| Text.TrimSpace | backend/internal/middleware/auth.go:27-35 | The result is a piece of the input with only white space cut from either end, has no white space at either end, and is empty iff the input is all white space. |
| Gate.ServerAuth | backend/internal/router/router.go:30 | The middleware as installed. A request passes only with a bearer token that the code's `ValidateAccessToken` accepts. |
| Gate.ServerAuthCorrected | backend/internal/middleware/auth.go:38-45 | The same middleware with the intended validation. A request passes only with a bearer token that is accepted and within its lifetime. |
| Gate.SplitMatchesPrefix | backend/internal/middleware/auth.go:26-35 | `SplitN` on the first space yielding "Bearer" and a non-blank rest is the same as a "Bearer " prefix with a non-blank rest, and it yields the same trimmed token. |
| Gate.GetUserId | backend/internal/middleware/auth.go:57-69 | The result is (id, true) iff user_id holds a UUID. Otherwise it is (Nil, false). |
| Gate.GetUserEmail | backend/internal/middleware/auth.go:72-84 | The result is (email, true) iff user_email holds a string. Otherwise it is ("", false). |
| Gate.RequireAuth | backend/internal/middleware/auth.go:87-97 | The 401 "Authentication required" is given iff the id is absent or is the nil UUID. |
| Gate.PassedIdentity | backend/internal/middleware/auth.go:47-69 | After a pass, the handlers read back the claims' user id and e-mail. |
| Gate.AcceptedTokenAdmitted | backend/internal/middleware/auth.go:26-52 | For any validation, "Bearer " followed by a token text it accepts passes, and the context then holds that token's user and e-mail. |
| Gate.ValidTokenAdmitted | backend/internal/middleware/auth.go:26-52 | A token text the installed validation (`ValidateAccessToken` as written) accepts passes the installed middleware `Gate.ServerAuth` with its user and e-mail recorded. When the token is also within its lifetime, the corrected middleware `Gate.ServerAuthCorrected` lets it through the same way. |
| Gate.FreshAccessTokenAdmitted | backend/internal/middleware/auth.go:13-54 | A freshly issued access token, presented within its lifetime, passes both the installed middleware and the corrected one, with its user and e-mail recorded. |
| Gate.ExpiredAccessTokenAdmitted | backend/internal/middleware/auth.go:38-45 | Once an access token's lifetime is over, the installed middleware still lets it through. The corrected one answers 401 "Invalid or expired token" and leaves the context unchanged. |
| NetAddr.ParseAddr | backend/internal/handlers/auth_handler.go:459-461 | A first delimiter of `.` gives the dotted-quad parse, `:` gives the IPv6 parse, and anything else is nothing. |
| NetAddr.ParseIP | backend/internal/handlers/auth_handler.go:453-464 | The empty text gives nothing. Otherwise the result is what the address parser yields, with nothing for a parse failure. |
| NetAddr.ParseFormatV4 | backend/internal/handlers/auth_handler.go:453-464 | A formatted dotted quad parses back to the same address. |
| Store.ConvertTimestamptz | backend/internal/handlers/auth_handler.go:467-472 | The result is nothing iff the timestamp is not valid. Otherwise it is its time. |
| Store.CreateUser | backend/internal/handlers/auth_handler.go:61-72 | The insert succeeds iff neither the e-mail nor the id is taken. Sessions are unchanged and one user is appended. That user is then found by id and by e-mail as active, unverified and never logged in. |
| Store.UserByEmail | backend/internal/handlers/auth_handler.go:147-153 | The result is an active user with that e-mail, and nothing iff there is none. |
| Store.UserById | backend/internal/handlers/auth_handler.go:259-266 | The result is an active user with that id, and nothing iff there is none. |
| Store.GetRefreshToken | backend/internal/database/database_test.go:316-323 | The row under the hash is returned whether revoked or not. |
| Store.CreateRefreshToken | backend/internal/handlers/auth_handler.go:97-103 | The insert succeeds iff the hash and record id are new. It adds exactly that key and changes no other record. |
| Store.RevokeRefreshToken | backend/internal/handlers/auth_handler.go:338 | The record under the hash is revoked. Users, keys and other records are unchanged. |
| Store.RevokeAll | backend/internal/handlers/auth_handler.go:443 | Every record of the user is revoked. Other users' records are unchanged. |
| Store.TouchRefreshToken | backend/internal/handlers/auth_handler.go:309 | The record with that id gets its last use stamped. Nothing else changes. |
| Store.UpdateLastLogin | backend/internal/handlers/auth_handler.go:112 | The user with that id has last login set to now. Every other user, and every session, is unchanged. |
| Store.UpdatePassword | backend/internal/handlers/auth_handler.go:431-440 | The update succeeds iff the id exists, and only that user's digest changes. |
| Store.UserByEmailUnique | backend/internal/database/database_test.go:391-408 | With unique e-mails, looking up a stored user's e-mail finds exactly that user if active. |
| Store.CreateUserInv | backend/internal/database/database_test.go:391-408 | Creating a user keeps ids, e-mails and record ids unique. |
| Store.RevokeIdempotent | backend/internal/handlers/auth_handler.go:334-342 | Revoking a token, or all of a user's tokens, twice is the same as once. |
| Store.RevokeAllEndsSessions | backend/internal/handlers/auth_handler.go:442-443 | After revoking all of a user's tokens, none of that user's records is live, and other users' records are unchanged. |
| Store.LookupsUpToLastLogin | backend/internal/handlers/auth_handler.go:112 | Stamping last-login times changes no lookup by id or e-mail except in that time. |
| Store.LastLoginStamped | backend/internal/handlers/auth_handler.go:203 | After the stamp, the user found by id differs only in last login, which becomes now. |
| Handlers.CheckPassword | backend/internal/handlers/auth_handler.go:156-163 | The corrected variant never panics. An answer implies the digest parsed, and it is yes iff the recomputed key matches. |
| Handlers.Lookup | backend/internal/handlers/auth_handler.go:248-257 | As written, this is the raw row under the hash. Corrected, a row is found iff it is unrevoked and unexpired. |
| Handlers.StartSession | backend/internal/handlers/auth_handler.go:74-129 | Either a session answer with the given status, or the store failure with the store unchanged. On success: exactly one new unrevoked record for the user, keyed by the SHA-256 of the refresh token text, expiring at the refresh expiry; users unchanged except the last login; the user shown as read before the stamp; the issued token texts returned. |
| Handlers.Register | backend/internal/handlers/auth_handler.go:20-130 | A weak password gives its 400 with no store change. A taken e-mail (active or not) gives 409 with no store change when the duplicate check's read succeeds. When that read fails, the taken e-mail falls through, and the answer is a 500 with no store change: the password error, or "Failed to create user" because the insert refuses the duplicate. A 201 means a strong password and a new e-mail, and the new user is findable by id with that e-mail and one session. Every other answer except the token-store failure leaves the store unchanged. |
| Handlers.Enroll | backend/internal/handlers/auth_handler.go:61-129 | Apart from the token-store failure, a failed creation changes nothing. A 201 leaves the new user and one session. |
| Handlers.Login | backend/internal/handlers/auth_handler.go:133-221 | An unknown e-mail, and every 401, is the one "Invalid email or password" answer with the store unchanged. A 200 means the password checked and exactly one session was added for the user found by e-mail, with the previous last login shown. Every other answer leaves the store unchanged. A bare 500 happens only as written. |
| Handlers.Refresh | backend/internal/handlers/auth_handler.go:224-318 | A token that fails extraction gives "Invalid refresh token" with the store unchanged. An unknown hash gives "Invalid or expired refresh token" with the store unchanged. A 200 means the token was valid and found, and the store was rotated. A failed insert leaves the old record revoked and nothing else changed. |
| Handlers.Rotate | backend/internal/handlers/auth_handler.go:268-317 | The presented record is revoked first, then the new hash is stored for the user, then the old record's last use is stamped. Either the 200 session or the store failure. |
| Handlers.Logout | backend/internal/handlers/auth_handler.go:321-343 | The answer is always 200 "Logged out successfully". The store is unchanged or has the presented hash revoked, and revoked when the write succeeds. |
| Handlers.GetProfile | backend/internal/handlers/auth_handler.go:346-373 | Unauthenticated gives 401, and a missing user gives 404. 200 happens iff both checks pass, and it shows that active user. |
| Handlers.ChangePassword | backend/internal/handlers/auth_handler.go:376-448 | Unauthenticated gives 401, and every non-200 leaves the store unchanged. A 200 means the current password checked and the new one is strong. The user's new digest then verifies the new password, and every record of the user is revoked. |
| Handlers.StoreDigest | backend/internal/handlers/auth_handler.go:430-447 | A failed update changes nothing. Success replaces the digest, then revokes all of the user's records. |
| Handlers.PasswordReplaced | backend/internal/handlers/auth_handler.go:421-440 | After the update, the user found by id carries the new digest, and that digest verifies the new password. |
| Lifecycle.RegisterInv | backend/internal/handlers/auth_handler.go:20-130 | Registration keeps user ids, e-mails and record ids unique. |
| Lifecycle.LoginInv | backend/internal/handlers/auth_handler.go:133-221 | Login keeps the store constraints. |
| Lifecycle.RefreshInv | backend/internal/handlers/auth_handler.go:224-318 | Refresh keeps the store constraints. |
| Lifecycle.LogoutInv | backend/internal/handlers/auth_handler.go:321-343 | Logout keeps the store constraints. |
| Lifecycle.ChangePasswordInv | backend/internal/handlers/auth_handler.go:376-448 | A password change keeps the store constraints. |
| Lifecycle.LoginRefusalsAlike | backend/internal/handlers/auth_handler.go:147-163 | Each of these gives the identical 401 with the store unchanged: an unknown e-mail, an unparsable digest, or a wrong password. |
| Lifecycle.ChangePasswordRefusals | backend/internal/handlers/auth_handler.go:403-419 | A wrong current password gives 401 with the store unchanged. A weak new one gives its 400 with the store unchanged. |
| Lifecycle.CheckHashedPassword | backend/internal/handlers/auth_handler.go:52-58 | A digest the handlers store verifies its password in either variant. |
| Lifecycle.RotateSucceeds | backend/internal/handlers/auth_handler.go:286-306 | With a new hash and record id, rotation answers 200. |
| Lifecycle.RegisterThenLogin | backend/internal/handlers/auth_handler.go:20-221 | After a 201 registration, logging in with the same e-mail and password answers 200 whenever the new session can be stored. |
| Lifecycle.LoginThenRefresh | backend/internal/handlers/auth_handler.go:133-318 | The refresh token a login returns, presented within its lifetime, is exchanged with 200 in both variants. |
| Lifecycle.RevokedTokenReplay | backend/internal/handlers/auth_handler.go:247-257 | A token whose record is revoked is exchanged with 200 as written, and refused as unknown as intended. |
| Lifecycle.ReplayAfterLogout | backend/internal/handlers/auth_handler.go:321-343 | After logout, the same refresh token is still exchanged as written, and refused as intended. |
| Lifecycle.ReplayAfterPasswordChange | backend/internal/handlers/auth_handler.go:442-443 | After a password change, an earlier refresh token of the user is still exchanged as written, and refused as intended. |
| Lifecycle.ZeroPassDigestLogin | backend/internal/handlers/auth_handler.go:155-163 | A stored digest with zero passes makes login die with a bare 500 as written. As intended, it is the ordinary 401. |
| Lifecycle.ProfileAfterLogin | backend/internal/handlers/auth_handler.go:202-203 | After a login, the profile shows the user's e-mail and a last login of the login's time. |

## Left out

- **Cryptography.**
  - Argon2id is the parameter `kdf`.
  - HMAC-SHA256 is the symbolic `Jwt.Mac(secret, alg, payload)`.
  - SHA-256 hex of a token is the symbolic `Store.Sha256Hex`.
  - Salts, UUIDs and database ids arrive in `Handlers.Env`.
- **Token text.** The compact JWS serialisation (base64url of header and
  payload) is the parameter `Gate.TokenText`. The lemmas that need it require
  that it reads back what it writes.
- **IPv6.** The colon form of `netip.ParseAddr` is the parameter
  `NetAddr.V6Parser`. Only the dotted-quad parser is modelled in full.
- **Token-generation errors.** The `err != nil` branches after token
  generation in every handler are left out: HS256 signing with a string key
  cannot fail.
- **Request binding.** Gin's binding (the 400 "Invalid request payload") and
  the e-mail format checks in the request structs are left out. Each handler
  takes the already-bound fields.
- **Timestamps and the clock.** `created_at`/`updated_at` columns, and
  `CreatedAt`/`UpdatedAt` in responses, are left out. Times are whole unix
  seconds.
- **The SQL store.**
  - The queries are not part of this model. Their behaviour is stated by the
    `Store` functions, as the handlers and the database tests use them.
  - `GetUserByEmail`/`GetUserByID` are taken to return active users only. The
    separate `GetUserByEmailIncludeInactive` used for the duplicate check
    implies this.
  - `GetRefreshToken` returns revoked rows, as the database test shows.
- **Concurrency.** Concurrency between requests is left out. Each handler is
  one atomic transition.
- **Store read failures.** Only the read of the duplicate-e-mail check in
  Register can fail (`Handlers.Faults.emailCheck`). Every other read is taken
  to succeed. In the code, `GetUserByEmail`, `GetRefreshToken` and
  `GetUserByID` treat any error as not found (auth_handler.go:147-153,
  251-266, 354-360, 395-401). So a failed read of an existing user or row
  answers 401 or 404 there, where the model answers as if the read
  succeeded.
- **Store write failures.** These are flags in `Handlers.Faults`. The handlers
  ignore the error of `UpdateUserLastLogin`, `RevokeRefreshToken`,
  `RevokeAllUserRefreshTokens` and `UpdateRefreshTokenLastUsed`; the model
  continues exactly as the code does.
- Jwt.ValidateAccessToken is the evidently intended validation, with
  expiry enforced. `Jwt.ValidateAccessTokenAsWritten` is the code.
  `Gate.ServerAuth` is the middleware as installed, with the code's
  validation. `Gate.ServerAuthCorrected` uses the intended one.
- Handlers.Lookup with `Corrected` also refuses expired rows. As written,
  expiry of a refresh token is caught only by the JWT check.
- Password.HashPassword: the salt is whatever the random source delivered.
  `crypto/rand.Read` fills exactly `saltLength` bytes, but the model does
  not require the delivered salt to have that length. No property here
  depends on the salt's length.
- **Clock skew.** The library's leeway for clock skew is zero: no leeway is
  configured.

Where the code and its description differ, the model follows the code:

- The strength check reports only the first failing rule.
- Its length limits count bytes.
- Refresh revokes the old record before it inserts the new one.
- The access token's expiry is never checked (finding 1).

## Findings

| source | as written | input that shows it | evidently intended | confidence | as-written member | corrected member |
|---|---|---|---|---|---|---|
| backend/internal/auth/jwt.go:11-22 | `JWTClaims` declares its own `exp`, `nbf` and `iat` fields, which shadow those of the embedded `RegisteredClaims` in JSON. The library's time checks read only the embedded claims, which therefore stay empty, so access tokens never expire. | An access token issued at t, presented at t + accessTTL + 1 | The token is refused once its lifetime is over | high, not executed | Jwt.AccessNeverExpiresAsWritten | Jwt.AccessExpires |
| backend/internal/auth/password.go:90-92 | `parseHash` accepts `t=0` or `p=0`. Verification then calls argon2 with those costs, which panics, and the recovery middleware answers a bare 500 at login. | A stored digest `$argon2id$v=19$m=65536,t=0,p=4$<salt>$<key>` | Reject the digest as unusable, so the login gets the ordinary 401 | high, not executed | Lifecycle.ZeroPassDigestLogin | Password.VerifyPassword |
| backend/internal/handlers/auth_handler.go:251-257 | Refresh accepts any row the hash lookup returns. That lookup returns revoked rows (database test lines 316-323), so a refresh token is still exchanged after logout, after rotation and after a password change. | Log out with refresh token R, then present R to refresh | A revoked (or expired) row is refused with "Invalid or expired refresh token" | medium (the SQL of the lookup is not part of this model), not executed | Lifecycle.ReplayAfterLogout | Handlers.Lookup |
