# Authentication and session lifecycle of a CodeIgniter 4 API, in Dafny

This project models how a multi-tenant CodeIgniter 4 REST API authenticates
its callers and manages their sessions, and proves properties of that model.

- **Session store** (`AuthTokenModel`, module `AuthTokens`). A table of
  session rows, one per issued JWT, keyed by the token's `jti`. It supports
  lookup with a last-use touch, insert, revocation by token or by user,
  expiry clean-up, the per-user cap on concurrent sessions, the active
  session listing, per-user statistics and the retention purge.
- **Controller** (`AuthController`, module `Auth`). `login`, `me`, `logout`
  and `refresh`, with their helpers: payload validation, bearer extraction,
  the claim checks, token issue, the user projection and the TTL default.
- **Filters** (`AuthFilter` and `NoAuthFilter`, module `Gates`). The
  401-or-pass gate in front of protected routes and the 409-or-allow gate in
  front of anonymous-only routes.
- **Response envelope** (`ApiResponseTrait`, module `ApiResponse`).
  `{status, data, message, errors}`, including the per-field normalisation
  of `validationError`.
- **Users** (`UserModel`, module `Users`). Lookup by normalised e-mail and
  tenant, the status checks, the status whitelist and the password-hashing
  write callback.
- **Shared pieces** (modules `Values` and `Text`, plus the claim and token
  helpers in module `Jwt`). PHP values, trimming, lower-casing, PHP's
  `(int)` and `(string)` casts, decimal and hexadecimal text, the bearer
  extractors, the decode rules and token issue.

Both tables are classes over a `seq` of row records. Their methods reassign
the sequence and state the new table exactly: which rows change, and how.

Time is an integer number of seconds, passed in as `now`; every datetime
comparison of the source becomes an integer comparison. The JWT library is
an oracle:

- `verify(token, secret)` gives the claim set when the HS256 signature
  (section 3.2 of RFC 7518) checks out;
- `sign(claims, secret)` gives the compact token.

The model then applies the library's own time rules to the registered claims
of section 4.1 of RFC 7519:

- `exp`: rejected when `now >= exp`;
- `nbf`: rejected when `nbf > now`;
- `iat`: rejected when `iat > now`, used only when there is no `nbf`.

The following are parameters: `password_verify`, `FILTER_VALIDATE_EMAIL`, the
16 random bytes of a `jti`, the environment (`JWT_SECRET`,
`JWT_TTL_SECONDS`, `base_url()`, `ENVIRONMENT`) and the request (the
`Authorization` header, the payload, the IP address and the user agent).

PHP warnings are taken as the framework's error handler raises them: as
exceptions. So a failing cast is an error path, and on the controller it
ends in the catch-all 500. For example:

- `(string)` of an array or an object;
- `(int)` of an object.

The source files declare `strict_types`. A call such as
`findValidByJti($claims['jti'])` with a non-string `jti` therefore throws a
`TypeError`, and the model answers that with the controller's 500.

Where the code differs from what its documentation suggests, the model
follows the code. The one exception is `logout`: the stateful model
replies with the corrected response of the finding below, and the reply
as written is modelled beside it. The differences followed:

- `login` checks the account status before the password, so an inactive
  account answers 403 whatever the password.
- `enforceSessionLimit` orders by `last_used_at` alone. Sessions used at the
  same instant may be kept or revoked in any order, and the contract
  allows every such order.
- The migration makes `(user_id, token)` unique, not `token`. So
  `revokeByJti` stamps every row with that token, under any user, and
  `findValidByJti` returns the first live one in table order.
- `UserModel::isActive` treats a missing status as inactive, while the
  controller's `isUserActive` treats it as active. Both are modelled as
  written.

## Model

| member | source | states |
|---|---|---|
| Values.FirstIndex | app/Models/AuthTokenModel.php:57-62 | `->where(...)->first()` in table order: the first row that satisfies the condition, or None exactly when no row does |
| Text.Trim | app/Filters/AuthFilter.php:81 | PHP `trim`: no longer than the input, no trimmable character at either end, and empty exactly when every character of the input is trimmable |
| Text.TrimOfPadded | app/Models/UserModel.php:72 | trimming a string padded on both sides with trimmable characters gives the unpadded core back |
| Text.Lower | app/Models/UserModel.php:72 | `strtolower`: same length, each character folded to lower case by ASCII rules |
| Text.LowerIdempotent | app/Models/UserModel.php:72 | lower-casing twice is lower-casing once |
| Text.IntOfDecimalString | app/Controllers/Api/V1/AuthController.php:315-316 | `(int)` of the decimal text of any 64-bit integer is that integer, so the `sub` claim reads back as the user id; text beyond the range reads as the nearest end of it |
| Text.IntOfString | app/Controllers/Api/V1/AuthController.php:350 | `(int)` of a string is its leading integer, saturated to the 64-bit range: always between `PHP_INT_MIN` and `PHP_INT_MAX`, and exactly the leading integer when that lies in the range |
| Text.StringCast | app/Controllers/Api/V1/AuthController.php:213-214 | `(string)` keeps strings, prints integers in decimal, and throws exactly for arrays and objects |
| Text.IntCast | app/Controllers/Api/V1/AuthController.php:212 | `(int)` keeps integers, reads the leading integer of a string, and throws exactly for an object |
| Text.TruthyString | app/Controllers/Api/V1/AuthController.php:350 | PHP truthiness of a string, as `?:` tests it: false exactly for "" and "0" |
| Text.Hex2BinOfBin2Hex | app/Controllers/Api/V1/AuthController.php:340 | `bin2hex` is inverted by reading the hexadecimal digits back |
| Text.Bin2Hex | app/Controllers/Api/V1/AuthController.php:340 | `bin2hex`: two lower-case hexadecimal digits per byte |
| ApiResponse.ApiRespond | app/Traits/ApiResponseTrait.php:33-61 | status "success" iff 200 <= code < 300; success carries the data, or {} for null, and no message or errors; error carries null data, the message or "Error", and errors that are never an empty array; 204 has no body |
| ApiResponse.Success | app/Traits/ApiResponseTrait.php:63-67 | 200 with the array as data; a passed message is dropped |
| ApiResponse.NoContent | app/Traits/ApiResponseTrait.php:74-79 | a bare 204 without a body |
| ApiResponse.Error | app/Traits/ApiResponseTrait.php:81-84 | the given code in a well-formed envelope, bodiless iff 204; an error code carries the message and the errors passed, `{}` when there are none |
| ApiResponse.Unauthorized | app/Traits/ApiResponseTrait.php:91-94 | 401 with the message and `errors: {}` |
| ApiResponse.Forbidden | app/Traits/ApiResponseTrait.php:96-99 | 403 with the message and `errors: {}` |
| ApiResponse.ServerError | app/Traits/ApiResponseTrait.php:139-152 | 500 with the message; the exception class and at most 4000 characters of trace (a prefix of the trace) only in development with an exception, `{}` otherwise |
| ApiResponse.NonEmptyStrings | app/Traits/ApiResponseTrait.php:128 | nothing from an empty list; a one-element list gives its string when that is a non-empty string and nothing otherwise; every result is a non-empty string of the list and every such string is in it |
| ApiResponse.NonEmptyStringsAppend | app/Traits/ApiResponseTrait.php:128 | filtering distributes over concatenation, so with the one-element cases the result is exactly the non-empty strings, in order and as often as they occur |
| ApiResponse.NormalizeField | app/Traits/ApiResponseTrait.php:120-134 | a string stays; a list, or the values of a keyed array, becomes Collapse of its non-empty strings: the only one, or the list of them when there are not exactly one; anything else is cast to string, None when the cast throws |
| ApiResponse.NormalizeFieldIdempotent | app/Traits/ApiResponseTrait.php:120-134 | normalising an already normalised message changes nothing |
| ApiResponse.NormalizeAll | app/Traits/ApiResponseTrait.php:117-135 | same fields in the same order, each normalised; fails exactly when some field's cast throws |
| ApiResponse.NormalizeErrors | app/Traits/ApiResponseTrait.php:119-135 | the loop over the fields computes NormalizeAll |
| ApiResponse.ValidationError | app/Traits/ApiResponseTrait.php:117-137 | a well-formed 422 whose errors are the normalised fields |
| Users.EmailKeyIdempotent | app/Controllers/Api/V1/AuthController.php:40 | normalising an already normalised e-mail changes nothing, so the controller's normalisation before the model's is harmless |
| Users.UserTable.FindByEmailAndTenant | app/Models/UserModel.php:70-75 | a user of that tenant whose stored e-mail equals the trimmed, lower-cased argument; None iff there is none |
| Users.UserTable.Find | app/Models/UserModel.php:100-103 | the row with that id; None iff there is none |
| Users.UserTable.FindActive | app/Models/UserModel.php:80-85 | the row with that id and status "active"; None iff there is none |
| Users.UserTable.IsActive | app/Models/UserModel.php:100-104 | true iff the user exists and its status is "active"; a missing status is not active |
| Users.UserTable.IsActiveIffFindActive | app/Models/UserModel.php:80-104 | with unique ids, `isActive` and `findActive` agree |
| Users.UserTable.ChangeStatus | app/Models/UserModel.php:109-116 | false and nothing changes outside {active, inactive, blocked}; otherwise only that user's status changes |
| Users.HashPassword | app/Models/UserModel.php:122-133 | a string password is replaced by `password_hash` computed from it, every other field kept; otherwise the data is unchanged |
| Users.HashPasswordIdempotent | app/Models/UserModel.php:122-133 | data the callback has processed has no plain password left, so a second pass changes nothing |
| Users.ProtectFields | app/Models/UserModel.php:20-28 | exactly the allowed keys of the data are kept, with their values |
| Users.PasswordDroppedAsWritten | app/Models/UserModel.php:20-28 | as written, saving data with a plain password and no hash stores neither |
| Users.SaveData | app/Models/UserModel.php:58-61 | with `password` allowed, a string password is saved as its hash and nothing outside the table's columns is saved; every other allowed field is kept |
| AuthTokens.ActiveLookup | app/Models/AuthTokenModel.php:57-63 | a row is returned only if its token is the jti, it is unrevoked and `expires_at > now`; None iff no such row exists |
| AuthTokens.SetRevoked | app/Models/AuthTokenModel.php:91-108 | exactly the selected rows get `revoked_at = now`; every other row is unchanged |
| AuthTokens.DeleteWhere | app/Models/AuthTokenModel.php:113-118 | the survivors are exactly the rows the condition does not delete, and their number is the total minus the deleted count |
| AuthTokens.DeleteKeepsOrder | app/Models/AuthTokenModel.php:113-118 | a delete keeps the surviving rows in id order |
| AuthTokens.DeleteKeepsTable | app/Models/AuthTokenModel.php:113-118 | a delete keeps ids increasing and below the next id, and `(user_id, token)` unique |
| AuthTokens.AuthTokenStore.FindValidByJti | app/Models/AuthTokenModel.php:57-70 | returns the active lookup on the old table; a hit marks exactly that row used at now, a miss changes nothing |
| AuthTokens.AuthTokenStore.TouchToken | app/Models/AuthTokenModel.php:161-166 | only `last_used_at` of the row with that id changes |
| AuthTokens.AuthTokenStore.CreateToken | app/Models/AuthTokenModel.php:39-43 | succeeds iff the token is non-empty once trimmed (the `required` rule), at most 255 characters and new for that user; then it appends exactly one unrevoked row used and created at now under the next id; otherwise nothing changes |
| AuthTokens.AuthTokenStore.RevokeByJti | app/Models/AuthTokenModel.php:91-97 | stamps every unrevoked row with that token, under any user |
| AuthTokens.AuthTokenStore.RevokeAllByUser | app/Models/AuthTokenModel.php:102-108 | stamps every unrevoked row of the user |
| AuthTokens.AuthTokenStore.CleanupExpired | app/Models/AuthTokenModel.php:113-118 | deletes exactly the user's rows with `expires_at < now` |
| AuthTokens.AuthTokenStore.CleanupOldTokens | app/Models/AuthTokenModel.php:204-215 | deletes, across users, exactly the rows that expired or were revoked before the cutoff, and returns their number |
| AuthTokens.AuthTokenStore.GetActiveSessions | app/Models/AuthTokenModel.php:123-131 | only the user's active sessions, each once, most recently used first, min(count, limit) of them (0 means all); any active session left out is used no later than every listed one |
| AuthTokens.AuthTokenStore.EnforceSessionLimit | app/Models/AuthTokenModel.php:136-156 | CapOutcome of the old table: below the cap nothing changes; at or above it the user keeps the `array_slice` count of active sessions (max-1 for a cap of at least one), only the user's active rows are revoked, at now, and every revoked one was used no later than every survivor |
| AuthTokens.AuthTokenStore.GetTokenStats | app/Models/AuthTokenModel.php:171-197 | active + revoked + expired == total, and active is the user's live-session count |
| AuthTokens.StatsPartition | app/Models/AuthTokenModel.php:177-190 | the three counted sets partition the user's rows |
| AuthTokens.OrderByLastUsed | app/Models/AuthTokenModel.php:129 | any set of positions can be listed by `last_used_at` descending, each once |
| AuthTokens.PageOfActiveOrder | app/Models/AuthTokenModel.php:125-130 | the first entries of such an order list only active sessions, each once, most recently used first, and every active session left out was used no later than any listed one |
| AuthTokens.EnforcePlan | app/Models/AuthTokenModel.php:145-152 | revoking the ids after the first `max-1` of that order leaves the computed count and the recency property |
| AuthTokens.RevokeIdempotent | app/Models/AuthTokenModel.php:91-108 | revoking again, at any later time, changes nothing |
| AuthTokens.RevokeMonotonic | app/Models/AuthTokenModel.php:91-108 | a revoked row keeps its original timestamp, and no row becomes unrevoked |
| AuthTokens.RevocationIsFinal | app/Models/AuthTokenModel.php:57-62 | after `revokeByJti` the token is never found active again, at any time |
| AuthTokens.RevokeAllLeavesNoneActive | app/Models/AuthTokenModel.php:102-108 | after `revokeAllByUser` the user has no active session |
| AuthTokens.CleanupKeepsActive | app/Models/AuthTokenModel.php:113-118 | active rows, other users' rows and rows expiring exactly now survive |
| AuthTokens.CleanupKeepsActiveCount | app/Models/AuthTokenModel.php:113-118 | `cleanupExpired` leaves every user's number of active sessions as it was |
| AuthTokens.ActiveCountAppend | app/Models/AuthTokenModel.php:75-86 | an inserted row adds one to its user's active count iff it is active |
| AuthTokens.ActiveCountAfterRevokeToken | app/Models/AuthTokenModel.php:91-97 | revoking a token lowers a user's active count by one iff that user held it live |
| Jwt.ExtractBearerToken | app/Filters/AuthFilter.php:73-84 | Some iff the header starts with "Bearer " in any case and the trimmed rest is non-empty; then it is that rest |
| Jwt.GetBearerToken | app/Controllers/Api/V1/AuthController.php:243-255 | the capture at FirstMatch, the leftmost `/Bearer\s+(\S+)/i` match: a non-empty run without whitespace; None iff nothing matches |
| Jwt.FirstMatch | app/Controllers/Api/V1/AuthController.php:250 | the leftmost position where the pattern matches |
| Jwt.Capture | app/Controllers/Api/V1/AuthController.php:250 | group 1: the slice that starts right after the spaces following "bearer", has no whitespace, and ends at the end of the header or before a whitespace character |
| Jwt.ExtractorsAgree | app/Filters/AuthFilter.php:73-84 | on "Bearer " plus a whitespace-free token, the filters and the controller read the same token |
| Jwt.ExtractorsDiffer | app/Controllers/Api/V1/AuthController.php:250 | on "Basic Bearer x" the filters find no token while the controller reads "x" |
| Jwt.DecodeJwt | app/Filters/AuthFilter.php:86-108 | None without a secret; otherwise the verified claims, unless they are expired or premature at now |
| Jwt.IsExpired | app/Filters/AuthFilter.php:96-100 | the library's `exp` rule: an integer `exp` that is not after now; an absent or null `exp` is not checked |
| Jwt.IsPremature | app/Filters/AuthFilter.php:96-100 | the library's `nbf` rule, and its `iat` rule when `nbf` is not set (absent or null, as `isset` reads it) |
| Jwt.ExpiryIsFinal | app/Filters/AuthFilter.php:98-100 | a token rejected as expired stays rejected at every later time |
| Jwt.RequiredClaims | app/Filters/AuthFilter.php:38-43 | Required with the cast `uid` and `jti` iff the `uid` cast is positive and the `jti` cast non-empty; Missing when both casts succeed but one of those fails; Throws iff one of the casts throws |
| Jwt.GetJwtTtl | app/Controllers/Api/V1/AuthController.php:348-351 | seven days when the setting is absent, "" or "0"; otherwise `(int)` of the setting; always a 64-bit integer |
| Jwt.ConfiguredTtl | app/Controllers/Api/V1/AuthController.php:348-351 | a decimal setting n gives n, except that 0 falls back to seven days and n beyond the 64-bit range reads as the nearest end of it |
| Jwt.GenerateSecureToken | app/Controllers/Api/V1/AuthController.php:338-341 | 32 lower-case hexadecimal characters |
| Jwt.SecureTokenInjective | app/Controllers/Api/V1/AuthController.php:338-341 | distinct random bytes give distinct jtis |
| Jwt.IssueJwtForUser | app/Controllers/Api/V1/AuthController.php:296-324 | None iff the secret is empty; otherwise exp = now + ttl, the claims name the user, the tenant and the default branch, and the returned jti is the one signed |
| Jwt.UserClaimsMeaning | app/Controllers/Api/V1/AuthController.php:308-318 | the signed claim set is valid exactly from now until exp, passes the claim check with the user's id and the jti, names the user's tenant and default branch (null for none) as the filter reads them, and its `sub` reads back as the id |
| Jwt.IssuedTokenDecodes | app/Controllers/Api/V1/AuthController.php:309-321 | an issued token decodes to its own claims throughout its lifetime, passes the claim check with the user's id and jti, and its `sub` reads back as the id (saturated to 64 bits) |
| Gates.FilterUnauthorized | app/Filters/AuthFilter.php:124-134 | the filter's hand-built 401 is the envelope's `unauthorized` response |
| Gates.AlreadyAuthenticated | app/Filters/NoAuthFilter.php:97-107 | a well-formed 409 "Ya autenticado" with `errors: {}` |
| Gates.ProbeRequest | app/Filters/AuthFilter.php:26-49 | the shared checks, in both directions: no token read gives NoToken, a failed decode BadToken, a throwing cast ClaimsThrow, missing claims NoClaims, a jti with no live session Unknown and otherwise Live with that session; a live outcome carries a positive uid, a non-empty jti and the active row that token names |
| Gates.AuthDecision | app/Filters/AuthFilter.php:25-61 | continues iff the probe is live and the `tid` cast succeeds, with the context user id, tenant id (0 when absent), branch (null when absent), jti and claims; faults iff a cast throws; otherwise the 401 of its case: "Token Bearer requerido", "Token inválido o expirado", "Token sin claims requeridos" or "Token no reconocido o revocado" |
| Gates.NoAuthDecision | app/Filters/NoAuthFilter.php:25-55 | a 409 iff the probe is live, a fault iff a claim cast throws, and on every other path the request goes on without a context |
| Gates.CheckBearer | app/Filters/AuthFilter.php:26-49 | the shared steps run on the store compute the probe of the old table, touch the found session, and change nothing else |
| Gates.AuthFilterBefore | app/Filters/AuthFilter.php:23-61 | the outcome is the filter decision on the old table; the found session is touched, and nothing else changes |
| Gates.NoAuthFilterBefore | app/Filters/NoAuthFilter.php:23-55 | the outcome is the anonymous-route decision on the old table; a live session is touched even though the request is turned away |
| Gates.AuthFilterSoundness | app/Filters/AuthFilter.php:23-61 | a request let through has a token that decodes now, a positive uid and a jti naming a live session, and its context holds the claims' user id, tenant (`(int)` of `tid`, 0 when absent) and branch (`bid`, null when absent); every refusal is a well-formed 401 |
| Gates.AuthFilterCompleteness | app/Filters/AuthFilter.php:25-61 | a token that is read, decodes now, has a positive uid, a non-empty jti naming a live session and a castable `tid` is let through with exactly its identity context, and the anonymous routes answer it with 409 |
| Gates.GatesComplementary | app/Filters/NoAuthFilter.php:23-55 | the anonymous-route filter allows a request iff the auth filter refuses it, and blocks every request the auth filter admits |
| Gates.RevokedTokenRefused | app/Filters/AuthFilter.php:46-49 | after revocation the token is refused by the auth filter and no longer blocks anonymous routes, at any time |
| Gates.ExpiredSessionRefused | app/Filters/AuthFilter.php:46-49 | with every session expired, no request is admitted |
| Gates.EmptySecretGates | app/Filters/NoAuthFilter.php:79-83 | without a secret the auth filter refuses and the anonymous-route filter allows every request |
| Auth.LoginErrors | app/Controllers/Api/V1/AuthController.php:216-230 | no messages iff tenant > 0, the e-mail is non-empty and valid and the password is non-empty; each field's message is present iff its condition fails, at most three in all |
| Auth.ValidateLoginPayload | app/Controllers/Api/V1/AuthController.php:208-231 | throws iff a cast of one of the three fields throws; otherwise passes iff no field fails, and a rejection carries the messages of the failing fields, which `validationError` can always normalise |
| Auth.IsUserActive | app/Controllers/Api/V1/AuthController.php:233-236 | active iff the status is missing or "active" |
| Auth.FormatUserResponse | app/Controllers/Api/V1/AuthController.php:326-336 | exactly the six fields id, tenant_id, default_branch_id (null iff none), name, email and status, with the user's values and without the password hash; the status reads "active" iff the controller deems the user active |
| Auth.GetValidatedClaims | app/Controllers/Api/V1/AuthController.php:274-294 | validated exactly when there is a secret, a truthy bearer token that decodes now to non-empty claims, and those claims have a positive uid and a non-empty jti; null when the token decodes to nothing, to an empty set, or lacks the claims |
| Auth.MeResponse | app/Controllers/Api/V1/AuthController.php:87-126 | 200 iff the session and the user checks all pass, and then the body is the session and the user; a refusal is exactly the checks' 401 or 403; a throw is the 500 "Error en me()" |
| Auth.LogoutResponse | app/Controllers/Api/V1/AuthController.php:128-144 | corrected: 200 iff the claims are valid and the jti is a string; 401 without claims |
| Auth.LogoutResponseAsWritten | app/Controllers/Api/V1/AuthController.php:128-144 | as written: never 200 |
| Auth.LogoutAsWrittenFails | app/Controllers/Api/V1/AuthController.php:139 | a valid logout answers 500 as written where the corrected reply is 200; every other request gets the same reply either way |
| Auth.RefreshRefusal | app/Controllers/Api/V1/AuthController.php:149-171 | a refused refresh is exactly the checks' 401 or 403, or the 500 "Error en refresh" when a cast throws |
| Auth.AuthController.LoginGate | app/Controllers/Api/V1/AuthController.php:34-57 | a cast that throws gets 500 and a rejected payload the 422 with the normalised messages; an unknown user and a wrong password get the same 401; an inactive user gets 403 whatever the password; an active user of that tenant whose password verifies proceeds, and only such a user |
| Auth.AuthController.SessionGate | app/Controllers/Api/V1/AuthController.php:90-112 | no claims gets 401; no live session 401; an unknown user 401; an inactive user 403; an active user with a live session is admitted, and only then; a non-string jti or a throwing cast crashes |
| Auth.AuthController.Login | app/Controllers/Api/V1/AuthController.php:28-85 | a refused login changes no session; an accepted one opens a session as OpenSession states |
| Auth.AuthController.OpenSession | app/Controllers/Api/V1/AuthController.php:59-80 | OpenedSession: after the clean-up, the cap ran as CapOutcome states, so with n live sessions the user keeps n below five and the four most recently used otherwise; no other user's session is lost; the issued token's row is appended, live iff the lifetime is positive, giving that count plus one (or the user already had that token); 500 without a secret |
| Auth.GeneratedTokenValidates | app/Models/AuthTokenModel.php:39-43 | a generated jti passes the table's `required` and `max_length[255]` rules |
| Auth.CappedFacts | app/Controllers/Api/V1/AuthController.php:59-61 | after `cleanupExpired` and `enforceSessionLimit(5)` the user has n live sessions when n < 5 and four otherwise, and every row of other users is still there |
| Auth.AuthController.Me | app/Controllers/Api/V1/AuthController.php:87-126 | the reply is MeResponse of the checks on the old table, and only the looked-up session is touched |
| Auth.AuthController.Logout | app/Controllers/Api/V1/AuthController.php:128-144 | replies with the corrected LogoutResponse (see Findings); with valid claims every unrevoked row of the jti is stamped and the token is never found live again; otherwise nothing changes |
| Auth.AuthController.Refresh | app/Controllers/Api/V1/AuthController.php:146-197 | a refused refresh only touches the looked-up session; an admitted one touches it, revokes the old jti and appends the new token's row, or changes nothing more exactly when the user already had a row with the new token (`Refreshed`) |
| Auth.CapKeepsOthers | app/Models/AuthTokenModel.php:145-152 | the cap leaves every row of other users in place |
| Auth.TouchKeepsActive | app/Models/AuthTokenModel.php:161-166 | marking a session used does not change which sessions are live |
| Auth.RefreshKeepsActiveCount | app/Controllers/Api/V1/AuthController.php:158-186 | refreshing the user's own session, with the new token stored live, leaves the user's live-session count unchanged, and the old token is never found live again |
| Auth.RefreshedKeepsActiveCount | app/Controllers/Api/V1/AuthController.php:158-186 | after an admitted refresh (`Refreshed`) of the user's own session, with a new token that outlives now and is new to the user, the row is appended, the user's live count is unchanged and the old token is dead for good |

## Left out

- Auth.AuthController.LoginGate: `getRequestPayload` (JSON body, then form fields, then `[]`) is the payload parameter. A payload that is not an object is not modelled.
- The date text is not modelled: `expires_at` in replies and in the table is the integer second, where the source formats it as `Y-m-d H:i:s`.
- `cleanupOldTokens` computes its cutoff as `now - days * 86400`. The model ignores daylight-saving shifts and `strtotime` with a negative day count.
- Auth.AuthController.Login: the caught exception's trace text is modelled as empty. That text is runtime information.
- `log_message` calls are not modelled.
- The `updated_at` column and `created_at` on updates are not modelled. No property reads them.
- The `VARCHAR(128)` limit on `token` is not modelled. Generated tokens have 32 characters.
- A failed database write is not modelled. `createToken` fails only on validation or on the `(user_id, token)` key, and the updates and deletes always succeed.
- The listing and the cap query the table separately from `touchToken`. The model runs each request in sequence with one `now`. Concurrent requests are not modelled.
- AuthTokens.AuthTokenStore.GetActiveSessions: requires a non-negative limit, because `findAll` with a negative limit is not modelled.
- `AuthFilter::after` and `NoAuthFilter::after` are not modelled, because they return the response unchanged.
- How the framework renders a filter's uncaught exception (`Fault`) is not modelled.
- The session-context object that `setAuthContext` stores is the `AuthContext` record.
- Jwt.IssueJwtForUser: `$nowTs + $ttl` is unbounded here. PHP turns a sum beyond `PHP_INT_MAX` (a huge `JWT_TTL_SECONDS`) into a float, and floats are not modelled.
- Integers that arrive already typed (ids, claims decoded as integers) are unbounded here. PHP's are 64-bit. Only the string-to-integer cast saturates, as PHP's does.
- IsPremature, IsExpired: only integer `nbf`, `iat` and `exp` claims are compared; the library also compares numeric strings and floats, which are not modelled.
- Users.UserTable.FindByEmailAndTenant and AuthTokens.ActiveLookup compare strings exactly. The SQL `=` under the database's collation may also match rows that differ in letter case or trailing spaces; collations are not modelled.
- Jwt.DecodeJwt: the library's algorithm header check, key lookup, leeway (zero by default) and malformed-token exceptions are all folded into the `verify` oracle.
- `(int)` of numeric strings in float form (such as "1e3") and leading-whitespace rules beyond PHP's numeric whitespace are not modelled. Floats are not modelled at all.
- The `env()` literal conversions ("true", "null", "empty") of `JWT_TTL_SECONDS` and `JWT_SECRET` are not modelled. The settings arrive as already-read strings.
- `UserModel::getUsersByTenant` is not modelled: no authentication path uses it.
- The user model's validation rules are not modelled.
- The stub controllers, routes, migration and seeder are not modelled. They are wiring, not logic.

## Findings

| source | as written | input that shows it | evidently intended | confidence | as-written member | corrected member |
|---|---|---|---|---|---|---|
| app/Controllers/Api/V1/AuthController.php:139 | after revoking the session, `logout` calls `$this->successMessage(...)`, which neither the controller nor `ApiResponseTrait` defines; the call throws `Error` and the catch answers 500 "Error en logout" | `POST /auth/logout` with a valid bearer token of a live session: the session is revoked, but the reply is 500 | a 200 success reply; it goes through `success`, which always sends a null message (ApiResponseTrait.php:50), so the text "Sesión cerrada exitosamente" does not reach the client | not executed | Auth.LogoutResponseAsWritten | Auth.LogoutResponse |
| app/Models/UserModel.php:21-28 | `password` is not in `$allowedFields`; CodeIgniter 4's `insert` and `update` keep only the allowed fields before the `beforeInsert` and `beforeUpdate` callbacks run, so `hashPassword` (UserModel.php:122-133) never sees a plain password | `insert(['tenant_id' => 1, 'name' => 'A', 'email' => 'a@b.c', 'password' => 'secret'])`: the row is stored without `password_hash` | the plain password is saved as its hash | not executed; rests on the framework's order of field protection and callbacks, which is not part of this model | Users.PasswordDroppedAsWritten | Users.SaveData |
